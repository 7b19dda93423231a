/** The leaderboard view's refresh: fetched ranking rows become ranked display
    rows with user names, the current user's rank outside the top ten is found
    in the full ordering, and the view's state fields are updated, with an early
    return when the top-ten read fails and the loading flag always cleared. */
module Leaderboard {

  import opened Common

  /** A `leaderboard` (or `previous_leaderboard`) row, in the order the store returns them. */
  datatype LeaderboardRow = LeaderboardRow(userId: string, totalXp: int)

  /** A `users` row; a null username is modelled as the empty string. */
  datatype UserRow = UserRow(id: string, username: string)

  /** A display row of the current ranking. */
  datatype RankedEntry = RankedEntry(id: string, rank: int, name: string, score: int, isCurrentUser: bool)

  /** A display row of the previous period's ranking. */
  datatype PreviousEntry = PreviousEntry(id: string, rank: int, name: string, score: int)

  /** The current user's position in the full ordering and their total. */
  datatype UserRank = UserRank(rank: int, score: int)

  const AnonymousName: string := "Anonymous User"

  // ---------------------------------------------------------------------------
  // The users map (`forEach` over the fetched users)
  // ---------------------------------------------------------------------------

  /** The users map after visiting `users` in order: each visit sets the entry
      for its id, so for a repeated id the last row wins. */
  function IndexUsers(users: seq<UserRow>): map<string, UserRow> {
    if |users| == 0 then map[]
    else
      var last := |users| - 1;
      IndexUsers(users[..last])[users[last].id := users[last]]
  }

  /** The map holds exactly the fetched ids. */
  lemma {:induction false} IndexUsersKeys(users: seq<UserRow>)
    ensures forall id :: id in IndexUsers(users) <==> exists i :: 0 <= i < |users| && users[i].id == id
  {
    if |users| > 0 {
      var last := |users| - 1;
      var prefix := users[..last];
      IndexUsersKeys(prefix);
      assert forall i :: 0 <= i < last ==> prefix[i] == users[i];
      assert IndexUsers(users) == IndexUsers(prefix)[users[last].id := users[last]];
      forall id | id in IndexUsers(users) ensures exists i :: 0 <= i < |users| && users[i].id == id {
        if id != users[last].id {
          var i :| 0 <= i < last && prefix[i].id == id;
          assert users[i].id == id;
        } else {
          assert users[last].id == id;
        }
      }
    }
  }

  /** A fetched row whose id does not occur later in the list is the row the
      map holds for that id: for a repeated id the last row wins. */
  lemma {:induction false} IndexUsersLastRowWins(users: seq<UserRow>, i: int)
    requires 0 <= i < |users|
    requires forall j :: i < j < |users| ==> users[j].id != users[i].id
    ensures users[i].id in IndexUsers(users) && IndexUsers(users)[users[i].id] == users[i]
  {
    var last := |users| - 1;
    if i < last {
      var prefix := users[..last];
      assert prefix[i] == users[i];
      assert users[last].id != users[i].id;
      IndexUsersLastRowWins(prefix, i);
    }
  }

  /** Builds the users map with a loop over the fetched rows; a failed users
      read leaves it empty. */
  method BuildUsersMap(usersRead: Response<seq<UserRow>>) returns (usersMap: map<string, UserRow>)
    ensures usersMap == UsersMapOf(usersRead)
  {
    usersMap := map[];
    if usersRead.Data? {
      var users := usersRead.rows;
      var i := 0;
      while i < |users|
        invariant 0 <= i <= |users|
        invariant usersMap == IndexUsers(users[..i])
      {
        assert users[..i + 1][..i] == users[..i];
        usersMap := usersMap[users[i].id := users[i]];
        i := i + 1;
      }
      assert users[..|users|] == users;
    }
  }

  function UsersMapOf(usersRead: Response<seq<UserRow>>): map<string, UserRow> {
    if usersRead.Data? then IndexUsers(usersRead.rows) else map[]
  }

  // ---------------------------------------------------------------------------
  // Formatting (`map` over the fetched rows)
  // ---------------------------------------------------------------------------

  /** The display name of a user id: its username, or the anonymous name when
      the user is not in the map or has an empty username. */
  function DisplayName(usersMap: map<string, UserRow>, id: string): (name: string)
    ensures name == AnonymousName || (id in usersMap && name == usersMap[id].username && name != "")
    ensures id in usersMap && usersMap[id].username != "" ==> name == usersMap[id].username
  {
    if id in usersMap && Truthy(usersMap[id].username) then usersMap[id].username else AnonymousName
  }

  /** The current ranking's display rows, one per fetched row and in the same order. */
  function FormatCurrent(rows: seq<LeaderboardRow>, usersMap: map<string, UserRow>, currentUserId: Option<string>): (r: seq<RankedEntry>)
    ensures |r| == |rows|
    ensures forall i :: 0 <= i < |r| ==>
              && r[i].id == rows[i].userId
              && r[i].rank == i + 1
              && r[i].name == DisplayName(usersMap, rows[i].userId)
              && r[i].score == rows[i].totalXp
              && (r[i].isCurrentUser <==> currentUserId == Some(rows[i].userId))
  {
    seq(|rows|, i requires 0 <= i < |rows| =>
      RankedEntry(rows[i].userId, i + 1, DisplayName(usersMap, rows[i].userId), rows[i].totalXp,
                  currentUserId == Some(rows[i].userId)))
  }

  /** The previous period's display rows, one per fetched row and in the same order. */
  function FormatPrevious(rows: seq<LeaderboardRow>, usersMap: map<string, UserRow>): (r: seq<PreviousEntry>)
    ensures |r| == |rows|
    ensures forall i :: 0 <= i < |r| ==>
              && r[i].id == rows[i].userId
              && r[i].rank == i + 1
              && r[i].name == DisplayName(usersMap, rows[i].userId)
              && r[i].score == rows[i].totalXp
  {
    seq(|rows|, i requires 0 <= i < |rows| =>
      PreviousEntry(rows[i].userId, i + 1, DisplayName(usersMap, rows[i].userId), rows[i].totalXp))
  }

  ghost predicate HasRank(entries: seq<RankedEntry>, k: int) {
    exists i :: 0 <= i < |entries| && entries[i].rank == k
  }

  /** The ranks of a formatted list are exactly 1..n, increasing down the list. */
  lemma FormattedRanksAreOneToN(rows: seq<LeaderboardRow>, usersMap: map<string, UserRow>, currentUserId: Option<string>)
    ensures var r := FormatCurrent(rows, usersMap, currentUserId);
            && (forall i :: 0 <= i < |r| ==> 1 <= r[i].rank <= |rows|)
            && (forall k :: 1 <= k <= |rows| ==> HasRank(r, k))
            && (forall i, j :: 0 <= i < j < |r| ==> r[i].rank < r[j].rank)
  {
    var r := FormatCurrent(rows, usersMap, currentUserId);
    forall k | 1 <= k <= |rows| ensures HasRank(r, k) {
      assert r[k - 1].rank == k;
    }
  }

  /** Some row is flagged as the current user's exactly when a current user is
      known and one of the fetched rows is theirs. */
  lemma CurrentUserFlaggedIffListed(rows: seq<LeaderboardRow>, usersMap: map<string, UserRow>, currentUserId: Option<string>)
    ensures var r := FormatCurrent(rows, usersMap, currentUserId);
            (exists i :: 0 <= i < |r| && r[i].isCurrentUser)
            <==> (currentUserId.Some? && exists i :: 0 <= i < |rows| && rows[i].userId == currentUserId.value)
  {
    var r := FormatCurrent(rows, usersMap, currentUserId);
    if currentUserId.Some? && exists i :: 0 <= i < |rows| && rows[i].userId == currentUserId.value {
      var i :| 0 <= i < |rows| && rows[i].userId == currentUserId.value;
      assert r[i].isCurrentUser;
    }
  }

  // ---------------------------------------------------------------------------
  // The current user's rank outside the top ten (`findIndex`)
  // ---------------------------------------------------------------------------

  /** The first position of the user's row in the ordering, if any. */
  function FirstIndex(rows: seq<LeaderboardRow>, userId: string): (r: Option<nat>)
    ensures r.Some? ==> r.value < |rows| && rows[r.value].userId == userId
    ensures r.Some? ==> forall j :: 0 <= j < r.value ==> rows[j].userId != userId
    ensures r.None? ==> forall j :: 0 <= j < |rows| ==> rows[j].userId != userId
  {
    if |rows| == 0 then None
    else if rows[0].userId == userId then Some(0)
    else
      match FirstIndex(rows[1..], userId)
      case None => None
      case Some(k) => Some(k + 1)
  }

  predicate Listed(entries: seq<RankedEntry>, userId: string) {
    exists i :: 0 <= i < |entries| && entries[i].id == userId
  }

  /** The rank lookup runs only for a known, non-empty current user id that is
      not among the formatted rows. */
  predicate RankLookupNeeded(currentUserId: Option<string>, formatted: seq<RankedEntry>) {
    currentUserId.Some? && Truthy(currentUserId.value) && !Listed(formatted, currentUserId.value)
  }

  /** The stored rank after a refresh. It changes only when the lookup runs, the
      full read succeeds and the user is found, and then it is the first
      position plus one with that row's total. It is never cleared, so a user
      who has entered the top ten keeps the stale rank. */
  function RankAfter(oldRank: Option<UserRank>, currentUserId: Option<string>, formatted: seq<RankedEntry>,
                     fullRanking: Response<seq<LeaderboardRow>>): (r: Option<UserRank>)
    ensures r != oldRank ==>
              && RankLookupNeeded(currentUserId, formatted) && fullRanking.Data?
              && r.Some? && 1 <= r.value.rank <= |fullRanking.rows|
              && fullRanking.rows[r.value.rank - 1].userId == currentUserId.value
              && r.value.score == fullRanking.rows[r.value.rank - 1].totalXp
              && (forall j :: 0 <= j < r.value.rank - 1 ==> fullRanking.rows[j].userId != currentUserId.value)
    ensures currentUserId.Some? && Listed(formatted, currentUserId.value) ==> r == oldRank
    ensures RankLookupNeeded(currentUserId, formatted) && fullRanking.Data?
            && (exists j :: 0 <= j < |fullRanking.rows| && fullRanking.rows[j].userId == currentUserId.value)
            ==> r.Some? && 1 <= r.value.rank <= |fullRanking.rows|
                && fullRanking.rows[r.value.rank - 1].userId == currentUserId.value
    ensures RankLookupNeeded(currentUserId, formatted) && fullRanking.Data?
            && FirstIndex(fullRanking.rows, currentUserId.value).Some?
            ==> var k := FirstIndex(fullRanking.rows, currentUserId.value).value;
                r == Some(UserRank(k + 1, fullRanking.rows[k].totalXp))
  {
    if RankLookupNeeded(currentUserId, formatted) && fullRanking.Data? then
      match FirstIndex(fullRanking.rows, currentUserId.value)
      case Some(k) => Some(UserRank(k + 1, fullRanking.rows[k].totalXp))
      case None => oldRank
    else oldRank
  }

  // ---------------------------------------------------------------------------
  // The view
  // ---------------------------------------------------------------------------

  /** The leaderboard screen's state fields. */
  class LeaderboardView {
    var currentLeaderboard: seq<RankedEntry>
    var previousLeaderboard: seq<PreviousEntry>
    var loading: bool
    var refreshing: bool
    var currentUserRank: Option<UserRank>
    var autoRefresh: bool
    var lastRefreshed: int

    constructor (nowMs: int)
      ensures currentLeaderboard == [] && previousLeaderboard == []
      ensures loading && !refreshing && currentUserRank.None? && autoRefresh
      ensures lastRefreshed == nowMs
    {
      currentLeaderboard := [];
      previousLeaderboard := [];
      loading := true;
      refreshing := false;
      currentUserRank := None;
      autoRefresh := true;
      lastRefreshed := nowMs;
    }

    /** One refresh with the given replies of the store. `showLoading` chooses
        which flag is raised at the start and cleared at the end; the other flag
        is not touched. A failed top-ten read ends the refresh with the lists,
        the rank and the refresh time as they were. */
    method FetchLeaderboardData(showLoading: bool, currentUserId: Option<string>,
                                topRead: Response<seq<LeaderboardRow>>, usersRead: Response<seq<UserRow>>,
                                fullRead: Response<seq<LeaderboardRow>>,
                                previousRead: Response<seq<LeaderboardRow>>, previousUsersRead: Response<seq<UserRow>>,
                                nowMs: int)
      modifies this
      ensures showLoading ==> !loading && refreshing == old(refreshing)
      ensures !showLoading ==> !refreshing && loading == old(loading)
      ensures autoRefresh == old(autoRefresh)
      ensures topRead.Error? ==>
                && currentLeaderboard == old(currentLeaderboard)
                && previousLeaderboard == old(previousLeaderboard)
                && currentUserRank == old(currentUserRank)
                && lastRefreshed == old(lastRefreshed)
      ensures topRead.Data? ==>
                && currentLeaderboard == FormatCurrent(topRead.rows, UsersMapOf(usersRead), currentUserId)
                && currentUserRank == RankAfter(old(currentUserRank), currentUserId, currentLeaderboard, fullRead)
                && previousLeaderboard == (if previousRead.Data?
                                           then FormatPrevious(previousRead.rows, UsersMapOf(previousUsersRead))
                                           else old(previousLeaderboard))
                && lastRefreshed == nowMs
    {
      if showLoading {
        loading := true;
      } else {
        refreshing := true;
      }

      label attempt: {
        if topRead.Error? {
          break attempt;
        }
        var usersMap := BuildUsersMap(usersRead);
        var formatted := FormatCurrent(topRead.rows, usersMap, currentUserId);
        currentLeaderboard := formatted;

        if currentUserId.Some? && Truthy(currentUserId.value) && !Listed(formatted, currentUserId.value) {
          if fullRead.Data? {
            var index := FirstIndex(fullRead.rows, currentUserId.value);
            if index.Some? {
              currentUserRank := Some(UserRank(index.value + 1, fullRead.rows[index.value].totalXp));
            }
          }
        }

        if previousRead.Data? {
          var previousUsersMap := BuildUsersMap(previousUsersRead);
          previousLeaderboard := FormatPrevious(previousRead.rows, previousUsersMap);
        }

        lastRefreshed := nowMs;
      }

      if showLoading {
        loading := false;
      } else {
        refreshing := false;
      }
    }
  }

  /** A refresh that keeps a user in the top ten leaves whatever out-of-top-ten
      rank an earlier refresh stored. */
  lemma StaleRankSurvivesTopTenEntry(oldRank: UserRank, userId: string, rows: seq<LeaderboardRow>,
                                     usersMap: map<string, UserRow>, fullRanking: Response<seq<LeaderboardRow>>)
    requires exists i :: 0 <= i < |rows| && rows[i].userId == userId
    ensures RankAfter(Some(oldRank), Some(userId), FormatCurrent(rows, usersMap, Some(userId)), fullRanking) == Some(oldRank)
  {
    var formatted := FormatCurrent(rows, usersMap, Some(userId));
    var i :| 0 <= i < |rows| && rows[i].userId == userId;
    assert formatted[i].id == userId;
  }
}

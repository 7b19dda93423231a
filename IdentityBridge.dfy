/** The identity bridge: after a sign-in, the signed-in identity is validated,
    its encrypted id is cached locally, and a `users` row is looked up by id and
    inserted when absent, with a username that defaults to the email's local
    part. The cipher is a parameter (`encrypt`) of the operation. */
module IdentityBridge {

  import opened Common

  /** The identity-provider user as the bridge reads it; a missing field is the
      empty string. `creationTime` is the account's creation time, already in
      the ISO form the row stores. */
  datatype FirebaseUser = FirebaseUser(uid: string, email: string, creationTime: string)

  /** A `users` row. */
  datatype UserRecord = UserRecord(id: string, email: string, username: string, createdAt: string)

  datatype SyncError = InvalidUserData | LookupFailed(code: string) | InsertFailed

  /** What the operation returns or throws: the id-only row the lookup found,
      the row it inserted, or an error. */
  datatype SyncResult = ReturnedExisting(id: string) | ReturnedCreated(row: UserRecord) | Thrown(error: SyncError)

  /** The state the bridge writes: the `users` table keyed by id, and the
      locally cached cipher text of the id. */
  datatype SyncState = SyncState(users: map<string, UserRecord>, cachedUid: Option<string>)

  /** `email.split('@')[0]`: the email up to its first `'@'`, or all of it when
      it has none. */
  function EmailLocalPart(email: string): (r: string)
    ensures |r| <= |email| && r == email[..|r|]
    ensures forall i :: 0 <= i < |r| ==> r[i] != '@'
    ensures |r| < |email| ==> email[|r|] == '@'
  {
    if |email| == 0 || email[0] == '@' then ""
    else [email[0]] + EmailLocalPart(email[1..])
  }

  /** An email without `'@'` is its own local part. */
  lemma LocalPartOfPlainName(email: string)
    requires forall i :: 0 <= i < |email| ==> email[i] != '@'
    ensures EmailLocalPart(email) == email
  {
  }

  /** The username of a new row: the supplied one when non-empty, otherwise the
      email's local part. */
  function DefaultUsername(username: string, email: string): string {
    if Truthy(username) then username else EmailLocalPart(email)
  }

  function NewUserRow(user: FirebaseUser, username: string): UserRecord {
    UserRecord(user.uid, user.email, DefaultUsername(username, user.email), user.creationTime)
  }

  /** A lookup failure other than "no rows" is rethrown. */
  predicate LookupAborts(lookupFailure: Option<string>) {
    lookupFailure.Some? && lookupFailure.value != NoRowsCode
  }

  /** The specification of one synchronisation. The lookup finds the row when
      the request itself does not fail and the id is present; `lookupFailure` is
      a failure of the request, with its code. The insert fails when the store
      reports an error or the id is already taken (the table is keyed by id). */
  function Sync(s: SyncState, user: FirebaseUser, username: string, encrypt: string -> string,
                lookupFailure: Option<string>, insertFails: bool): (SyncState, SyncResult)
  {
    if !Truthy(user.uid) || !Truthy(user.email) then (s, Thrown(InvalidUserData))
    else
      var cached := s.(cachedUid := Some(encrypt(user.uid)));
      if LookupAborts(lookupFailure) then (cached, Thrown(LookupFailed(lookupFailure.value)))
      else if lookupFailure.None? && user.uid in s.users then (cached, ReturnedExisting(user.uid))
      else if insertFails || user.uid in s.users then (cached, Thrown(InsertFailed))
      else (cached.(users := s.users[user.uid := NewUserRow(user, username)]), ReturnedCreated(NewUserRow(user, username)))
  }

  /** A missing id or email throws before anything is written, the local cache included. */
  lemma InvalidUserWritesNothing(s: SyncState, user: FirebaseUser, username: string, encrypt: string -> string,
                                 lookupFailure: Option<string>, insertFails: bool)
    requires user.uid == "" || user.email == ""
    ensures Sync(s, user, username, encrypt, lookupFailure, insertFails) == (s, Thrown(InvalidUserData))
  {
  }

  /** For valid input the encrypted id is cached whatever the lookup and insert
      do, and the users table changes at most by one new row for this id, built
      from the id, the email and the default username. */
  lemma SyncWritesAtMostOneRow(s: SyncState, user: FirebaseUser, username: string, encrypt: string -> string,
                               lookupFailure: Option<string>, insertFails: bool)
    requires user.uid != "" && user.email != ""
    ensures var (s', r) := Sync(s, user, username, encrypt, lookupFailure, insertFails);
            && s'.cachedUid == Some(encrypt(user.uid))
            && (s'.users == s.users || (user.uid !in s.users && s'.users == s.users[user.uid := NewUserRow(user, username)]))
            && (r.ReturnedCreated? <==> s'.users != s.users)
            && (r.ReturnedCreated? ==> r.row.id == user.uid && r.row.email == user.email
                                       && r.row.username == DefaultUsername(username, user.email))
            && (LookupAborts(lookupFailure) ==> s'.users == s.users && r == Thrown(LookupFailed(lookupFailure.value)))
            && (lookupFailure.None? && user.uid in s.users ==> s'.users == s.users && r == ReturnedExisting(user.uid))
            && (!LookupAborts(lookupFailure) && !(lookupFailure.None? && user.uid in s.users) && insertFails
                ==> s'.users == s.users && r == Thrown(InsertFailed))
  {
  }

  /** Calling the bridge again with the same identity after a successful call
      inserts nothing and returns the existing row: the table keeps exactly the
      one row for that id. */
  lemma SyncIsIdempotent(s: SyncState, user: FirebaseUser, username1: string, username2: string,
                         encrypt: string -> string, lookupFailure: Option<string>, insertFails1: bool, insertFails2: bool)
    requires !Sync(s, user, username1, encrypt, lookupFailure, insertFails1).1.Thrown?
    ensures var (s1, _) := Sync(s, user, username1, encrypt, lookupFailure, insertFails1);
            var (s2, r2) := Sync(s1, user, username2, encrypt, None, insertFails2);
            && user.uid in s1.users
            && s2.users == s1.users
            && r2 == ReturnedExisting(user.uid)
  {
  }

  /** The auth provider's bridge state: the `users` table and the local cache entry. */
  class AuthProvider {
    var users: map<string, UserRecord>
    var cachedUid: Option<string>

    constructor (users: map<string, UserRecord>, cachedUid: Option<string>)
      ensures this.users == users && this.cachedUid == cachedUid
    {
      this.users := users;
      this.cachedUid := cachedUid;
    }

    /** `createSupabaseUser`: validate, cache the encrypted id, look the row up,
        and insert it when absent; the new state and the result are the ones
        `Sync` specifies. */
    method CreateSupabaseUser(user: FirebaseUser, username: string, encrypt: string -> string,
                              lookupFailure: Option<string>, insertFails: bool) returns (result: SyncResult)
      modifies this
      ensures (SyncState(users, cachedUid), result)
              == Sync(SyncState(old(users), old(cachedUid)), user, username, encrypt, lookupFailure, insertFails)
    {
      if !Truthy(user.uid) || !Truthy(user.email) {
        return Thrown(InvalidUserData);
      }

      cachedUid := Some(encrypt(user.uid));

      var existingUser: Option<string> := None;
      if lookupFailure.Some? {
        if lookupFailure.value != NoRowsCode {
          return Thrown(LookupFailed(lookupFailure.value));
        }
      } else if user.uid in users {
        existingUser := Some(user.uid);
      }

      if existingUser.Some? {
        return ReturnedExisting(existingUser.value);
      }

      var newUser := UserRecord(user.uid, user.email, DefaultUsername(username, user.email), user.creationTime);
      if insertFails || user.uid in users {
        return Thrown(InsertFailed);
      }
      users := users[user.uid := newUser];
      return ReturnedCreated(newUser);
    }
  }
}

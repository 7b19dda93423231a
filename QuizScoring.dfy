/** The arithmetic rules of a quiz completion: how many answers are correct, how
    much XP a result earns, and how the daily streak continues. The source's
    floating-point expressions are written over exact integers:
    `floor(q * 0.8)` is `(4 * q) / 5`, `floor(q * 0.5)` is `q / 2`,
    `c >= t * 0.7` is `10 * c >= 7 * t` and `c >= t * 0.5` is `2 * c >= t`
    (Dafny's `/` by a positive constant rounds down, as `Math.floor` does). */
module QuizScoring {

  import opened Common

  /** One question as the session engine holds it after loading. */
  datatype Question = Question(id: string, questionText: string, options: seq<string>, correctAnswer: string)

  /** A user's stored streak: its length and the UTC calendar day (days since
      1970-01-01) that the stored `YYYY-MM-DD` string names. */
  datatype StreakRecord = StreakRecord(currentStreak: int, lastCompleted: int)

  const MsPerDay: int := 86400000

  function Max(a: int, b: int): int {
    if a >= b then a else b
  }

  // ---------------------------------------------------------------------------
  // Score: the `reduce` over the question list
  // ---------------------------------------------------------------------------

  /** Question `i` is answered correctly: the selection in slot `i` equals the
      question's correct answer. A slot the selection list does not have holds
      `undefined`, which never equals an answer string. */
  predicate Matches(questions: seq<Question>, selections: seq<string>, i: int)
    requires 0 <= i < |questions|
  {
    i < |selections| && selections[i] == questions[i].correctAnswer
  }

  /** The number of correctly answered questions, accumulated question by
      question as the source's `reduce` does. */
  function Score(questions: seq<Question>, selections: seq<string>): (r: nat)
    ensures r <= |questions|
  {
    if |questions| == 0 then 0
    else
      var last := |questions| - 1;
      Score(questions[..last], selections) + (if Matches(questions, selections, last) then 1 else 0)
  }

  /** Reference definition of the score: the set of correctly answered indices. */
  ghost function CorrectIndices(questions: seq<Question>, selections: seq<string>): set<int> {
    set i | 0 <= i < |questions| && Matches(questions, selections, i)
  }

  lemma {:induction false} ScoreCountsCorrectIndices(questions: seq<Question>, selections: seq<string>)
    ensures Score(questions, selections) == |CorrectIndices(questions, selections)|
  {
    if |questions| > 0 {
      var last := |questions| - 1;
      var prefix := questions[..last];
      ScoreCountsCorrectIndices(prefix, selections);
      var before := CorrectIndices(prefix, selections);
      var now := CorrectIndices(questions, selections);
      assert forall i :: 0 <= i < last ==> (Matches(prefix, selections, i) <==> Matches(questions, selections, i));
      if Matches(questions, selections, last) {
        assert now == before + {last};
      } else {
        assert now == before;
      }
    }
  }

  lemma {:induction false} PerfectScoreIffAllCorrect(questions: seq<Question>, selections: seq<string>)
    ensures Score(questions, selections) == |questions|
            <==> forall i :: 0 <= i < |questions| ==> Matches(questions, selections, i)
  {
    if |questions| > 0 {
      var last := |questions| - 1;
      var prefix := questions[..last];
      PerfectScoreIffAllCorrect(prefix, selections);
      assert forall i :: 0 <= i < last ==> (Matches(prefix, selections, i) <==> Matches(questions, selections, i));
    }
  }

  /** Freshly loaded selections (every slot `''`) score nothing unless some
      question's correct answer is itself the empty string. */
  lemma {:induction false} EmptySelectionsScoreZero(questions: seq<Question>, selections: seq<string>)
    requires |selections| == |questions|
    requires forall i :: 0 <= i < |selections| ==> selections[i] == ""
    requires forall i :: 0 <= i < |questions| ==> questions[i].correctAnswer != ""
    ensures Score(questions, selections) == 0
  {
    if |questions| > 0 {
      var last := |questions| - 1;
      EmptySelectionsScoreZero(questions[..last], selections[..last]);
      ScoreIgnoresExtraSlots(questions[..last], selections[..last], selections);
    }
  }

  /** The score of a prefix of the questions depends only on the slots it covers. */
  lemma {:induction false} ScoreIgnoresExtraSlots(questions: seq<Question>, some: seq<string>, other: seq<string>)
    requires |questions| <= |some| && |questions| <= |other|
    requires some[..|questions|] == other[..|questions|]
    ensures Score(questions, some) == Score(questions, other)
  {
    if |questions| > 0 {
      var last := |questions| - 1;
      assert some[..last] == some[..|questions|][..last];
      assert other[..last] == other[..|questions|][..last];
      ScoreIgnoresExtraSlots(questions[..last], some, other);
      assert some[last] == some[..|questions|][last];
    }
  }

  // ---------------------------------------------------------------------------
  // XP awarded on completion (`calculateXp`)
  // ---------------------------------------------------------------------------

  /** The XP persisted for `correct` answers out of `total` questions of a quiz
      worth `quizXp`. A perfect result earns exactly `quizXp`, even below 10 and
      even for an empty quiz; from 70% it earns `floor(quizXp * 0.8)`, from 50%
      `floor(quizXp * 0.5)`, each at least 10; a result under one half earns
      exactly 10. */
  function CalculateXp(correct: nat, total: nat, quizXp: int): (r: int)
    ensures correct == total ==> r == quizXp
    ensures correct != total ==> r >= 10
    ensures correct != total && 2 * correct < total ==> r == 10
    ensures correct != total && 2 * correct >= total && quizXp >= 0 ==> r <= Max(quizXp, 10)
    ensures correct != total && correct as real >= total as real * 0.7
            ==> r == Max((quizXp as real * 0.8).Floor, 10)
    ensures correct != total && total as real * 0.5 <= correct as real < total as real * 0.7
            ==> r == Max((quizXp as real * 0.5).Floor, 10)
  {
    if correct == total then quizXp
    else if 10 * correct >= 7 * total then Max((4 * quizXp) / 5, 10)
    else if 2 * correct >= total then Max(quizXp / 2, 10)
    else 10
  }

  /** The integer tier tests are the source's ratio tests `c >= t * 0.7` and
      `c >= t * 0.5`, read over the reals. */
  lemma TierTestsAreRatios(correct: int, total: int)
    requires total > 0
    ensures (10 * correct >= 7 * total) <==> (correct as real >= total as real * 0.7)
    ensures (2 * correct >= total) <==> (correct as real >= total as real * 0.5)
  {
  }

  /** `(4 * q) / 5` is `floor(q * 0.8)` over the reals. */
  lemma EightyPercentIsFloor(q: int)
    ensures ((4 * q) / 5) as real <= q as real * 0.8 < ((4 * q) / 5 + 1) as real
  {
    var f := (4 * q) / 5;
    assert 5 * f <= 4 * q < 5 * f + 5;
  }

  /** Below a perfect result, more correct answers never earn less XP. */
  lemma XpMonotoneBelowPerfect(c1: nat, c2: nat, total: nat, quizXp: int)
    requires c1 <= c2 < total
    requires quizXp >= 0
    ensures CalculateXp(c1, total, quizXp) <= CalculateXp(c2, total, quizXp)
  {
    assert quizXp / 2 <= (4 * quizXp) / 5;
  }

  /** A perfect result can earn less than a partial one: the full reward is not
      floored at 10. With a 5 XP quiz of two questions, one correct answer earns
      10 and two earn 5. */
  lemma PerfectCanEarnLessThanPartial()
    ensures CalculateXp(1, 2, 5) == 10 && CalculateXp(2, 2, 5) == 5
  {
  }

  // ---------------------------------------------------------------------------
  // Streak continuation
  // ---------------------------------------------------------------------------

  /** The UTC calendar day of an instant, as `toISOString().split('T')[0]` names it. */
  function DayOf(ms: int): int {
    ms / MsPerDay
  }

  /** The instant `new Date('YYYY-MM-DD')` gives for a stored day: its UTC midnight. */
  function DayStartMs(day: int): int {
    day * MsPerDay
  }

  /** The new streak value. It starts at 1; it becomes the previous streak plus
      one only when exactly one day of milliseconds separates now from the stored
      day's midnight; every other elapsed time (same day, a later hour of the
      next day, longer gaps) leaves it at 1. */
  function StreakAfter(previous: Option<StreakRecord>, nowMs: int): (r: int)
    ensures previous.None? ==> r == 1
    ensures previous.Some? && nowMs - DayStartMs(previous.value.lastCompleted) == MsPerDay
            ==> r == previous.value.currentStreak + 1
    ensures previous.Some? && nowMs - DayStartMs(previous.value.lastCompleted) != MsPerDay ==> r == 1
  {
    var updated := 1;
    match previous
    case None => updated
    case Some(record) =>
      var diffInTime := nowMs - DayStartMs(record.lastCompleted);
      if diffInTime == MsPerDay then record.currentStreak + 1
      else if diffInTime > MsPerDay then 1
      else updated
  }

  /** The streak can only grow on a completion at exactly 00:00:00.000 UTC of the
      day after the stored one. */
  lemma StreakGrowsOnlyAtNextMidnight(previous: Option<StreakRecord>, nowMs: int)
    requires StreakAfter(previous, nowMs) != 1
    ensures previous.Some?
    ensures nowMs % MsPerDay == 0
    ensures DayOf(nowMs) == previous.value.lastCompleted + 1
    ensures StreakAfter(previous, nowMs) == previous.value.currentStreak + 1
  {
    var d := previous.value.lastCompleted;
    assert nowMs == (d + 1) * MsPerDay;
  }

  /** A second completion on the same UTC day resets the streak to 1 rather than
      leaving it unchanged. */
  lemma SameDayCompletionResets(record: StreakRecord, nowMs: int)
    requires DayOf(nowMs) == record.lastCompleted
    ensures StreakAfter(Some(record), nowMs) == 1
  {
    assert DayStartMs(record.lastCompleted) <= nowMs < DayStartMs(record.lastCompleted) + MsPerDay;
  }

  /** A completion on the next UTC day, but after its first millisecond, also
      resets the streak to 1. */
  lemma NextDayAfterMidnightResets(record: StreakRecord, nowMs: int)
    requires DayOf(nowMs) == record.lastCompleted + 1
    requires nowMs % MsPerDay != 0
    ensures StreakAfter(Some(record), nowMs) == 1
  {
    assert nowMs != DayStartMs(record.lastCompleted) + MsPerDay;
  }
}

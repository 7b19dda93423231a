/** The quiz session engine: a session loads a quiz's questions, records one
    selection per question, moves through the questions, and on completion
    computes the score and XP and writes the outcome to the record store in a
    fixed order, abandoning the rest of the workflow after some failures. */
module QuizSession {

  import opened Common
  import opened QuizScoring

  /** A `questions` row as the record store returns it. */
  datatype QuestionRow = QuestionRow(
    id: string, questionText: string,
    option1: string, option2: string, option3: string, option4: string,
    correctAnswerColumn: string)

  /** The load-time transformation: the four option columns become the option
      list and `correct_answer` becomes the question's correct answer. */
  function ToQuestion(row: QuestionRow): (q: Question)
    ensures q.options == [row.option1, row.option2, row.option3, row.option4]
    ensures q.correctAnswer == row.correctAnswerColumn
  {
    Question(row.id, row.questionText, [row.option1, row.option2, row.option3, row.option4], row.correctAnswerColumn)
  }

  /** A `user_progress` row. */
  datatype ProgressRecord = ProgressRecord(userId: string, quizId: string, score: int, xpEarned: int)

  /** A `user_attempts` row; `attemptedAt` is the completion instant in milliseconds. */
  datatype AttemptRecord = AttemptRecord(userId: string, quizId: string, attemptNumber: int, attemptedAt: int, score: int)

  /** The tables the completion workflow touches. A leaderboard value of `None`
      is a row whose `total_xp` is null. */
  datatype Store = Store(
    progress: seq<ProgressRecord>,
    leaderboard: map<string, Option<int>>,
    attempts: seq<AttemptRecord>,
    streaks: map<string, StreakRecord>)

  /** Which of the completion workflow's remote calls fail. A streak read error
      carries the store's error code. */
  datatype CompletionOutcomes = CompletionOutcomes(
    progressInsertFails: bool,
    leaderboardReadFails: bool,
    leaderboardUpsertFails: bool,
    attemptInsertFails: bool,
    streakReadError: Option<string>,
    streakUpsertFails: bool)

  /** The leaderboard total the user has before this completion: the stored
      `total_xp`, or 0 when the read failed, there is no row, or the value is
      null or 0. */
  function CurrentXp(leaderboard: map<string, Option<int>>, userId: string, readFails: bool): (r: int)
    ensures readFails || userId !in leaderboard ==> r == 0
    ensures !readFails && userId in leaderboard ==> r == leaderboard[userId].GetOr(0)
  {
    if !readFails && userId in leaderboard then
      match leaderboard[userId]
      case Some(total) => total
      case None => 0
    else 0
  }

  /** The streak row the workflow sees: none when the read reported an error
      (the "no rows" code included) or the user has no row. */
  function StreakSeen(streaks: map<string, StreakRecord>, userId: string, readError: Option<string>): Option<StreakRecord> {
    if readError.None? && userId in streaks then Some(streaks[userId]) else None
  }

  /** A streak read error other than "no rows" ends the workflow. */
  predicate StreakReadAborts(readError: Option<string>) {
    readError.Some? && readError.value != NoRowsCode
  }

  /** The store after one completion, stated step by step by which writes
      happen: the progress insert always runs; everything else runs only if it
      succeeded; the leaderboard upsert's failure stops nothing; the streak is
      read and written only after the attempt insert succeeded. */
  function Completed(store: Store, userId: string, quizId: string, score: int, xpEarned: int,
                     nowMs: int, o: CompletionOutcomes): Store
  {
    var progressWritten := !o.progressInsertFails;
    var leaderboardWritten := progressWritten && !o.leaderboardUpsertFails;
    var attemptWritten := progressWritten && !o.attemptInsertFails;
    var streakWritten := attemptWritten && !StreakReadAborts(o.streakReadError) && !o.streakUpsertFails;
    var newTotal := CurrentXp(store.leaderboard, userId, o.leaderboardReadFails) + xpEarned;
    var newStreak := StreakAfter(StreakSeen(store.streaks, userId, o.streakReadError), nowMs);
    Store(
      store.progress + (if progressWritten then [ProgressRecord(userId, quizId, score, xpEarned)] else []),
      if leaderboardWritten then store.leaderboard[userId := Some(newTotal)] else store.leaderboard,
      store.attempts + (if attemptWritten then [AttemptRecord(userId, quizId, 1, nowMs, score)] else []),
      if streakWritten then store.streaks[userId := StreakRecord(newStreak, DayOf(nowMs))] else store.streaks)
  }

  /** A failed progress insert leaves every table as it was. */
  lemma ProgressFailureWritesNothing(store: Store, userId: string, quizId: string, score: int, xpEarned: int,
                                     nowMs: int, o: CompletionOutcomes)
    requires o.progressInsertFails
    ensures Completed(store, userId, quizId, score, xpEarned, nowMs, o) == store
  {
  }

  /** After a successful progress insert the leaderboard total becomes the
      previous total (0 when unread, missing or null) plus the XP earned, unless
      the upsert fails; an upsert failure does not stop the attempt insert. */
  lemma LeaderboardTotalAccumulates(store: Store, userId: string, quizId: string, score: int, xpEarned: int,
                                    nowMs: int, o: CompletionOutcomes)
    requires !o.progressInsertFails
    ensures var s := Completed(store, userId, quizId, score, xpEarned, nowMs, o);
            && (!o.leaderboardUpsertFails ==>
                  s.leaderboard == store.leaderboard[userId := Some(CurrentXp(store.leaderboard, userId, o.leaderboardReadFails) + xpEarned)])
            && (o.leaderboardUpsertFails ==> s.leaderboard == store.leaderboard)
            && (!o.attemptInsertFails ==> s.attempts == store.attempts + [AttemptRecord(userId, quizId, 1, nowMs, score)])
  {
  }

  /** A failed leaderboard read is not an abort: the previous total counts as 0
      and a successful upsert then replaces the stored total with the XP just
      earned, so a stored total of 1000 becomes 10 after a 10 XP completion. */
  lemma LeaderboardReadFailureOverwritesTotal(store: Store, userId: string, quizId: string, score: int,
                                              xpEarned: int, nowMs: int, o: CompletionOutcomes)
    requires !o.progressInsertFails && o.leaderboardReadFails && !o.leaderboardUpsertFails
    ensures Completed(store, userId, quizId, score, xpEarned, nowMs, o).leaderboard[userId] == Some(xpEarned)
    ensures userId in store.leaderboard && store.leaderboard[userId] == Some(1000) && xpEarned == 10
            ==> Completed(store, userId, quizId, score, xpEarned, nowMs, o).leaderboard[userId] != store.leaderboard[userId]
  {
  }

  /** The streak table changes only when the progress and attempt inserts both
      succeeded and the streak read did not fail with an error other than "no
      rows"; every attempt row the workflow writes has attempt number 1. */
  lemma StreakWrittenOnlyAfterAttempt(store: Store, userId: string, quizId: string, score: int, xpEarned: int,
                                      nowMs: int, o: CompletionOutcomes)
    ensures var s := Completed(store, userId, quizId, score, xpEarned, nowMs, o);
            && (s.streaks != store.streaks ==>
                  && |s.progress| == |store.progress| + 1
                  && |s.attempts| == |store.attempts| + 1
                  && !StreakReadAborts(o.streakReadError))
            && (forall i :: |store.attempts| <= i < |s.attempts| ==> s.attempts[i].attemptNumber == 1)
  {
  }

  /** When the streak is written it holds today's day and the streak rule's value:
      1 for a user without a streak row. */
  lemma StreakRowAfterCompletion(store: Store, userId: string, quizId: string, score: int, xpEarned: int,
                                 nowMs: int, o: CompletionOutcomes)
    requires !o.progressInsertFails && !o.attemptInsertFails && !o.streakUpsertFails
    requires !StreakReadAborts(o.streakReadError)
    ensures var s := Completed(store, userId, quizId, score, xpEarned, nowMs, o);
            && userId in s.streaks
            && s.streaks[userId].lastCompleted == DayOf(nowMs)
            && (userId !in store.streaks ==> s.streaks[userId].currentStreak == 1)
  {
  }

  /** One quiz-taking session: the component state of the quiz screen. */
  class QuizSession {
    const quizId: string
    /** The user id recovered from the local cache when the screen opens. */
    const userId: string
    var questions: seq<Question>
    var quizXp: int
    var currentQuestion: int
    var selections: seq<string>
    /** `None` until completion; then the score, which switches to the results view. */
    var correctAnswers: Option<int>
    var nextDisabled: bool
    var loading: bool

    /** One selection slot per question; the question index stays within the
        question list (at 0 while it is empty); nothing is loaded while loading. */
    ghost predicate Valid()
      reads this
    {
      && |selections| == |questions|
      && 0 <= currentQuestion
      && (|questions| == 0 ==> currentQuestion == 0)
      && (|questions| > 0 ==> currentQuestion < |questions|)
      && (loading ==> questions == [] && correctAnswers.None?)
    }

    constructor (quizId: string, userId: string)
      ensures Valid()
      ensures this.quizId == quizId && this.userId == userId
      ensures questions == [] && selections == [] && quizXp == 0 && currentQuestion == 0
      ensures correctAnswers.None? && nextDisabled && loading
    {
      this.quizId := quizId;
      this.userId := userId;
      questions := [];
      quizXp := 0;
      currentQuestion := 0;
      selections := [];
      correctAnswers := None;
      nextDisabled := true;
      loading := true;
    }

    /** The load effect: the quiz's XP value (kept at its initial value when the
        read fails), then its questions; on success one empty selection slot per
        question. Loading ends either way. */
    method Load(quizRead: Response<int>, questionsRead: Response<seq<QuestionRow>>)
      requires Valid() && loading
      modifies this
      ensures Valid() && !loading
      ensures quizXp == (if quizRead.Data? then quizRead.rows else old(quizXp))
      ensures questionsRead.Data? ==>
                && |questions| == |questionsRead.rows|
                && (forall i :: 0 <= i < |questions| ==> questions[i] == ToQuestion(questionsRead.rows[i]))
                && |selections| == |questions|
                && (forall i :: 0 <= i < |selections| ==> selections[i] == "")
      ensures questionsRead.Error? ==> questions == old(questions) && selections == old(selections)
      ensures currentQuestion == old(currentQuestion) && nextDisabled == old(nextDisabled)
      ensures correctAnswers == old(correctAnswers)
    {
      if quizRead.Data? {
        quizXp := quizRead.rows;
      }
      if questionsRead.Data? {
        var rows := questionsRead.rows;
        questions := seq(|rows|, i requires 0 <= i < |rows| => ToQuestion(rows[i]));
        selections := seq(|rows|, _ => "");
      }
      loading := false;
    }

    /** Choosing an option writes the current question's slot only and enables
        the Next button. Options are shown only for an existing question. */
    method HandleOptionSelect(option: string)
      requires Valid() && !loading
      requires currentQuestion < |questions|
      modifies this
      ensures Valid()
      ensures |selections| == |old(selections)|
      ensures selections[currentQuestion] == option
      ensures forall i :: 0 <= i < |selections| && i != currentQuestion ==> selections[i] == old(selections)[i]
      ensures !nextDisabled
      ensures questions == old(questions) && currentQuestion == old(currentQuestion)
      ensures quizXp == old(quizXp) && correctAnswers == old(correctAnswers) && loading == old(loading)
    {
      var updated := selections;
      updated := updated[currentQuestion := option];
      selections := updated;
      nextDisabled := false;
    }

    /** Next moves to the following question and disables Next again; at the
        last question it does nothing. */
    method HandleNextQuestion()
      requires Valid() && !loading
      modifies this
      ensures Valid()
      ensures old(currentQuestion) < |questions| - 1 ==> currentQuestion == old(currentQuestion) + 1 && nextDisabled
      ensures old(currentQuestion) >= |questions| - 1 ==>
                currentQuestion == old(currentQuestion) && nextDisabled == old(nextDisabled)
      ensures questions == old(questions) && selections == old(selections)
      ensures quizXp == old(quizXp) && correctAnswers == old(correctAnswers) && loading == old(loading)
    {
      if currentQuestion < |questions| - 1 {
        currentQuestion := currentQuestion + 1;
        nextDisabled := true;
      }
    }

    /** Completion: the score is recorded in the session, then the store is
        written in order (progress, leaderboard, attempt, streak) with the early
        returns of the source. The new store is the one `Completed` describes. */
    method HandleQuizCompletion(store: Store, o: CompletionOutcomes, nowMs: int) returns (result: Store)
      requires Valid() && !loading
      modifies this`correctAnswers
      ensures Valid()
      ensures correctAnswers == Some(Score(questions, selections))
      ensures result == Completed(store, userId, quizId, Score(questions, selections),
                                  CalculateXp(Score(questions, selections), |questions|, quizXp), nowMs, o)
    {
      var correct := Score(questions, selections);
      correctAnswers := Some(correct);
      var xpEarned := CalculateXp(correct, |questions|, quizXp);
      result := store;

      if o.progressInsertFails {
        return;
      }
      result := result.(progress := result.progress + [ProgressRecord(userId, quizId, correct, xpEarned)]);

      var currentXp := 0;
      if !o.leaderboardReadFails && userId in store.leaderboard {
        currentXp := store.leaderboard[userId].GetOr(0);
      }
      var updatedTotalXp := currentXp + xpEarned;
      if !o.leaderboardUpsertFails {
        result := result.(leaderboard := result.leaderboard[userId := Some(updatedTotalXp)]);
      }

      if o.attemptInsertFails {
        return;
      }
      result := result.(attempts := result.attempts + [AttemptRecord(userId, quizId, 1, nowMs, correct)]);

      if StreakReadAborts(o.streakReadError) {
        return;
      }
      var streakData: Option<StreakRecord> := None;
      if o.streakReadError.None? && userId in store.streaks {
        streakData := Some(store.streaks[userId]);
      }
      var updatedStreak := StreakAfter(streakData, nowMs);
      if !o.streakUpsertFails {
        result := result.(streaks := result.streaks[userId := StreakRecord(updatedStreak, DayOf(nowMs))]);
      }
    }
  }

  /** The worked example of a perfect completion: five of five correct on a 100
      XP quiz writes a progress row with score 5 and 100 XP and raises the
      leaderboard total by 100. */
  lemma PerfectFiveOfFive(store: Store, userId: string, quizId: string, nowMs: int, o: CompletionOutcomes)
    requires !o.progressInsertFails && !o.leaderboardUpsertFails && !o.leaderboardReadFails
    requires userId in store.leaderboard && store.leaderboard[userId] == Some(40)
    ensures var s := Completed(store, userId, quizId, 5, CalculateXp(5, 5, 100), nowMs, o);
            && s.progress[|s.progress| - 1] == ProgressRecord(userId, quizId, 5, 100)
            && s.leaderboard[userId] == Some(140)
  {
  }
}

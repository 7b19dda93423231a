# Quiz application core — a Dafny model

This project models the rule-bearing core of a browser quiz application in which
users sign in, answer multiple-choice quizzes, earn XP, keep a daily streak and
appear on a leaderboard. All durable state lives in a remote record store; the
model represents the store's tables as Dafny maps and sequences and every remote
call's outcome (success, or an error with its code) as a parameter.

Four parts of the application are modelled:

- **Quiz session engine** (`QuizScoring`, `QuizSession`): loading a quiz (one
  empty selection slot per question), selecting an option, moving to the next
  question, and completion — the score, the tiered XP award, and the ordered
  store writes (progress row, leaderboard total, attempt row, streak row) with
  the early returns of the source. `QuizSession.Completed` states declaratively
  which writes happen for each combination of outcomes, and
  `QuizSession.QuizSession.HandleQuizCompletion`, written as the source's
  sequence of steps, is proved to produce exactly that store.
- **Results screen** (`QuizResults`): the rounded percentage, the displayed XP
  (a tiering different from the awarded XP), the two count-up loops and the
  closing message.
- **Leaderboard refresh** (`Leaderboard`): the users map, the ranked display
  rows, the out-of-top-ten rank lookup, and the view's state fields across one
  refresh, including the early return when the top-ten read fails and the
  loading flag cleared in all cases.
- **Identity bridge** (`IdentityBridge`): validation, caching the encrypted id,
  lookup and conditional insert of the `users` row with the default username,
  and idempotence of repeated synchronisation.

Floating-point expressions are written over exact integers:
`floor(q * 0.8)` is `(4 * q) / 5`, `c >= t * 0.7` is `10 * c >= 7 * t`,
`c >= t * 0.5` is `2 * c >= t`, and `Math.round(x)` is `floor(x + 1/2)`
computed as one integer division. Dates are integer milliseconds; a stored
`YYYY-MM-DD` day is its UTC day number, which `new Date(...)` turns into that
day's UTC midnight.

Two behaviours of the code that a reader may not expect, and that the model
follows:

- The streak becomes "previous + 1" only when exactly 86,400,000 ms separate the
  completion from the stored day's UTC midnight, i.e. only for a completion at
  00:00:00.000 UTC of the next day (`QuizScoring.StreakGrowsOnlyAtNextMidnight`).
  Every other completion, including a second one on the same day, sets the
  streak to 1; it is never left unchanged, because the value starts at 1.
- Store writes during completion are not independent: a failed progress insert
  ends the workflow before any other write, and a failed attempt insert or a
  streak read error other than "no rows" (`PGRST116`) ends it before the streak
  write. Only the leaderboard upsert's failure is ignored.
- A failed leaderboard read does not end the workflow either: the previous
  total is taken as 0, so the upsert that follows replaces the stored total
  with the XP just earned (a stored 1000 becomes 10 after a 10 XP completion;
  `QuizSession.LeaderboardReadFailureOverwritesTotal`).

## Model

| member | source | states |
|---|---|---|
| `QuizScoring.Score` | src/components/js/Quiz.js:84-87 | the number of correct answers is between 0 and the number of questions |
| `QuizScoring.ScoreCountsCorrectIndices` | src/components/js/Quiz.js:84-87 | the score equals the number of indices whose selection equals that question's correct answer |
| `QuizScoring.PerfectScoreIffAllCorrect` | src/components/js/Quiz.js:84-87 | the score equals the question count exactly when every question is answered correctly |
| `QuizScoring.EmptySelectionsScoreZero` | src/components/js/Quiz.js:59-60 | freshly loaded selections (all `''`) score 0 when no correct answer is empty |
| `QuizScoring.CalculateXp` | src/components/js/Quiz.js:226-232 | a perfect result earns exactly the quiz's XP (even below 10, and for an empty quiz); from 70% it earns max(floor(quizXp × 0.8), 10), from 50% max(floor(quizXp × 0.5), 10), under one half exactly 10; the partial tiers never exceed max(quizXp, 10) |
| `QuizScoring.TierTestsAreRatios` | src/components/js/Quiz.js:229-230 | the integer tier tests are the source's comparisons with 0.7 and 0.5 of the total |
| `QuizScoring.EightyPercentIsFloor` | src/components/js/Quiz.js:229 | `(4q)/5` is `floor(q * 0.8)` |
| `QuizScoring.XpMonotoneBelowPerfect` | src/components/js/Quiz.js:226-232 | below a perfect result, more correct answers never earn less XP |
| `QuizScoring.PerfectCanEarnLessThanPartial` | src/components/js/Quiz.js:228-231 | a perfect result on a 5 XP quiz earns 5 while a half result earns 10 |
| `QuizScoring.StreakAfter` | src/components/js/Quiz.js:184-198 | no stored streak gives 1; an elapsed time of exactly one day gives previous + 1; any other elapsed time gives 1 |
| `QuizScoring.StreakGrowsOnlyAtNextMidnight` | src/components/js/Quiz.js:187-197 | the streak grows only for a completion at exactly UTC midnight of the day after the stored day |
| `QuizScoring.SameDayCompletionResets` | src/components/js/Quiz.js:185-198 | a completion on the stored day sets the streak to 1 |
| `QuizScoring.NextDayAfterMidnightResets` | src/components/js/Quiz.js:185-198 | a completion later than midnight on the next day also sets the streak to 1 |
| `QuizSession.ToQuestion` | src/components/js/Quiz.js:54-58 | a loaded question's options are `option1`..`option4` in that order and its answer is `correct_answer` |
| `QuizSession.CurrentXp` | src/components/js/Quiz.js:123-126 | the previous total is the stored value, or 0 when the read failed, there is no row, or the value is null |
| `QuizSession.ProgressFailureWritesNothing` | src/components/js/Quiz.js:100-114 | a failed progress insert leaves every table unchanged |
| `QuizSession.LeaderboardTotalAccumulates` | src/components/js/Quiz.js:116-166 | after the progress insert the leaderboard total becomes previous total + XP earned unless the upsert fails, and an upsert failure does not stop the attempt insert |
| `QuizSession.LeaderboardReadFailureOverwritesTotal` | src/components/js/Quiz.js:117-146 | when the leaderboard read fails and the upsert succeeds, the stored total becomes exactly the XP just earned, whatever it was |
| `QuizSession.StreakWrittenOnlyAfterAttempt` | src/components/js/Quiz.js:156-215 | the streak table changes only after successful progress and attempt inserts and a streak read without a non-"no rows" error; every attempt row has attempt number 1 |
| `QuizSession.StreakRowAfterCompletion` | src/components/js/Quiz.js:173-215 | a written streak row holds today's day, and 1 for a user without a previous row |
| `QuizSession.PerfectFiveOfFive` | src/components/js/Quiz.js:84-145 | five of five on a 100 XP quiz writes score 5 and 100 XP and raises a total of 40 to 140 |
| `QuizSession.QuizSession.constructor` | src/components/js/Quiz.js:13-20 | a session starts loading, with no questions, no selections, index 0, Next disabled and no result |
| `QuizSession.QuizSession.Load` | src/components/js/Quiz.js:32-64 | the quiz XP is read (kept on error); on success there is exactly one `''` slot per loaded question; on error questions and slots are unchanged; loading ends |
| `QuizSession.QuizSession.HandleOptionSelect` | src/components/js/Quiz.js:69-74 | only the current question's slot changes, to the chosen option, and Next becomes enabled |
| `QuizSession.QuizSession.HandleNextQuestion` | src/components/js/Quiz.js:76-81 | below the last question the index advances by one and Next is disabled; at the last question nothing changes; the index stays within the question list |
| `QuizSession.QuizSession.HandleQuizCompletion` | src/components/js/Quiz.js:83-223 | the session records the score, and the store after the sequential workflow with its early returns is exactly `Completed` for the computed score and XP |
| `QuizResults.FinalPercentage` | src/components/js/QuizResults.js:23 | the result is the whole percentage nearest to 100·correct/total with halves rounded up, within 0..100, and 100 for a perfect result |
| `QuizResults.DisplayedXp` | src/components/js/QuizResults.js:24-29 | 100% shows the full value; 70–99% shows the nearest integer to 80% of it with no floor; below 70% shows the nearest integer to that percentage of the value, or 10 when that is smaller |
| `QuizResults.DisplayedXpDiffersFromAwarded` | src/components/js/QuizResults.js:23-29 | 6 of 10 on a 50 XP quiz shows 30 but awards 25; 199 of 200 shows the full 50 but awards 40 |
| `QuizResults.PerfectResultShowsAwardedXp` | src/components/js/QuizResults.js:23-26 | for a perfect result the shown XP equals the awarded XP |
| `QuizResults.ScoreCountUp` | src/components/js/QuizResults.js:33-43 | the score count-up stops exactly at the final percentage |
| `QuizResults.XpCountUpEnd` | src/components/js/QuizResults.js:45-53 | the XP count-up ends at the least even number not below a positive target, one above an odd target, and at 0 otherwise |
| `QuizResults.XpCountUp` | src/components/js/QuizResults.js:34-53 | the step-by-2 loop ends exactly at `XpCountUpEnd` of its target |
| `QuizResults.MessageFor` | src/components/js/QuizResults.js:90-94 | the top message exactly from 150 XP, the middle one exactly for 100–149, the last below 100 |
| `QuizResults.OvershootCanChangeMessage` | src/components/js/QuizResults.js:45-94 | a 149 XP figure counts up to 150 and shows the top message, which 149 would not |
| `Leaderboard.IndexUsersKeys` | src/components/js/Leaderboard.js:100-106 | the users map holds exactly the fetched ids |
| `Leaderboard.IndexUsersLastRowWins` | src/components/js/Leaderboard.js:103-105 | each id maps to the last fetched row with that id |
| `Leaderboard.BuildUsersMap` | src/components/js/Leaderboard.js:100-106 | the loop over the fetched users builds the map `IndexUsers` describes, and an empty map when the read failed |
| `Leaderboard.DisplayName` | src/components/js/Leaderboard.js:110-114 | the name is the mapped username when it is non-empty, and `Anonymous User` otherwise |
| `Leaderboard.FormatCurrent` | src/components/js/Leaderboard.js:109-118 | one display row per fetched row, in order, with rank index + 1, the display name, the total as score, and the current-user flag exactly when the id equals the current id |
| `Leaderboard.FormatPrevious` | src/components/js/Leaderboard.js:166-174 | the previous period's rows are formatted the same way, without the flag |
| `Leaderboard.FormattedRanksAreOneToN` | src/components/js/Leaderboard.js:109-118 | the ranks of a formatted list are exactly 1..n and strictly increase down the list |
| `Leaderboard.CurrentUserFlaggedIffListed` | src/components/js/Leaderboard.js:116 | some row is flagged exactly when a current user is known and one fetched row is theirs |
| `Leaderboard.FirstIndex` | src/components/js/Leaderboard.js:130 | the result is the first position of the user's row, or none when no row is theirs |
| `Leaderboard.RankAfter` | src/components/js/Leaderboard.js:123-138 | the rank changes only when a non-empty current id is outside the formatted rows, the full read succeeded and the user is found, and then it is always the first position + 1 with that row's total; it is never reset |
| `Leaderboard.StaleRankSurvivesTopTenEntry` | src/components/js/Leaderboard.js:123-138 | a user inside the top ten keeps the rank stored by an earlier refresh |
| `Leaderboard.LeaderboardView.constructor` | src/components/js/Leaderboard.js:11-17 | the view starts with empty lists, loading, not refreshing, no rank and auto-refresh on |
| `Leaderboard.LeaderboardView.FetchLeaderboardData` | src/components/js/Leaderboard.js:65-190 | the chosen flag ends cleared and the other is untouched; a failed top-ten read leaves lists, rank and refresh time unchanged; otherwise the lists, rank and refresh time are the formatted and looked-up values, and a failed previous read keeps the previous list |
| `IdentityBridge.EmailLocalPart` | src/contexts/AuthContext.js:57 | the result is the prefix of the email before its first `@`, the whole email when it has none |
| `IdentityBridge.LocalPartOfPlainName` | src/contexts/AuthContext.js:57 | an email without `@` is its own local part |
| `IdentityBridge.InvalidUserWritesNothing` | src/contexts/AuthContext.js:27-29 | a missing id or email throws before any write, the local cache included |
| `IdentityBridge.SyncWritesAtMostOneRow` | src/contexts/AuthContext.js:31-63 | valid input caches the encrypted id whatever follows; a lookup error other than "no rows" is rethrown with no insert; an existing row is returned with no insert; a failed insert is thrown to the caller with no row added; otherwise at most one new row (id, email, default username) is added |
| `IdentityBridge.SyncIsIdempotent` | src/contexts/AuthContext.js:37-49 | after a successful call, a second call with the same identity inserts nothing and returns the existing row |
| `IdentityBridge.AuthProvider.CreateSupabaseUser` | src/contexts/AuthContext.js:26-68 | the sequence of validation, cache write, lookup and conditional insert yields exactly the state and result `Sync` specifies |

## Left out

- Calls into the record store and the identity provider are not modelled; each is a table in a map or sequence plus an outcome parameter, and the rows a read returns (their order, the top-ten limit) are taken as given.
- The cipher (AES in the source) is a function parameter of `CreateSupabaseUser`. The quiz screen's decryption of the cached id is not modelled; the decrypted id is a parameter of the session's constructor.
- `sign up`, `login`, `loginWithGoogle`, `logout` and the sign-in subscription are identity-provider calls and are not modelled; they only call the bridge or write the same cache entry.
- The progress percentage of the quiz screen is floating-point display only.
- Floating-point rounding: the model computes with exact rationals. `Math.round(correct / total * 100)` and `Math.round(xpValue * percentage / 100)` could differ from the exact value where a floating-point error crosses a half; `c >= t * 0.7` could differ from `10c >= 7t` where `t * 0.7` is not exact.
- `QuizResults.FinalPercentage`: requires a non-empty quiz; with no questions the quiz screen fails while rendering the first question, so the results screen is never shown, and the division by zero (NaN in the source) is not modelled.
- `QuizSession.QuizSession.Load`: modelled as the load when the screen opens; the re-run of the load when the quiz id changes on a mounted screen is not modelled.
- `QuizSession.QuizSession.HandleOptionSelect`: requires the current question to exist, since options are rendered only for it; writing past the end of the selection list is not modelled.
- JavaScript value oddities (NaN, non-numeric `total_xp`, null `current_streak`) are not modelled; totals and streaks are integers.
- Date formatting (`toISOString`, locale time strings) is left out; instants are milliseconds and days are UTC day numbers.
- `IdentityBridge.AuthProvider.CreateSupabaseUser`: on insert it returns the inserted row, where the source returns whatever data the store's insert reply carries.
- The `created_at` conversion `new Date(creationTime).toISOString()` is taken as already done: the identity's creation time is stored as given.
- Leaderboard timers, the auto-refresh toggle, the change subscription, overlapping refreshes, and exceptions caught by the refresh's `catch` (for example from the current-user read) are not modelled; the current user id is a parameter.
- Concurrent sign-ins in two tabs (a possible duplicate-row race) and concurrent completions racing the leaderboard read-modify-write are concurrency and are not modelled.
- Presentation (JSX, theme toggles, routing, other screens such as the dashboard) is not modelled.

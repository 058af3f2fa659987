# Quiz generator core, modelled in Dafny

This project models the logic of a browser quiz generator. A question bank
(JSON: prompt, two or four choices, index of the right answer) is validated.
A quiz session is started over it, optionally shuffled. The user answers,
moves between questions and finishes, and the quiz is scored. The
application also does the following:

- shares a bank as a `#quiz=` link in URL-safe Base64, following sections
  3.2, 4 and 5 of RFC 4648;
- keeps saved quizzes, attempts, a draft and settings in the browser's
  key-value store;
- computes statistics and a score trend over the attempt history;
- shows a detailed breakdown of one result;
- configures and runs an exam countdown.

Modules, one per part of the program:

| module | file | models |
|---|---|---|
| `Options` | options.dfy | `Option` and `Result` |
| `JsMath` | js_math.dfy | `Math.round` of a quotient, `Math.ceil(1.5n)`, `max`/`min`, in exact integer arithmetic |
| `QuizTypes` | quiz_types.dfy | questions, results, the validation rule for one question, and what counts as a correct answer |
| `QuizSession` | quiz_session.dfy | the quiz screen: validation, generation, answering, navigation, scoring, reset and the review list of shared results |
| `ShareCodec` | share_codec.dfy | the byte-level Base64 codec, the URL-safe rewrite and padding restoration, and opening a `#quiz=` link |
| `QuizStorage` | quiz_storage.dfy | the persistence utility as a pure transformer of a four-namespace store |
| `QuizStatistics` | quiz_statistics.dfy | the statistics of an attempt history and the trend classifier |
| `TimeFormat` | time_format.dfy | `formatTime` and its inverse |
| `AdvancedStats` | advanced_stats.dfy | the detailed-statistics panel |
| `ExamModeConfig` | exam_config.dfy | the exam configuration dialog and its bounds check |
| `ExamTimer` | exam_timer.dfy | the countdown reducer, its fire-once guards and its display class |

Modelling choices:

- JavaScript numbers are unbounded integers here.
- `Math.round(a / b)` with `b > 0` is `(2a + b) div 2b`.
- The trend compares the window sums by cross-multiplication. A separate
  definition over exact real means is proved to classify identically.
- Identifiers, timestamps and the locale date label are parameters.
- The random comparator of the shuffle is an arbitrary stream of choices.
  Every outcome is a permutation of the bank.
- `JSON.parse` of a link payload is a function parameter.
- A store namespace is `Absent`, `Unreadable` (its JSON does not parse) or
  `Stored`. The first two read as the empty list or the default settings,
  as the program's `data ? … : []` and `try/catch` do.
- `TimeFormat.ParseTime` is not part of the program. It is the strict
  reading of a displayed time, used to state that `formatTime` is
  injective and that each of its texts names exactly one duration.
- The exam dialog has two variants. `AsWritten` is the program; `Capped`
  is the corrected dialog of the second finding below.

## Model

| member | source | states |
|---|---|---|
| `JsMath.RoundDiv` | src/utils/quizStorage.ts:224 | the rounded quotient is the integer within half a unit of the exact quotient, ties going up |
| `JsMath.RoundDivUnique` | src/utils/quizStorage.ts:224 | only one integer lies within half a unit of the quotient, so the rounding is determined |
| `JsMath.RoundDivMonotone` | src/utils/quizStorage.ts:227 | a larger numerator never rounds to a smaller result |
| `JsMath.RoundDivBetween` | src/utils/quizStorage.ts:224 | a quotient whose exact value lies in [lo, hi] rounds into [lo, hi] |
| `JsMath.CeilThreeHalves` | src/components/ExamModeConfig.tsx:13 | the result is the least integer not below 1.5·n |
| `QuizTypes.CorrectCount` | src/components/QuizGenerator.tsx:236-241 | the score never exceeds the number of questions |
| `QuizSession.FirstIllFormed` | src/components/QuizGenerator.tsx:181-192 | no position is reported iff every question passes; otherwise the reported question fails and all before it pass |
| `QuizSession.ValidateAsWritten` | src/components/QuizGenerator.tsx:176-192 | the bank is accepted iff every question has a prompt, 2 or 4 choices and an in-range answer; an empty bank is accepted |
| `QuizSession.Validate` | src/components/QuizGenerator.tsx:181-192 | accepted iff the bank is non-empty and every question is well formed; otherwise the 1-based position of the first bad question (or the empty-bank error) |
| `QuizSession.ShuffleBy` | src/components/QuizGenerator.tsx:194-197 | every outcome of the random reordering is a permutation of the bank |
| `QuizSession.Start` | src/components/QuizGenerator.tsx:199-203 | a new session has the given questions, an all-empty sheet of the same length, index 0 and no result |
| `QuizSession.Arrange` | src/components/QuizGenerator.tsx:194-197 | with random mode off the order is unchanged; with it on the questions are a permutation |
| `QuizSession.GenerateAsWritten` | src/components/QuizGenerator.tsx:176-204 | generation succeeds exactly when the as-written validation passes |
| `QuizSession.RearrangedWellFormed` | src/components/QuizGenerator.tsx:194-197 | shuffling a validated bank keeps every question well formed |
| `QuizSession.Generate` | src/components/QuizGenerator.tsx:176-204 | success iff the bank is non-empty and valid; then an all-unanswered sheet of matching length, index 0, no result, a permutation of the bank, the bank itself when not shuffled |
| `QuizSession.EmptyBankAcceptedAsWritten` | src/components/QuizGenerator.tsx:176-204 | the empty bank is accepted as written and yields a session with no current question; the corrected generation refuses it |
| `QuizSession.SelectAnswer` | src/components/QuizGenerator.tsx:215-219 | only the current slot changes, to the chosen answer; questions, index and result are kept |
| `QuizSession.NextQuestion` | src/components/QuizGenerator.tsx:221-225 | the index advances by one unless at the last question; nothing else changes; the index stays in range |
| `QuizSession.PrevQuestion` | src/components/QuizGenerator.tsx:227-231 | the index goes back by one unless at the first question; nothing else changes; the index stays in range |
| `QuizSession.PrevUndoesNext` | src/components/QuizGenerator.tsx:221-231 | away from the last question, back after forward returns to the same state |
| `QuizSession.NextUndoesPrev` | src/components/QuizGenerator.tsx:221-231 | away from the first question, forward after back returns to the same state |
| `QuizSession.Forward` | src/components/QuizGenerator.tsx:221-225 | any number of forward presses keeps the session valid |
| `QuizSession.ForwardClamps` | src/components/QuizGenerator.tsx:221-225 | k forward presses move to min(index + k, last) |
| `QuizSession.Percentage` | src/components/QuizGenerator.tsx:243-244 | the percentage is the integer within half a unit of 100·score/total, halves going up; it lies in [0, 100], is 0 iff the score is under half a percent and 100 iff it is at least 99.5 percent |
| `QuizSession.PercentageBracket` | src/components/QuizGenerator.tsx:244 | the rounded percentage of a score is in [0, 100] with the two boundary characterisations |
| `QuizSession.PercentageExact` | src/components/QuizGenerator.tsx:244 | any integer within half a unit of 100·score/total is the percentage shown |
| `QuizSession.PercentageMonotone` | src/components/QuizGenerator.tsx:244 | a higher score never shows a lower percentage |
| `QuizSession.ComputeScore` | src/components/QuizGenerator.tsx:236-241 | the reduction over the sheet counts exactly the positions answered with the key |
| `QuizSession.Finish` | src/components/QuizGenerator.tsx:233-253 | the result records the correct count, the total, the rounded percentage of that count and the sheet; nothing else changes |
| `QuizSession.FinishQuiz` | src/components/QuizGenerator.tsx:233-253 | the loop-computed result equals the specified one |
| `QuizSession.UnansweredScoresZero` | src/components/QuizGenerator.tsx:236-241 | an all-null sheet scores zero |
| `QuizSession.FinishRightAway` | src/components/QuizGenerator.tsx:199-253 | finishing a freshly generated quiz gives score 0 and 0 percent |
| `QuizSession.CorrectCountUpdate` | src/components/QuizGenerator.tsx:215-241 | overwriting one slot changes the score only by that slot's verdict |
| `QuizSession.SelectCorrectRaisesScore` | src/components/QuizGenerator.tsx:215-241 | choosing the key on a question not yet right raises the score by exactly one |
| `QuizSession.NonCorrectPositions` | src/components/QuizGenerator.tsx:276-283 | exactly the wrong or unanswered positions, strictly increasing, total minus score of them |
| `QuizSession.ShareReview` | src/components/QuizGenerator.tsx:264-296 | nothing before a result exists; then the first min(3, n) non-correct questions in order, and the "N more" note iff some are listed and total minus score exceeds 3, with N = total − score − 3 |
| `QuizSession.ReviewOfFinished` | src/components/QuizGenerator.tsx:276-296 | for a finished quiz the list has min(3, total − score) entries and the note appears iff total − score > 3 |
| `QuizSession.FinishScreen` | src/components/QuizGenerator.tsx:233-234 | finishing without a loaded quiz does nothing; with one it records a result |
| `QuizSession.ResetQuiz` | src/components/QuizGenerator.tsx:255-262 | reset returns to the input screen, where finishing has no effect |
| `ShareCodec.Symbol` | src/components/QuizGenerator.tsx:352 | standard-alphabet symbols are never `=`, `-` or `_` |
| `ShareCodec.SymbolValue` | src/components/QuizGenerator.tsx:134 | a character that decodes is the symbol of its value |
| `ShareCodec.SymbolValueOfSymbol` | src/components/QuizGenerator.tsx:134 | each symbol decodes to the value it encodes |
| `ShareCodec.Symbols` | src/components/QuizGenerator.tsx:352 | one symbol per sextet, position by position |
| `ShareCodec.EncodeSextets` | src/components/QuizGenerator.tsx:352 | the sextet count is never 1 mod 4 and is at least 2 for non-empty input |
| `ShareCodec.GroupRoundTrip` | src/components/QuizGenerator.tsx:134 | the three bytes of a group are recovered from its four sextets |
| `ShareCodec.DecodeEncodeSextets` | src/components/QuizGenerator.tsx:134 | joining the sextets of any byte sequence gives the bytes back |
| `ShareCodec.DecodeSextets` | src/components/QuizGenerator.tsx:134 | four sextets give three bytes and a tail of two or three gives one or two: 4·bytes ≤ 3·sextets < 4·bytes + 4 |
| `ShareCodec.Padding` | src/components/QuizGenerator.tsx:133 | k copies of `=` |
| `ShareCodec.Btoa` | src/components/QuizGenerator.tsx:352 | the padded text has a length that is a multiple of four |
| `ShareCodec.StripPadding` | src/components/QuizGenerator.tsx:134 | stripping never lengthens the text |
| `ShareCodec.Values` | src/components/QuizGenerator.tsx:134 | each value is the one its symbol carries |
| `ShareCodec.Atob` | src/components/QuizGenerator.tsx:134 | decoding succeeds only for unpadded lengths not 1 mod 4 made entirely of alphabet symbols |
| `ShareCodec.ValuesOfSymbols` | src/components/QuizGenerator.tsx:134 | reading symbols back gives the values they were written from |
| `ShareCodec.AtobBtoa` | src/components/QuizGenerator.tsx:134 | decoding undoes encoding for every byte sequence |
| `ShareCodec.BtoaUnpadded` | src/components/QuizGenerator.tsx:134 | stripping the padding of encoded text leaves exactly its symbols |
| `ShareCodec.StripsExactly` | src/components/QuizGenerator.tsx:134 | stripping removes exactly the one or two `=` that encoding appended |
| `ShareCodec.ToUrlSafe` | src/components/QuizGenerator.tsx:352-355 | the output contains no `+`, `/` or `=` and is never longer |
| `ShareCodec.PadCount` | src/components/QuizGenerator.tsx:133 | fewer than four `=` are added and they complete a multiple of four |
| `ShareCodec.FromUrlSafe` | src/components/QuizGenerator.tsx:132-133 | the restored text has a length that is a multiple of four: the payload plus the pad count |
| `ShareCodec.ShareEncode` | src/components/QuizGenerator.tsx:352-355 | one character per sextet of the bytes, no `+`, `/` or `=`, each mapping back to the standard symbol of its sextet |
| `ShareCodec.ShareDecode` | src/components/QuizGenerator.tsx:132-134 | a payload one past a multiple of four never decodes; a decoded payload gives three bytes per four symbols left after stripping the padding |
| `ShareCodec.UrlSafeOfSymbols` | src/components/QuizGenerator.tsx:132-134 | on unpadded symbols the rewrite keeps the length and mapping back restores each symbol |
| `ShareCodec.UrlSafeDropsPadding` | src/components/QuizGenerator.tsx:355 | dropping `=` removes exactly the padding |
| `ShareCodec.RestoredPaddingMatches` | src/components/QuizGenerator.tsx:133-134 | the padding restored when opening equals the padding dropped when sharing |
| `ShareCodec.ShareRoundTrip` | src/components/QuizGenerator.tsx:352-355 | decoding the link payload of any bytes gives those bytes |
| `ShareCodec.LinkPayload` | src/components/QuizGenerator.tsx:123-129 | a captured payload is non-empty |
| `ShareCodec.LinkPayloadOfLink` | src/components/QuizGenerator.tsx:123-129 | a fragment made of the marker and a payload captures that payload |
| `ShareCodec.OpenLink` | src/components/QuizGenerator.tsx:120-144 | no marker is a format error; success implies the payload decoded, parsed to a non-empty array, and the session is valid over a permutation of it |
| `ShareCodec.OpenSharedLink` | src/components/QuizGenerator.tsx:120-144 | a link made from a valid bank's serialization opens to a session over exactly that bank |
| `QuizStorage.Contents` | src/utils/quizStorage.ts:56-64 | a missing or unparseable namespace reads as the empty list |
| `QuizStorage.GetSavedQuizzes` | src/utils/quizStorage.ts:56-64 | the stored list, or the empty list when the namespace is missing or unreadable |
| `QuizStorage.CappedPrepend` | src/utils/quizStorage.ts:49 | the new item first, then the old list in order, cut to the cap |
| `QuizStorage.Filter` | src/utils/quizStorage.ts:135 | exactly the kept elements survive; keeping everything returns the list unchanged |
| `QuizStorage.FilterConcat` | src/utils/quizStorage.ts:135 | filtering preserves relative order: it distributes over concatenation |
| `QuizStorage.FilterImplied` | src/utils/quizStorage.ts:73 | filtering by a weaker condition first does not change a stronger filter |
| `QuizStorage.FilterDisjoint` | src/utils/quizStorage.ts:73 | filtering by two exclusive conditions in turn leaves nothing |
| `QuizStorage.QuizName` | src/utils/quizStorage.ts:41 | a non-empty name is kept; an empty one becomes the dated default |
| `QuizStorage.SaveQuiz` | src/utils/quizStorage.ts:36-54 | the new never-played record goes first, the old list follows in order, cut to 20; no other namespace changes |
| `QuizStorage.FindQuiz` | src/utils/quizStorage.ts:96-99 | nothing is found iff no record has the id; otherwise the found record has the id and no earlier record does |
| `QuizStorage.LoadQuizById` | src/utils/quizStorage.ts:96-99 | nothing is loaded iff no saved record has the id; otherwise the loaded record is the first saved record with the id |
| `QuizStorage.LoadAfterSave` | src/utils/quizStorage.ts:36-54 | a just-saved quiz is loaded by its id |
| `QuizStorage.DeleteSavedQuiz` | src/utils/quizStorage.ts:66-75 | exactly the quizzes and attempts with the id are removed; draft and settings are kept |
| `QuizStorage.DeleteAbsent` | src/utils/quizStorage.ts:66-75 | deleting an unused id leaves both lists unchanged |
| `QuizStorage.DeleteRemovesAttempts` | src/utils/quizStorage.ts:66-75 | after deletion the quiz has no attempts and cannot be loaded |
| `QuizStorage.DeleteKeepsOthers` | src/utils/quizStorage.ts:66-75 | every other quiz loads and reads its attempts as before |
| `QuizStorage.FindAfterFilter` | src/utils/quizStorage.ts:66-68 | removing one id does not change which record another id finds |
| `QuizStorage.BestAfter` | src/utils/quizStorage.ts:85-87 | no score keeps the best; a score gives the maximum of old best and score |
| `QuizStorage.Played` | src/utils/quizStorage.ts:82-88 | a played record keeps id, name, data and creation time, counts one more play, takes the new time and the updated best |
| `QuizStorage.UpdateQuizUsage` | src/utils/quizStorage.ts:77-94 | matching records keep id, name, data and creation time and get one more play, the new time and the updated best; all others and the order are unchanged |
| `QuizStorage.LoadAfterUsage` | src/utils/quizStorage.ts:77-99 | loading after a play gives the earlier record played once more |
| `QuizStorage.FindMapped` | src/utils/quizStorage.ts:77-99 | looking up in the updated list finds the updated version of the earlier match |
| `QuizStorage.SaveAttempt` | src/utils/quizStorage.ts:103-127 | the new attempt goes first, the old history follows in order, cut to 100; nothing else changes |
| `QuizStorage.GetQuizAttempts` | src/utils/quizStorage.ts:129-143 | with no id or an empty id the whole history; otherwise exactly that quiz's attempts |
| `QuizStorage.AttemptsAfterSave` | src/utils/quizStorage.ts:103-143 | below the cap, a quiz's history after recording an attempt is that attempt followed by the earlier ones in order |
| `QuizStorage.ClearAllAttempts` | src/utils/quizStorage.ts:145-147 | the history reads empty, every other namespace is unchanged |
| `QuizStorage.SaveCurrentQuiz` | src/utils/quizStorage.ts:151-157 | the draft reads back as the saved text; nothing else changes |
| `QuizStorage.GetCurrentQuiz` | src/utils/quizStorage.ts:159-166 | the draft is present iff one is stored, and is the stored text |
| `QuizStorage.ClearCurrentQuiz` | src/utils/quizStorage.ts:168-170 | no draft remains; nothing else changes |
| `QuizStorage.Apply` | src/utils/quizStorage.ts:203 | each field comes from the patch when present, otherwise from the base |
| `QuizStorage.GetSettings` | src/utils/quizStorage.ts:190-198 | missing or unreadable settings read as the defaults; stored settings override the defaults field by field |
| `QuizStorage.SaveSettings` | src/utils/quizStorage.ts:200-208 | only the settings namespace changes |
| `QuizStorage.SettingsRoundTrip` | src/utils/quizStorage.ts:190-208 | reading after saving a patch gives the previous settings with exactly the patched fields replaced; an empty patch changes nothing |
| `QuizStorage.ClearAllData` | src/utils/quizStorage.ts:302-306 | every namespace reads as empty or default afterwards |
| `QuizStorage.PushAllKeepsNewest` | src/utils/quizStorage.ts:48-51 | repeated capped saves keep the newest items first, at most the cap of them |
| `QuizStorage.TwentyFiveSaves` | src/utils/quizStorage.ts:31-54 | after 25 saves the 20 newest remain, newest first, and the fifth is gone unless it recurs |
| `QuizStatistics.MaxOf` | src/utils/quizStorage.ts:225 | the best score is attained and bounds every score |
| `QuizStatistics.MinOf` | src/utils/quizStorage.ts:226 | the worst score is attained and is below every score |
| `QuizStatistics.SumBetween` | src/utils/quizStorage.ts:224-227 | a sum lies between count·least and count·largest |
| `QuizStatistics.MeanBetween` | src/utils/quizStorage.ts:224-227 | the rounded mean lies between the worst and the best value |
| `QuizStatistics.RoundedMean` | src/utils/quizStorage.ts:224 | the integer within half a unit of the exact mean, between the least and the largest entry |
| `QuizStatistics.CalculateTrend` | src/utils/quizStorage.ts:233-239 | fewer than four scores are stable |
| `QuizStatistics.TrendMatchesMeans` | src/utils/quizStorage.ts:233-249 | the cross-multiplied comparison classifies exactly as the mean difference against ±5 |
| `QuizStatistics.ScaledDifference` | src/utils/quizStorage.ts:241-244 | scaling the mean difference by both window sizes gives the cross-multiplied gap |
| `QuizStatistics.TrendIgnoresOldScores` | src/utils/quizStorage.ts:236-237 | scores after the sixth do not affect the trend |
| `QuizStatistics.TrendExample` | src/utils/quizStorage.ts:233-249 | concrete histories classify as improving, declining and stable |
| `QuizStatistics.SumOfThree` | src/utils/quizStorage.ts:241 | the sum of a three-score window |
| `QuizStatistics.Percentages` | src/utils/quizStorage.ts:219 | the score list runs parallel to the attempts |
| `QuizStatistics.TimesSpent` | src/utils/quizStorage.ts:220 | the time list runs parallel to the attempts |
| `QuizStatistics.GetQuizStatistics` | src/utils/quizStorage.ts:212-231 | nothing iff no attempts; otherwise the count, the mean score and mean time each the integer within half a unit of the exact mean, worst ≤ mean ≤ best with both attained, the newest timestamp and the mean-based trend |
| `TimeFormat.Digit` | src/utils/quizStorage.ts:260 | a digit value is written as a decimal digit |
| `TimeFormat.Decimal` | src/utils/quizStorage.ts:260 | a non-empty digit string, one digit exactly for values below ten, starting with 0 only for zero |
| `TimeFormat.Pad2` | src/utils/quizStorage.ts:260 | two digits |
| `TimeFormat.FormatTime` | src/utils/quizStorage.ts:257-261 | digits, a colon and two digits; the part before the colon reads as seconds div 60 without a leading zero, the two digits as seconds mod 60 |
| `TimeFormat.DecimalValue` | src/utils/quizStorage.ts:260 | the decimal text reads back as the number |
| `TimeFormat.Pad2Value` | src/utils/quizStorage.ts:260 | the padded text reads back as the number |
| `TimeFormat.FormatTimeRoundTrip` | src/utils/quizStorage.ts:257-261 | the displayed text reads back, under the strict reading of minutes and seconds below sixty, as the input |
| `TimeFormat.FormatTimeInjective` | src/utils/quizStorage.ts:257-261 | different durations are displayed differently |
| `TimeFormat.ParseTime` | src/utils/quizStorage.ts:257-261 | a text reads as a time iff it has digits without a leading zero, a colon, and two digits below sixty |
| `TimeFormat.LeadingDigitPositive` | src/utils/quizStorage.ts:260 | digits starting with a non-zero digit have a non-zero value |
| `TimeFormat.DecimalOfValue` | src/utils/quizStorage.ts:260 | digits without a leading zero are the decimal text of their value |
| `TimeFormat.PadOfValue` | src/utils/quizStorage.ts:260 | two digits below sixty are the padded text of their value |
| `TimeFormat.ParseTimeFormats` | src/utils/quizStorage.ts:257-261 | every text that reads as a time is exactly how that time is displayed |
| `TimeFormat.ParseTimeExample` | src/utils/quizStorage.ts:257-261 | 75 seconds display as `1:15`; `0:75` and `01:15` are not displays |
| `AdvancedStats.BucketOf` | src/components/AdvancedStats.tsx:27-35 | unanswered iff null, correct iff equal to the key, incorrect otherwise: exactly one bucket |
| `AdvancedStats.CountBucket` | src/components/AdvancedStats.tsx:27-35 | no bucket holds more than the sheet |
| `AdvancedStats.BucketsPartition` | src/components/AdvancedStats.tsx:27-35 | correct + incorrect + unanswered = number of answers |
| `AdvancedStats.CorrectMatchesScore` | src/components/AdvancedStats.tsx:27-29 | the panel's correct count equals the score of the finished quiz |
| `AdvancedStats.BlankSheetUnanswered` | src/components/AdvancedStats.tsx:27-35 | an untouched sheet is all unanswered and has no correct answer |
| `AdvancedStats.CountOfKind` | src/components/AdvancedStats.tsx:41-42 | a per-type count never exceeds the bank |
| `AdvancedStats.CorrectOfKind` | src/components/AdvancedStats.tsx:44-52 | a type's correct count never exceeds that type's question count |
| `AdvancedStats.KindsCoverBank` | src/components/AdvancedStats.tsx:41-42 | true/false plus multiple choice is at most the bank, and equals it iff every question has 2 or 4 choices |
| `AdvancedStats.KindsSplitScore` | src/components/AdvancedStats.tsx:44-52 | for a validated bank the two per-type correct counts add up to the score |
| `AdvancedStats.TypeSection` | src/components/AdvancedStats.tsx:148-178 | shown iff both types occur; each accuracy is the integer within half a unit of 100·correct/count of that type, in [0, 100] |
| `AdvancedStats.AvgTimePerQuestion` | src/components/AdvancedStats.tsx:23-24 | defined iff there are questions; then the integer nearest to time / questions |
| `AdvancedStats.SteadyPace` | src/components/AdvancedStats.tsx:24 | a uniform pace of p seconds per question is reported as p |
| `AdvancedStats.CompareWithAverage` | src/components/AdvancedStats.tsx:184-219 | shown iff an average exists; exactly one of better, worse or same by the sign of the difference, with the absolute gap |
| `AdvancedStats.CompareAntisymmetric` | src/components/AdvancedStats.tsx:213-219 | swapping the two percentages swaps better and worse and keeps same |
| `AdvancedStats.TrendLabel` | src/components/AdvancedStats.tsx:54-70 | no trend gives an empty icon and text |
| `AdvancedStats.TrendLabelInjective` | src/components/AdvancedStats.tsx:54-70 | different trends get different icons and different words |
| `ExamModeConfig.SuggestedTime` | src/components/ExamModeConfig.tsx:13 | at least 15, at least 1.5 minutes per question, and the least such integer above 15 |
| `ExamModeConfig.SuggestedTimeMonotone` | src/components/ExamModeConfig.tsx:13 | more questions never shorten the suggestion |
| `ExamModeConfig.HandleStart` | src/components/ExamModeConfig.tsx:15-21 | starts, with the minutes unchanged, iff 1 ≤ minutes ≤ 180 |
| `ExamModeConfig.TimerInput` | src/components/ExamModeConfig.tsx:70 | never zero; NaN and 0 give 30; any other number is kept |
| `ExamModeConfig.PresetsStart` | src/components/ExamModeConfig.tsx:10-16 | every preset and the initial 30 pass the start check |
| `ExamModeConfig.SuggestedTimeRefusedAsWritten` | src/components/ExamModeConfig.tsx:13-21 | from 121 questions on, the suggestion exceeds 180 and starting with it is refused |
| `ExamModeConfig.SuggestedTimeBoundary` | src/components/ExamModeConfig.tsx:13-21 | 120 questions suggest 180 and start; 121 suggest 182 and do not |
| `ExamModeConfig.SuggestedTimeCapped` | src/components/ExamModeConfig.tsx:13-21 | the capped suggestion lies in [15, 180] and always starts |
| `ExamModeConfig.CappedAgreesBelowBound` | src/components/ExamModeConfig.tsx:13 | up to 120 questions the cap changes nothing |
| `ExamModeConfig.Act` | src/components/ExamModeConfig.tsx:51-84 | a preset button selects its minutes, typing goes through the input fallback, the suggestion button selects the uncapped suggestion as written (the clamped one in the corrected dialog), and only in the corrected dialog does every button keep a startable value startable |
| `ExamModeConfig.ActAll` | src/components/ExamModeConfig.tsx:51-84 | the last action that changes the selection decides it; actions that change nothing keep the starting value |
| `ExamModeConfig.ButtonsAlwaysStart` | src/components/ExamModeConfig.tsx:15-84 | from a startable value, button presses leave a startable value: as written for banks of at most 120 questions, and for any bank once the suggestion is clamped |
| `ExamModeConfig.DialogButtonsStart` | src/components/ExamModeConfig.tsx:10-84 | a dialog used only through its buttons can start: as written up to 120 questions, corrected for any bank |
| `ExamModeConfig.DialogRefusesSuggestionAsWritten` | src/components/ExamModeConfig.tsx:13-84 | from 121 questions, opening the dialog and pressing "use suggested" selects a value the start check refuses; the clamped button selects 180, which starts |
| `ExamModeConfig.VariantsAgreeBelowBound` | src/components/ExamModeConfig.tsx:13-84 | up to 120 questions the dialog as written and the corrected one select the same minutes for every sequence of actions |
| `ExamTimer.WarnCheck` | src/components/ExamTimer.tsx:46-54 | the warning fires iff 300 seconds are left and it has not fired; only the warned flag can change |
| `ExamTimer.Start` | src/components/ExamTimer.tsx:11-54 | a mounted timer holds the full time, has not called time-up, and warns at once iff it starts at 300 |
| `ExamTimer.Tick` | src/components/ExamTimer.tsx:25-54 | at one second or less the count becomes 0 and time-up fires iff not yet called; otherwise one second is taken off; the warning fires iff the tick leaves 300 seconds and it has not fired before |
| `ExamTimer.TickCountsDown` | src/components/ExamTimer.tsx:26-35 | the count never goes negative and never increases |
| `ExamTimer.Elapse` | src/components/ExamTimer.tsx:16-23 | a paused second changes nothing; an unpaused one is a tick |
| `ExamTimer.FireOnce` | src/components/ExamTimer.tsx:14-48 | over any run time-up fires at most once, and never after it was called; the warning likewise |
| `ExamTimer.MountedFiresOnce` | src/components/ExamTimer.tsx:11-54 | from mounting on, time-up and the warning each happen at most once |
| `ExamTimer.PausedRunFreezes` | src/components/ExamTimer.tsx:17-23 | a run that stays paused changes nothing and fires nothing |
| `ExamTimer.TicksBeforeZero` | src/components/ExamTimer.tsx:26-35 | before reaching zero each tick takes exactly one second and time-up is not called |
| `ExamTimer.GuardStaysSet` | src/components/ExamTimer.tsx:28-29 | once time-up was called the guard stays set |
| `ExamTimer.TimeUpOnLastTick` | src/components/ExamTimer.tsx:11-34 | from T ≥ 1 seconds, time-up fires on the T-th tick and no other |
| `ExamTimer.TicksSplit` | src/components/ExamTimer.tsx:25-36 | a + b ticks are a ticks followed by b ticks |
| `ExamTimer.ClassOf` | src/components/ExamTimer.tsx:58-65 | critical iff at most 60 seconds, warning iff 61 to 300, normal above 300 |
| `ExamTimer.SeverityNeverDrops` | src/components/ExamTimer.tsx:58-65 | the display never becomes less urgent as the clock runs |

## Left out

- Network loaders for gists and paste bins, `fetch`, the clipboard, `alert`/`prompt`, `window.history`, DOM button mutation and all rendering: I/O and UI.
- `JSON.stringify`/`JSON.parse`: the bank is opaque bytes in the codec, and parsing a link payload is a function parameter. Stored JSON that parses to values of the wrong shape is not modelled.
- `importAllData` and `exportAllData`: untyped input and whole-store serialization.
- `generateId`, `Date.now` and `formatDate`: ids, timestamps and the date label are parameters.
- `Math.random`: the shuffle is driven by an arbitrary choice stream, so only the permutation property is stated, not uniformity.
- Floating point: every quotient is exact, so rounding at values that binary floating point cannot represent exactly is not modelled.
- `btoa`'s refusal of characters above U+00FF: the codec works on bytes, so text encoding is not modelled.
- `atob`'s skipping of ASCII whitespace: a payload containing whitespace is refused here.
- The `#quiz=(.+)` pattern stops at line terminators; fragments containing them are not modelled.
- `formatTime` of negative or fractional seconds: the model takes a natural number.
- Storage quota exceptions on `setItem`: writes always succeed here.
- `setInterval`/`useEffect` scheduling and `navigator.vibrate`: the timer is a reducer over seconds, and a paused second is one in which the interval is cleared.
- The progress bars, the pass/fail label of shared results, the timer icons and the minutes-left text: presentational.
- Document extraction (`FileUploader.tsx`, `PdfToWordConverter.tsx`), `TextExtractor.tsx`, `ThemeSelector.tsx` and `QuizHistory.tsx`: library wrappers and presentational components.
- Exam, study and retry modes of the quiz screen: the generator screen does not implement them.
- AdvancedStats.CorrectOfKind: `indexOf` compares question objects by identity. Each question of a parsed bank is a distinct object, so the lookup is modelled as the question's own position.
- AdvancedStats.CountBucket: the counts assume the sheet is aligned with the bank, as every result of finishing a quiz is.
- QuizStatistics.CalculateTrend: the contract states only the short-history case. The full classification is stated by `QuizStatistics.TrendMatchesMeans` against the mean-based definition.
- QuizTypes.CorrectCount: the contract states only the bound. What is counted is stated by `QuizSession.ComputeScore`, `AdvancedStats.CorrectMatchesScore` and `QuizSession.NonCorrectPositions`.
- AdvancedStats.CountOfKind: the contract states only the bound. The relation to the bank is stated by `AdvancedStats.KindsCoverBank`.
- ShareCodec.LinkPayload: the contract states only that a payload is non-empty. Extraction from a well-formed link is stated by `ShareCodec.LinkPayloadOfLink`.
- QuizStorage.GetQuizAttempts: the contract states which attempts are returned. Their order is stated separately by `QuizStorage.FilterConcat` and `QuizStorage.AttemptsAfterSave`.
- ShareCodec.ShareDecode: the contract states when a payload is refused and how many bytes a decoded one gives. That decoding inverts encoding is stated by `ShareCodec.ShareRoundTrip`.
- A question's `answer` is an integer here. The validation only checks that the key is a number within the choice range, so a fractional key such as `0.5` passes it, and that question can never be answered correctly; such keys are not modelled.
- QuizStorage.DeleteSavedQuiz: the contract states membership, and `QuizStorage.DeleteAbsent` covers the no-op case. Preservation of order follows from `QuizStorage.FilterConcat` and is not restated.

## Findings

| source | as written | input that shows it | evidently intended | confidence | as-written member | corrected member |
|---|---|---|---|---|---|---|
| src/components/QuizGenerator.tsx:176-204 | validation checks each question and accepts an empty array, and a session with no questions is then started; the quiz screen reads the current question's prompt (line 446) | the bank `[]` typed into the JSON field | refuse an empty bank, as the link loader already does (lines 138-140) | not executed; medium | `QuizSession.EmptyBankAcceptedAsWritten` | `QuizSession.Generate` |
| src/components/ExamModeConfig.tsx:13-84 | the suggested time is max(15, ⌈1.5·n⌉) with no upper limit, the "use suggested" button selects it unchanged, and the start check refuses anything above 180 | a bank of 121 questions: suggestion 182, and "use suggested" then start is refused | clamp the suggestion to the 180-minute bound, so that the dialog's buttons always lead to a duration that starts | not executed; medium | `ExamModeConfig.DialogRefusesSuggestionAsWritten` | `ExamModeConfig.DialogButtonsStart` |

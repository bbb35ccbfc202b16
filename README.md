# med-examhub quiz core in Dafny

This project models the quiz and progress core of a browser app that helps students prepare for medical exams. It proves properties of that model in Dafny. There are four parts:

- **Quiz session** (`QuizEngine`, `quiz_engine.dfy`). The `QuizSession` class:
  - draws its questions (shuffled, cut to the requested count);
  - keeps one answer slot per question and a per-topic `correct/incorrect/total` tally;
  - moves a cursor;
  - reports progress, score, completeness, the unanswered questions and the result snapshot for the store.
- **Progress store** (`Progress`, `Ranking`, `Storage`, `StorageFacts`). The cumulative user record and `updateProgress`, which folds one quiz result into it:
  - subject tallies through the substring classifier;
  - topic tallies, pairing each question with its answer slot;
  - the weak-area ranking: at least 5 attempts and accuracy under 70, high priority under 50, sorted, at most 10;
  - the counters, the overall accuracy, and the quiz history capped at 50.
- **Analytics** (`Analytics`, `analytics.dfy`):
  - per-question counters and the weak-area recomputation that records `lastPracticed`;
  - the catalog topic list and the topics due for review;
  - the three study recommendations, the score trend and the study goals.
- **Catalog helpers** (`App`, `Text`, `Common`):
  - the subject/topic catalog and the list-based topic classifier;
  - the per-subject file lists;
  - Fisher–Yates `shuffleArray`, working in place on an array;
  - the synthetic-question generator;
  - topic display names;
  - percent rounding.

**Inputs.** Randomness, the clock and storage become parameters:
- the shuffle's random indices are a `picks` sequence;
- the sample-question difficulties are a sequence;
- `now` is integer milliseconds;
- the stored record is an `Option<UserProgress>` that the caller supplies.

**Percentages.** `Math.round(100 * c / a)` is computed exactly as `(200c + a) / (2a)`. It is 0 when `a` is 0, where the source yields NaN (`Common.RoundPercent`).

**Key order.** JavaScript objects keep their keys in insertion order. That order decides weak-area ties and which five topics are offered for review. So each keyed table of the record is a `map` together with the `seq` of its keys. Topic and subject ids are taken to be non-numeric names: `Object.entries` would list integer-like keys first, in ascending order. They are also taken not to be names inherited from `Object.prototype` such as `constructor`, for which `fileMap[subject] || []` (`assets/scripts/app.js:173`) would return that inherited member.

The stored record is a value. `Storage.UpdateProgress` and the other folding methods loop over the quiz result and return the new record. Each is proved equal to a specification function, and the lemmas in `StorageFacts` state what that function guarantees.

**Three behaviours of the code are stated as they are, not corrected:**
- The two topic classifiers disagree. The substring classifier sends `thorax` and `renal` to biochemistry (`Storage.ClassifiersDisagree`).
- A subject's `attempted` grows by the quiz's question count once per topic of that subject (`Storage.SubjectCountedPerTopic`).
- `updateProgress` never stamps a topic's `lastActive`, so every practised topic stays due for review (`StorageFacts.TopicsNeverStamped`, `Analytics.ReviewAfterUpdate`).

**Where the model departs from the code.** Times such as `lastActive` and history timestamps are integer milliseconds. The source stores ISO date strings and parses them with `new Date` (`assets/scripts/analytics.js:132`). An unparseable string there gives an Invalid Date, and such a topic is never due; the model has no such value. A `lastActive` of 0 counts as missing, which is exactly what `!stats.lastActive` does (`Analytics.Due`).

## Model

| member | source | states |
|---|---|---|
| Common.RoundPercent | assets/scripts/quiz-engine.js:103 | the rounded percentage is 0 for no answers or an empty denominator, at most 100 when the count is within the total, and exactly 100 when they are equal |
| Common.RoundPercentNearest | assets/scripts/quiz-engine.js:103 | the result is `Math.round` of `100c/a`: `r - 1/2 <= 100c/a < r + 1/2` |
| Common.RoundPercentScale | assets/scripts/storage.js:50-52 | scaling both counts by the same factor leaves the rounded accuracy unchanged |
| Common.Take | assets/scripts/quiz-engine.js:18 | `slice(0, n)`: the first `min(n, len)` elements |
| Common.TakeSubMultiset | assets/scripts/quiz-engine.js:18 | a prefix holds no element the whole does not, and a prefix at least as long as the sequence is the sequence |
| Common.TakeLast | assets/scripts/storage.js:104-106 | `slice(-n)`: the last `min(n, len)` elements |
| Common.PushTakeLast | assets/scripts/storage.js:94-106 | after a push and a cut to `n`, the result is non-empty, ends with the pushed entry and before it holds the old suffix in order |
| Common.TakeLastPush | assets/scripts/storage.js:94-106 | cutting before the next push does not change the outcome: `TakeLast(TakeLast(s, n) + [e], n) == TakeLast(s + [e], n)` |
| Text.Upper | assets/scripts/analytics.js:141 | `toUpperCase` on one character: lower-case ASCII letters shift by 32 to upper case, every other character is unchanged |
| Text.Split | assets/scripts/analytics.js:140 | `split('-')` gives at least one part and no part holds the separator |
| Text.JoinSplit | assets/scripts/analytics.js:140-142 | joining the parts of a split with the same separator gives back the input |
| Text.MapCapitalize | assets/scripts/analytics.js:141 | each word is capitalised in place, same count and order |
| Text.FormatTopicName | assets/scripts/analytics.js:139-143 | `formatTopicName`: split on `-`, capitalise each word, join with spaces; `Text.FormatIsDisplayed` and `Text.FormatTopicNameChars` state what the result is |
| Text.FormatIsDisplayed | assets/scripts/analytics.js:139-143 | `formatTopicName` equals a character-by-character reference definition: hyphen to space, upper-case after a hyphen or at the start |
| Text.FormatTopicNameChars | assets/scripts/analytics.js:139-143 | the display name has the input's length and no hyphen; each position is a space, the upper-cased letter at a word start, or the input character |
| Text.DisplayedChars | assets/scripts/analytics.js:139-143 | the reference definition has the input's length; each character is a space for a hyphen, upper-cased at the start or after a hyphen, and otherwise the input character |
| Text.ContainsMatches | assets/scripts/storage.js:144-146 | `includes` holds iff the substring occurs at some position |
| Text.NatToString | assets/scripts/app.js:272 | the decimal rendering of `i` is non-empty digits, ends with the last digit, and is one character exactly for `i < 10` |
| Text.NatToStringInjective | assets/scripts/app.js:272 | different numbers render differently, so the sample ids differ |
| App.TopicListsDisjoint | assets/scripts/app.js:208-235 | the anatomy, physiology and biochemistry lists are pairwise disjoint |
| App.AnatomyNotPhysiology | assets/scripts/app.js:208-224 | no anatomy topic is a physiology topic |
| App.AnatomyNotBiochemistry | assets/scripts/app.js:208-235 | no anatomy topic is a biochemistry topic |
| App.PhysiologyNotBiochemistry | assets/scripts/app.js:216-235 | no physiology topic is a biochemistry topic |
| App.SubjectFromTopic | assets/scripts/app.js:206-247 | the list classifier returns a subject exactly when the id is in that subject's list, and null exactly when it is in none |
| App.CatalogNames | assets/scripts/app.js:18-140 | each catalog entry's display name is its subject key capitalised |
| App.CatalogClassifiesAsItsSubject | assets/scripts/app.js:206-243 | every topic listed under a catalog subject classifies to that subject |
| App.AnatomyCatalogListed | assets/scripts/app.js:20-59 | every topic of the Anatomy catalog entry is in the anatomy list |
| App.PhysiologyCatalogListed | assets/scripts/app.js:60-101 | every topic of the Physiology catalog entry is in the physiology list |
| App.BiochemistryCatalogListed | assets/scripts/app.js:102-139 | every topic of the Biochemistry catalog entry is in the biochemistry list |
| App.SubjectFiles | assets/scripts/app.js:144-174 | an unknown subject gets no files; a known one gets as many files as its classifier list has topics |
| App.SwapPermutes | assets/scripts/app.js:293 | swapping two positions keeps the multiset |
| App.ShuffleDownPermutes | assets/scripts/app.js:291-294 | the descending swap loop with any in-range draws permutes the sequence |
| App.ShuffledPermutes | assets/scripts/app.js:290-296 | the shuffled sequence has the input's length and multiset |
| App.ShuffleArray | assets/scripts/app.js:290-296 | the in-place loop leaves the array equal to the shuffle function of its old contents, a permutation of them |
| App.SampleQuestionFields | assets/scripts/app.js:271-284 | sample question `i` has id `topic-i` and four options |
| App.SampleIdsDistinct | assets/scripts/app.js:272 | two sample questions with different numbers have different ids |
| App.GenerateSampleQuestions | assets/scripts/app.js:264-287 | the counting loop returns exactly `count` questions, question `k` being sample `k + 1` with the `k`-th difficulty |
| App.SampleQuestionsWellFormed | assets/scripts/app.js:264-287 | the generated questions have ids `topic-1 ... topic-n`, all distinct, four options, answer key 0, the given topic and difficulty |
| Progress.DefaultProgress | assets/scripts/storage.js:4-17 | the default record has the three subjects at zero, no topics, weak areas or history, and zero counters |
| Ranking.PriorityOf | assets/scripts/storage.js:118-120 | high iff accuracy < 50, medium iff 50 <= accuracy < 70, low iff accuracy >= 70 |
| Ranking.Candidates | assets/scripts/storage.js:116-130 | the candidates are exactly the topics with at least 5 attempts and a non-low priority, each with its accuracy and priority |
| Ranking.IndexedBySnoc | assets/scripts/storage.js:116-130 | scanning one more topic keeps the candidates tied to strictly increasing key positions, adding the new topic's position exactly when it qualifies |
| Ranking.CandidatePositions | assets/scripts/storage.js:116-130 | the candidates keep the key order: they sit at strictly increasing key positions, each is the weak area of the topic there, and every qualifying position is listed |
| Ranking.CollectWeakAreas | assets/scripts/storage.js:114-130 | the collecting loop returns exactly the candidates |
| Ranking.InsertArea | assets/scripts/storage.js:133-138 | inserting adds the element to the multiset |
| Ranking.InsertAreaSorted | assets/scripts/storage.js:133-138 | inserting into a sorted list keeps it sorted |
| Ranking.SortAreas | assets/scripts/storage.js:133-138 | sorting keeps the multiset and the length |
| Ranking.SortAreasSorted | assets/scripts/storage.js:133-138 | the sorted list follows the comparator: higher priority first, then lower accuracy |
| Ranking.RankWeakAreas | assets/scripts/storage.js:132-139 | the sort by priority then accuracy, cut to ten; `Ranking.RankedAreas` and `Ranking.HighBeforeMedium` state what is kept and in which order |
| Ranking.RankedAreas | assets/scripts/storage.js:133-139 | at most 10 areas are kept, sorted, all drawn from the candidates; with 10 or fewer candidates none is lost; every kept area sorts no later than any dropped one |
| Ranking.HighBeforeMedium | assets/scripts/storage.js:133-138 | in a sorted list every high-priority area precedes every other area |
| QuizEngine.CountTopic | assets/scripts/quiz-engine.js:30-39 | the questions on a topic are at most all of them, and none iff no question has the topic |
| QuizEngine.AddTotalsCounts | assets/scripts/quiz-engine.js:29-40 | the loop raises each topic's `total` by its question count and changes nothing else |
| QuizEngine.AddTotalsKeys | assets/scripts/quiz-engine.js:29-40 | the tallies gain exactly the topics of the questions |
| QuizEngine.TalliesFromEmpty | assets/scripts/quiz-engine.js:29-40 | from no tallies, each topic gets `correct = incorrect = 0` and `total` = its question count |
| QuizEngine.DistinctTopics | assets/scripts/quiz-engine.js:120 | the topic list has no duplicates and holds exactly the questions' topics |
| QuizEngine.FirstOn | assets/scripts/quiz-engine.js:120 | the index of the first question on a topic: that question has the topic and no earlier one does; `|qs|` when there is none |
| QuizEngine.FirstOnSnoc | assets/scripts/quiz-engine.js:120 | appending a question leaves every existing first index in place and gives a new topic the appended position |
| QuizEngine.FirstSeenKeep | assets/scripts/quiz-engine.js:120 | appending a question keeps the first-appearance order of the topics already listed |
| QuizEngine.FirstSeenAppend | assets/scripts/quiz-engine.js:120 | a topic seen for the first time, listed last, keeps the list in first-appearance order |
| QuizEngine.DistinctTopicsFirstSeen | assets/scripts/quiz-engine.js:120 | the distinct topics come in strictly increasing order of their first question |
| QuizEngine.TotalsSumToQuestionCount | assets/scripts/quiz-engine.js:29-40 | the fresh totals add up to the number of questions |
| QuizEngine.CountCorrect | assets/scripts/quiz-engine.js:108-110 | the correct count is at most the number of questions |
| QuizEngine.AllCorrect | assets/scripts/quiz-engine.js:108-110 | all questions are right iff every slot holds the correct answer |
| QuizEngine.ScoreAfterReAnswer | assets/scripts/quiz-engine.js:50-51 | overwriting a slot changes the correct count by what the old and new answers were worth |
| QuizEngine.CountAnswered | assets/scripts/quiz-engine.js:98 | the set slots are at most all slots; all iff none is unset, none iff all are unset |
| QuizEngine.CorrectAreAnswered | assets/scripts/quiz-engine.js:98-110 | a correct answer is a set slot, so correct <= answered |
| QuizEngine.Unanswered | assets/scripts/quiz-engine.js:168-172 | the result holds ascending 1-based positions of unset slots |
| QuizEngine.UnansweredComplete | assets/scripts/quiz-engine.js:168-172 | every unset slot is listed |
| QuizEngine.UnansweredCount | assets/scripts/quiz-engine.js:168-172 | unanswered plus answered equals the number of slots |
| QuizEngine.CompleteIffNoneUnanswered | assets/scripts/quiz-engine.js:163-172 | every slot is set iff the unanswered list is empty |
| QuizEngine.TalliedAddsOne | assets/scripts/quiz-engine.js:65-75 | recording adds exactly one to `correct` or to `incorrect` of the topic and changes no other tally |
| QuizEngine.ReAnswerOverCounts | assets/scripts/quiz-engine.js:50-75 | answering a one-question topic twice leaves `correct + incorrect = 2 > total = 1` |
| QuizEngine.OutcomesWithinTotal | assets/scripts/quiz-engine.js:29-75 | a topic's right plus wrong answers never exceed its question count |
| QuizEngine.RetalliedMatches | assets/scripts/quiz-engine.js:50-75 | withdrawing the previous answer before counting the new one keeps every tally equal to the answers in the slots |
| QuizEngine.MatchedTalliesWithinTotal | assets/scripts/quiz-engine.js:29-75 | tallies that match the slots satisfy `correct + incorrect <= total` |
| QuizEngine.FreshTalliesMatch | assets/scripts/quiz-engine.js:18-40 | fresh tallies match slots that are all unset |
| QuizEngine.ShuffledCopy | assets/scripts/quiz-engine.js:18 | shuffling a copy of the loaded questions gives the shuffle function's result |
| QuizEngine.QuizSession.constructor | assets/scripts/quiz-engine.js:2-9 | a new session has no questions or answers, cursor 0 and no tallies |
| QuizEngine.QuizSession.Initialize | assets/scripts/quiz-engine.js:11-27 | the questions are the first `questionCount` of the shuffle; there are at most that many, drawn from the loaded ones; every slot is unset; the tallies are counted |
| QuizEngine.QuizSession.InitializeTopicStats | assets/scripts/quiz-engine.js:29-40 | the loop adds each question's topic total to the tallies |
| QuizEngine.QuizSession.RecordAnswer | assets/scripts/quiz-engine.js:50-63 | slot `i` becomes the answer and no other slot changes; the result is whether it is correct; one is added to that topic's `correct` or `incorrect` |
| QuizEngine.QuizSession.RecordCorrectAnswer | assets/scripts/quiz-engine.js:65-69 | a known topic's `correct` rises by one; an unknown topic changes nothing |
| QuizEngine.QuizSession.RecordIncorrectAnswer | assets/scripts/quiz-engine.js:71-75 | a known topic's `incorrect` rises by one; an unknown topic changes nothing |
| QuizEngine.QuizSession.RecordAnswerRetallied | assets/scripts/quiz-engine.js:50-75 | like `recordAnswer`, but the tallies still match the slots afterwards |
| QuizEngine.QuizSession.NextQuestion | assets/scripts/quiz-engine.js:81-87 | the cursor advances iff it is before the last question; the result says whether it moved; the cursor stays in range |
| QuizEngine.QuizSession.PreviousQuestion | assets/scripts/quiz-engine.js:89-95 | the cursor steps back iff it is above 0; the result says whether it moved; the cursor stays in range |
| QuizEngine.QuizSession.GetQuestion | assets/scripts/quiz-engine.js:42-44 | a question comes back iff the index is in range, and it is the one at that index (`undefined` otherwise) |
| QuizEngine.QuizSession.GetCurrentQuestion | assets/scripts/quiz-engine.js:77-79 | the question under the cursor exists whenever the session has questions |
| QuizEngine.QuizSession.GetTotalQuestions | assets/scripts/quiz-engine.js:46-48 | the number of questions, which is also the number of slots |
| QuizEngine.QuizSession.GetTopicPerformance | assets/scripts/quiz-engine.js:123-125 | when the tallies match the answer slots, every topic's `correct + incorrect` is at most its `total` |
| QuizEngine.QuizSession.GetTimeElapsed | assets/scripts/quiz-engine.js:127-129 | the whole seconds since the start, rounded down |
| QuizEngine.QuizSession.GetProgress | assets/scripts/quiz-engine.js:97-105 | `current` is cursor + 1; `answered` counts the set slots and is at most the total; the percentage is their rounded ratio, 0 with nothing answered, 100 when all are |
| QuizEngine.QuizSession.GetScore | assets/scripts/quiz-engine.js:107-117 | `correct` counts slots holding the correct answer; it is at most the answered count; it equals the total iff every answer is right, and then the percentage is 100; the percentage is `Math.round(100 * correct / total)`, as `RoundPercent` |
| QuizEngine.QuizSession.GetTopics | assets/scripts/quiz-engine.js:119-121 | the distinct topics of the questions, each once, in order of their first question |
| QuizEngine.QuizSession.IsComplete | assets/scripts/quiz-engine.js:163-165 | complete iff no slot is unset iff the unanswered list is empty |
| QuizEngine.QuizSession.GetUnansweredQuestions | assets/scripts/quiz-engine.js:168-172 | exactly the 1-based positions of the unset slots, ascending, as many as the slots not answered |
| QuizEngine.QuizSession.CalculateResults | assets/scripts/quiz-engine.js:132-155 | the snapshot carries the rounded score of the correct answers, the counts, the distinct topics in order of their first question, the whole seconds elapsed, the slots, the questions and the tallies |
| QuizEngine.ThreeOfFiveSession | assets/scripts/quiz-engine.js:11-27 | three questions loaded for a five-question quiz give a three-question session with nothing answered |
| QuizEngine.AnswerAllCorrectly | assets/scripts/quiz-engine.js:50-117 | answering all three questions correctly scores 3 of 3 at 100 and completes the quiz |
| Storage.SubjectOfTopic | assets/scripts/storage.js:143-151 | `getSubjectFromTopic`, the substring classifier; `Storage.SubjectOfTopicCases` states its cases in terms of where the words occur |
| Storage.SubjectOfTopicCases | assets/scripts/storage.js:143-151 | the substring classifier is total: anatomy iff the id contains `anatomy`, `embryology` or `histology`; else physiology iff it contains `physiology`; else biochemistry |
| Storage.ClassifiersDisagree | assets/scripts/storage.js:143-151 | `thorax` and `renal` are anatomy and physiology to the list classifier but biochemistry to the substring one |
| Storage.SubjectKeysAt | assets/scripts/storage.js:43 | each quiz topic maps to its classified subject key |
| Storage.UpdateSubjects | assets/scripts/storage.js:42-53 | the per-topic loop yields the subject fold of the classified keys |
| Storage.SubjectsAfterCounts | assets/scripts/storage.js:42-53 | a subject's `attempted` and `correct` grow by the quiz totals times the number of quiz topics classified to it |
| Storage.AddToSubjectCounts | assets/scripts/storage.js:44-49 | one step adds the quiz totals to the one subject and to no other |
| Storage.SubjectsAfterShape | assets/scripts/storage.js:42-53 | the fold adds exactly the touched subjects, recomputes their accuracy as the rounded ratio, and leaves the other subjects and fields alone |
| Storage.AddToSubjectShape | assets/scripts/storage.js:44-52 | one step creates the subject if missing, sets its accuracy to the rounded ratio and touches no other subject |
| Storage.ExampleKeys | assets/scripts/storage.js:43 | `thorax` and `renal` both classify as biochemistry |
| Storage.SubjectCountedPerTopic | assets/scripts/storage.js:42-53 | two topics of one subject add the quiz totals to it twice |
| Storage.SubjectCountedFromDefault | assets/scripts/storage.js:42-53 | from the default record, a quiz on `thorax` and `renal` leaves biochemistry at twice the quiz totals |
| Storage.SumOfUpdate | assets/scripts/storage.js:88-89 | replacing one subject's tally changes the sum over subjects by the difference |
| Storage.SubjectsAfterSums | assets/scripts/storage.js:42-53 | over all subjects, `attempted` grows by topics × total questions and `correct` by topics × correct answers |
| Storage.PerfUpToMeaning | assets/scripts/storage.js:56-67 | the per-topic table lists each quiz topic once, in first-seen order, with its question count and the number of slots holding the correct answer |
| Storage.TopicPerformance | assets/scripts/storage.js:56-67 | the counting loop builds that table |
| Storage.PerfUpToAll | assets/scripts/storage.js:56-67 | the full table over the quiz is the key order with the counts |
| Storage.OutcomesOfAbsentTopic | assets/scripts/storage.js:56-67 | a topic with no questions has no correct answers |
| Storage.Merged | assets/scripts/storage.js:70-78 | merging adds the attempts and correct answers, recomputes the accuracy as the rounded ratio and leaves `lastActive` unchanged |
| Storage.MergeTopics | assets/scripts/storage.js:69-79 | the merge loop yields the merge fold |
| Storage.MergeAllShape | assets/scripts/storage.js:69-79 | the merge keeps each topic once in the key order, appends new topics and touches no other field |
| Storage.MergeAllTopic | assets/scripts/storage.js:69-79 | each quiz topic holds the merge of its old record and its counts; other topics are unchanged; no topic appears from nowhere |
| Storage.MergeTopicEffect | assets/scripts/storage.js:70-78 | one merge creates the topic if missing, merges its counts and touches no other topic |
| Storage.UpdateWeakAreas | assets/scripts/storage.js:113-140 | the method recomputes the weak areas as the ranked candidates |
| Storage.AppendHistoryFacts | assets/scripts/storage.js:94-106 | after a push and a cut, the history has 1 to 50 entries, ends with the new one, and before it keeps the previous suffix in order |
| Storage.HistoryIsLastFifty | assets/scripts/storage.js:94-106 | repeated pushes with the cut keep exactly the last 50 entries ever pushed |
| Storage.Base | assets/scripts/storage.js:36-39 | the stored record, or the default one when none is stored, is well formed |
| Storage.Tallied | assets/scripts/storage.js:42-79 | the record after the subject and topic tallies is well formed |
| Storage.TallyResult | assets/scripts/storage.js:35-79 | the two counting loops give the tallied record |
| Storage.UpdatedProgress | assets/scripts/storage.js:35-110 | the whole new record of `updateProgress`; `Storage.UpdateProgress` computes it step by step and the `StorageFacts` lemmas state its fields |
| Storage.UpdateProgress | assets/scripts/storage.js:35-110 | the whole update gives the specified updated record |
| StorageFacts.TalliedShape | assets/scripts/storage.js:42-79 | the tallied record is the subject fold followed by the topic merge, with every other field from the base record |
| StorageFacts.UpdatedFromTallied | assets/scripts/storage.js:81-106 | weak areas, history, counters, overall accuracy and `lastActive` are each set from the tallied record, and nothing else changes |
| StorageFacts.UpdatedProgressValid | assets/scripts/storage.js:35-110 | the updated record keeps every key table consistent with its map |
| StorageFacts.UpdatedCounters | assets/scripts/storage.js:85-91 | `totalQuizzes` rises by exactly 1, `totalQuestionsAttempted` by exactly the quiz's question count, and `lastActive` becomes now |
| StorageFacts.UpdatedSubject | assets/scripts/storage.js:42-53 | each subject grows by the quiz totals once per quiz topic classified to it; its accuracy is recomputed; untouched subjects are unchanged |
| StorageFacts.UpdatedTopic | assets/scripts/storage.js:56-79 | each quiz topic grows by its question count and its correct answers, with accuracy the rounded ratio and `lastActive` untouched; other topics are unchanged |
| StorageFacts.QuizMergeTopic | assets/scripts/storage.js:56-79 | the per-topic merge over a quiz, topic by topic |
| StorageFacts.TopicsNeverStamped | assets/scripts/storage.js:70-78 | if no topic had `lastActive`, none has it after the update |
| StorageFacts.UpdatedWeakAreas | assets/scripts/storage.js:113-139 | after the update there are at most 10 weak areas, sorted, each a topic of the record with at least 5 attempts, a non-low priority and its own accuracy |
| StorageFacts.UpdatedHistory | assets/scripts/storage.js:94-106 | the history has 1 to 50 entries, ends with the new quiz, and is the last 50 of the old history plus it |
| StorageFacts.SumOfZero | assets/scripts/storage.js:4-9 | the default subjects sum to zero |
| StorageFacts.FirstQuizAccuracy | assets/scripts/storage.js:87-90 | on a first quiz with at least one topic, the overall accuracy is the quiz's rounded score ratio |
| Analytics.Filter | assets/scripts/analytics.js:85 | `filter` keeps exactly the elements that pass, and no more than there were |
| Analytics.FilterPositions | assets/scripts/analytics.js:85 | the kept elements appear in their original order, and every passing position is kept |
| Analytics.FilterAll | assets/scripts/analytics.js:129-133 | a filter that every element passes returns the sequence unchanged |
| Analytics.Track | assets/scripts/analytics.js:6-21 | the question's entry is created if missing; `attempts` rises by 1, `correct` by 1 iff the answer is right, `totalTime` by the time spent; other questions are unchanged |
| Analytics.TrackKeepsBound | assets/scripts/analytics.js:15-21 | `correct <= attempts` is preserved for every question |
| Analytics.TrackAllCounts | assets/scripts/analytics.js:6-21 | after a run of answers to a new question, `attempts` is the run length and `correct` the right answers |
| Analytics.GroupTopics | assets/scripts/analytics.js:114-118 | the topic ids of a subject's groups, exactly |
| Analytics.SubjectTopics | assets/scripts/analytics.js:113-119 | the topic ids of all subjects, exactly |
| Analytics.AllTopics | assets/scripts/analytics.js:109-122 | `getAllTopics`, the catalog's topic ids flattened; `Analytics.AllTopicsListed` and `Analytics.AllTopicsClassified` state what it holds |
| Analytics.AllTopicsListed | assets/scripts/analytics.js:109-122 | a topic is in `getAllTopics` iff the catalog lists it under some subject |
| Analytics.AllTopicsClassified | assets/scripts/analytics.js:109-122 | every catalog topic has a subject under the list classifier |
| Analytics.TopicsForReview | assets/scripts/analytics.js:125-136 | `getTopicsForReview`, the first five due topics; `Analytics.TopicsForReviewFacts` states the bound, the order and exactly which topics |
| Analytics.TopicsForReviewFacts | assets/scripts/analytics.js:125-136 | at most 5 topics; each is due; they are the first due topics in key order; with fewer than 5, every due topic is listed |
| Analytics.NeverActiveAllDue | assets/scripts/analytics.js:129-135 | with no `lastActive` anywhere, the review list is the first 5 topics in key order |
| Analytics.ReviewAfterUpdate | assets/scripts/analytics.js:125-136 | after `updateProgress` on a record without stamps, the review list is the first 5 topics whatever the time |
| Analytics.UpdateWeakAreas | assets/scripts/analytics.js:30-65 | the method gives the record with the recomputed, stamped weak areas |
| Analytics.TrackedWeakAreasFacts | assets/scripts/analytics.js:35-63 | at most 10 areas, sorted; each is a topic with at least 5 attempts and accuracy < 70, high iff < 50, carrying its `lastActive`; none is lost when 10 or fewer qualify; nothing else changes |
| Analytics.UnstampAll | assets/scripts/analytics.js:44-49 | dropping `lastPracticed` element-wise keeps length and order |
| Analytics.CandidatesUnstamped | assets/scripts/analytics.js:35-52 | the analytics candidates, unstamped, are the storage candidates |
| Analytics.InsertUnstamped | assets/scripts/analytics.js:55-61 | insertion does not look at `lastPracticed` |
| Analytics.SortUnstamped | assets/scripts/analytics.js:55-61 | sorting does not look at `lastPracticed` |
| Analytics.RankingsAgree | assets/scripts/analytics.js:30-63 | the two comparators are the same ordering, so the analytics ranking with `lastPracticed` dropped is the storage ranking |
| Analytics.AreaTopics | assets/scripts/analytics.js:78 | the topics of the areas, in order |
| Analytics.DisplayNames | assets/scripts/analytics.js:77 | each topic's display name, in order |
| Analytics.Recommend | assets/scripts/analytics.js:74-80 | one recommendation of the kind with exactly those topics when the list is non-empty, none otherwise |
| Analytics.ThreeRecommendations | assets/scripts/analytics.js:68-106 | three optional pieces in order give at most three items, strictly ordered by kind, each kind present iff its piece is |
| Analytics.HighTopicsExist | assets/scripts/analytics.js:73-74 | the high-priority list is non-empty iff some weak area is high |
| Analytics.UnpracticedExist | assets/scripts/analytics.js:83-87 | the unpracticed list is non-empty iff some catalog topic has no record |
| Analytics.ReviewExist | assets/scripts/analytics.js:96-97 | the review list is non-empty iff some topic is due |
| Analytics.StudyRecommendations | assets/scripts/analytics.js:68-107 | `getStudyRecommendations`; `Analytics.RecommendationsOrder`, `Analytics.RecommendationsPresent` and `Analytics.RecommendedTopics` state the count, the order, when each kind appears and its topics |
| Analytics.RecommendationsOrder | assets/scripts/analytics.js:68-106 | at most 3 recommendations, in the order high priority, unpracticed, review |
| Analytics.RecommendationsPresent | assets/scripts/analytics.js:72-103 | high priority iff some weak area is high; unpracticed iff some catalog topic is unpractised; review iff some topic is due |
| Analytics.RecommendedTopics | assets/scripts/analytics.js:73-102 | the high-priority item names every high area; the unpracticed item names the first 3 unpractised catalog topics; the review item names at most 3 due topics |
| Analytics.CalculateTrend | assets/scripts/analytics.js:174-179 | improving iff at least 2 quizzes and the last score beats the first; declining iff it is below; stable otherwise |
| Analytics.TrendReversed | assets/scripts/analytics.js:174-179 | reversing the quizzes swaps improving and declining |
| Analytics.RecentTrend | assets/scripts/analytics.js:164-168 | the trend part of `getRecentPerformance`, over `slice(-5)`; `Analytics.RecentTrendEnds` states which scores it compares |
| Analytics.RecentTrendEnds | assets/scripts/analytics.js:164-168 | the recent trend compares the last score with the score five quizzes back |
| Analytics.GoalUnless | assets/scripts/analytics.js:191-197 | one goal with the given fields when the target is not reached, none otherwise |
| Analytics.ThreeGoals | assets/scripts/analytics.js:188-219 | three optional pieces in order give at most three goals of distinct kinds, each kind present iff its piece is |
| Analytics.StudyGoals | assets/scripts/analytics.js:188-219 | `generateStudyGoals`; `Analytics.GoalsFacts` states when each goal appears and its target and current value |
| Analytics.GoalsFacts | assets/scripts/analytics.js:188-219 | consistency iff fewer than 5 quizzes, accuracy iff overall accuracy < 70, weak areas iff some high area, each with its target and current value; no goals iff all three are met |
| Analytics.GoalMatchesRecommendation | assets/scripts/analytics.js:73-74 | the weak-area goal appears exactly when the high-priority recommendation does |

## Left out

- Storage reads and writes through `localStorage`, and their JSON encoding. The stored record is an input and the updated record the result. `saveUserProgress`, `getQuizConfig`, `saveQuizResults`, `getQuizHistory` and `clearUserProgress` are plain storage plumbing.
- `fetch`, `loadJSON`, `loadQuestionsFromTopics`, `init` and `ensureDefaultData`. These are network I/O with a fallback. `QuizSession.Initialize` takes the loaded questions as a parameter.
- `Math.random` and `new Date()`. The shuffle draws, the sample difficulties and the current time in milliseconds are parameters. `startTime` is an integer, with the source's `null` reading as 0.
- `updateUserProgress` in the quiz session. It forwards to `storage.updateProgress`, which `Storage.UpdateProgress` models.
- `trackQuestionPerformance` reads and writes the table through `storage.getQuestionPerformance` and `storage.saveQuestionPerformance`. Neither function is defined in `storage.js`, so as written every call throws a TypeError at `assets/scripts/analytics.js:4`. `Analytics.Track` models the evidently intended behaviour instead: it takes the table as a value and returns the new one.
- `Analytics.Track` does not model the floating-point `averageTime` and `accuracy`, nor the trailing call to `updateWeakAreas`. The counters, and the weak-area recomputation itself, are modelled.
- `generateProgressReport`, `getRecentPerformance` and `getBestSubject`:
  - the report is a record of values modelled elsewhere;
  - `averageScore` is a floating-point mean that is NaN on an empty history;
  - the best subject is a constant placeholder.
- `RecentTrend` keeps the trend part of `getRecentPerformance`.
- Common.RoundPercent: exact rational rounding rather than IEEE double arithmetic, and 0 where the source divides by zero and yields NaN. This affects:
  - `getProgress` and `getScore` on an empty quiz;
  - subject and topic accuracy;
  - overall accuracy.
- Analytics.TrackedWeakAreasFacts: a topic's accuracy is always a number in this model. So the source's `stats.accuracy || 0` and `Math.round` (no-ops on integers) are not modelled.
- Analytics.UpdateWeakAreas: the source throws when no record is stored. Here a record is an input.
- Analytics.TopicsForReview: the source reads `storage.getUserProgress()` and throws a TypeError when no record is stored (`assets/scripts/analytics.js:125-127`). Here a record is an input.
- Analytics.StudyRecommendations: the source reads `storage.getUserProgress()` and throws a TypeError when no record is stored (`assets/scripts/analytics.js:68-70`). Here a record is an input.
- Text.Upper: only ASCII `a`–`z` is upper-cased. Unicode case mapping is not modelled, and topic ids are ASCII.
- App.SubjectFiles: states the number of files per subject, not the file names, which are the listed topics with `.json` in a different order.
- Display-only catalog fields (group names, icons) and `console` logging.
- Ranking.RankedAreas: proves that the kept areas are sorted and chosen no later than the dropped ones. It does not prove that equal-key areas keep their key order, although the insertion sort is stable like `Array.prototype.sort`.
- QuizEngine.QuizSession.RecordAnswer: an index outside the questions is excluded by its precondition. The source first writes that slot, growing `userAnswers` with holes, and then throws a TypeError reading `correctAnswer` of `undefined`; the longer `userAnswers` is left behind.

## Findings

| source | as written | input that shows it | evidently intended | confidence | as-written member | corrected member |
|---|---|---|---|---|---|---|
| assets/scripts/quiz-engine.js:50-75 | `recordAnswer` always adds one to the topic's `correct` or `incorrect`, even when the slot already held an answer | a one-question topic answered right, then answered wrong: `correct + incorrect = 2` while `total = 1` | a re-answer replaces the earlier answer's count, so the tallies equal the answers in the slots and `correct + incorrect <= total` | not executed | QuizEngine.ReAnswerOverCounts | QuizEngine.QuizSession.RecordAnswerRetallied |

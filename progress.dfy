/**
 * The cumulative progress record the storage layer keeps between quizzes:
 * subject and topic tallies, the ranked weak areas, the quiz history and the
 * overall counters. JavaScript objects keep their keys in insertion order,
 * and that order decides ties in the weak-area ranking and which topics are
 * offered for review, so each keyed table is a map together with the
 * sequence of its keys.
 */
module Progress {
  import opened Common

  /** A subject's `{attempted, correct, accuracy}`. */
  datatype Tally = Tally(attempted: nat, correct: nat, accuracy: nat)

  /** A topic's record; `lastActive` (milliseconds) is absent unless something sets it. */
  datatype TopicRecord = TopicRecord(attempted: nat, correct: nat, accuracy: nat, lastActive: Option<int>)

  datatype Priority = High | Medium | Low

  /** A ranked weak area; only the analytics ranking fills in `lastPracticed`. */
  datatype WeakArea = WeakArea(topic: string, accuracy: nat, priority: Priority, lastPracticed: Option<int>)

  /** One quiz in the history. */
  datatype HistoryEntry = HistoryEntry(timestamp: int, score: nat, correctAnswers: nat,
                                       totalQuestions: nat, topics: seq<string>, timeSpent: int)

  datatype UserProgress = UserProgress(
    subjectOrder: seq<string>,
    subjects: map<string, Tally>,
    topicOrder: seq<string>,
    topics: map<string, TopicRecord>,
    weakAreas: seq<WeakArea>,
    quizHistory: seq<HistoryEntry>,
    totalQuizzes: nat,
    totalQuestionsAttempted: nat,
    overallAccuracy: nat,
    lastActive: int)
  {
    /** Each key table lists every key of its map exactly once. */
    predicate Valid()
    {
      && Keyed(subjectOrder, subjects.Keys)
      && Keyed(topicOrder, topics.Keys)
    }
  }

  /** `order` lists the elements of `keys`, each once. */
  predicate Keyed(order: seq<string>, keys: set<string>)
  {
    && (forall i, j :: 0 <= i < j < |order| ==> order[i] != order[j])
    && (forall k :: k in order ==> k in keys)
    && (forall k :: k in keys ==> k in order)
  }

  const HistoryLimit: nat := 50

  /** `initializeUserProgress`: the three subjects at zero, nothing else recorded, active at `now`. */
  function DefaultProgress(now: int): (p: UserProgress)
    ensures p.Valid()
    ensures p.subjectOrder == ["anatomy", "physiology", "biochemistry"]
    ensures forall k :: k in p.subjects ==> p.subjects[k] == Tally(0, 0, 0)
    ensures p.topics == map[] && p.weakAreas == [] && p.quizHistory == []
    ensures p.totalQuizzes == 0 && p.totalQuestionsAttempted == 0 && p.overallAccuracy == 0
  {
    UserProgress(
      ["anatomy", "physiology", "biochemistry"],
      map["anatomy" := Tally(0, 0, 0), "physiology" := Tally(0, 0, 0), "biochemistry" := Tally(0, 0, 0)],
      [], map[], [], [], 0, 0, 0, now)
  }
}

/**
 * The progress store's aggregator: `updateProgress` folds one quiz result
 * into the cumulative record (subject tallies, topic tallies, weak areas,
 * counters, overall accuracy, history) and `updateWeakAreas` re-ranks the
 * weak areas. Reading and writing the record (local storage, JSON) is left
 * to the caller: the stored record, or its absence, is a parameter, and the
 * updated record is the result.
 */
module Storage {
  import opened Common
  import Text
  import App
  import opened Progress
  import Ranking
  import QuizEngine

  // ---------------------------------------------------------------------------
  // The substring classifier

  /**
   * `getSubjectFromTopic` of the store: anatomy for ids mentioning anatomy,
   * embryology or histology, else physiology for ids mentioning physiology,
   * else biochemistry. Every id gets a subject.
   */
  function SubjectOfTopic(topicId: string): Subject
  {
    if Text.Contains(topicId, "anatomy") || Text.Contains(topicId, "embryology") || Text.Contains(topicId, "histology") then Anatomy
    else if Text.Contains(topicId, "physiology") then Physiology
    else Biochemistry
  }

  /** The classifier in terms of where the subject words occur in the id. */
  lemma SubjectOfTopicCases(topicId: string)
    ensures SubjectOfTopic(topicId) == Anatomy <==>
      exists i :: Text.MatchAt(topicId, "anatomy", i) || Text.MatchAt(topicId, "embryology", i) || Text.MatchAt(topicId, "histology", i)
    ensures SubjectOfTopic(topicId) == Physiology <==>
      (forall i :: !Text.MatchAt(topicId, "anatomy", i) && !Text.MatchAt(topicId, "embryology", i) && !Text.MatchAt(topicId, "histology", i))
      && exists i :: Text.MatchAt(topicId, "physiology", i)
    ensures SubjectOfTopic(topicId) == Biochemistry <==>
      forall i :: !Text.MatchAt(topicId, "anatomy", i) && !Text.MatchAt(topicId, "embryology", i)
               && !Text.MatchAt(topicId, "histology", i) && !Text.MatchAt(topicId, "physiology", i)
  {
    Text.ContainsMatches(topicId, "anatomy");
    Text.ContainsMatches(topicId, "embryology");
    Text.ContainsMatches(topicId, "histology");
    Text.ContainsMatches(topicId, "physiology");
  }

  /**
   * The two classifiers disagree: `thorax` and `renal`, listed under anatomy
   * and physiology in the catalog, mention no subject word and fall to
   * biochemistry here.
   */
  lemma ClassifiersDisagree()
    ensures App.SubjectFromTopic("thorax") == Some(Anatomy) && SubjectOfTopic("thorax") == Biochemistry
    ensures App.SubjectFromTopic("renal") == Some(Physiology) && SubjectOfTopic("renal") == Biochemistry
  {
    assert "thorax" in App.TopicsOf(Anatomy);
    assert "renal" in App.TopicsOf(Physiology);
  }

  // ---------------------------------------------------------------------------
  // Subject tallies

  function AttemptedOf(subjects: map<string, Tally>, key: string): nat
  {
    if key in subjects then subjects[key].attempted else 0
  }

  function CorrectOf(subjects: map<string, Tally>, key: string): nat
  {
    if key in subjects then subjects[key].correct else 0
  }

  /** One topic's contribution: the whole quiz's counts added to the subject `key`, created at zero if absent. */
  function AddToSubject(p: UserProgress, key: string, total: nat, correct: nat): UserProgress
  {
    var t := if key in p.subjects then p.subjects[key] else Tally(0, 0, 0);
    var attempted := t.attempted + total;
    var right := t.correct + correct;
    p.(subjectOrder := if key in p.subjects then p.subjectOrder else p.subjectOrder + [key],
       subjects := p.subjects[key := Tally(attempted, right, RoundPercent(right, attempted))])
  }

  /** The subject key the classifier gives each listed topic. */
  function SubjectKeys(topics: seq<string>): (keys: seq<string>)
    ensures |keys| == |topics|
  {
    if topics == [] then []
    else SubjectKeys(topics[..|topics| - 1]) + [SubjectOfTopic(topics[|topics| - 1]).Key()]
  }

  /** The subject loop over the first `n` topics, whose subject keys are `keys`: one contribution per topic. */
  function SubjectsAfter(p: UserProgress, keys: seq<string>, n: nat, total: nat, correct: nat): UserProgress
    requires n <= |keys|
  {
    if n == 0 then p
    else AddToSubject(SubjectsAfter(p, keys, n - 1, total, correct), keys[n - 1], total, correct)
  }

  /** How many of the first `n` topics have the subject key `key`. */
  function Classified(keys: seq<string>, n: nat, key: string): (c: nat)
    requires n <= |keys|
    ensures c <= n
  {
    if n == 0 then 0
    else Classified(keys, n - 1, key) + (if keys[n - 1] == key then 1 else 0)
  }

  lemma {:induction false} SubjectKeysAt(topics: seq<string>, i: nat)
    requires i < |topics|
    ensures SubjectKeys(topics)[i] == SubjectOfTopic(topics[i]).Key()
  {
    if i < |topics| - 1 {
      SubjectKeysAt(topics[..|topics| - 1], i);
    }
  }

  /** The subject loop of `updateProgress`. */
  method UpdateSubjects(p: UserProgress, topics: seq<string>, total: nat, correct: nat) returns (q: UserProgress)
    ensures q == SubjectsAfter(p, SubjectKeys(topics), |topics|, total, correct)
  {
    q := p;
    var i := 0;
    while i < |topics|
      invariant 0 <= i <= |topics|
      invariant q == SubjectsAfter(p, SubjectKeys(topics), i, total, correct)
    {
      var subject := SubjectOfTopic(topics[i]).Key();
      SubjectKeysAt(topics, i);
      q := AddToSubject(q, subject, total, correct);
      i := i + 1;
    }
  }

  /**
   * Each listed topic adds the quiz's whole question count and correct count
   * to its classified subject, so a subject gains `total` once per topic of
   * the quiz it is assigned, not once per quiz.
   */
  lemma {:induction false} SubjectsAfterCounts(p: UserProgress, keys: seq<string>, n: nat, total: nat, correct: nat, k: string)
    requires n <= |keys|
    ensures AttemptedOf(SubjectsAfter(p, keys, n, total, correct).subjects, k) == AttemptedOf(p.subjects, k) + total * Classified(keys, n, k)
    ensures CorrectOf(SubjectsAfter(p, keys, n, total, correct).subjects, k) == CorrectOf(p.subjects, k) + correct * Classified(keys, n, k)
  {
    if n > 0 {
      SubjectsAfterCounts(p, keys, n - 1, total, correct, k);
      var prev := SubjectsAfter(p, keys, n - 1, total, correct);
      var hit := if keys[n - 1] == k then 1 else 0;
      AddToSubjectCounts(prev, keys[n - 1], total, correct, k);
      assert Classified(keys, n, k) == Classified(keys, n - 1, k) + hit;
      Distribute(total, Classified(keys, n - 1, k), hit);
      Distribute(correct, Classified(keys, n - 1, k), hit);
    }
  }

  /** One contribution moves the subject `k` only when it is the contribution's key. */
  lemma AddToSubjectCounts(p: UserProgress, key: string, total: nat, correct: nat, k: string)
    ensures AttemptedOf(AddToSubject(p, key, total, correct).subjects, k) == AttemptedOf(p.subjects, k) + (if key == k then total else 0)
    ensures CorrectOf(AddToSubject(p, key, total, correct).subjects, k) == CorrectOf(p.subjects, k) + (if key == k then correct else 0)
  {
  }

  /** One more step of `x` on top of `n - 1` steps makes `n`. */
  lemma SumStep(after: nat, before: nat, start: nat, n: nat, x: nat)
    requires n > 0 && after == before + x && before == start + (n - 1) * x
    ensures after == start + n * x
  {
  }

  lemma Distribute(x: nat, a: nat, b: nat)
    ensures x * (a + b) == x * a + x * b
  {
  }

  /**
   * The subject table stays well keyed, gains exactly the subjects some topic
   * is assigned to, recomputes their accuracy from the new counts, and keeps
   * every other subject and every other part of the record.
   */
  lemma {:induction false} SubjectsAfterShape(p: UserProgress, keys: seq<string>, n: nat, total: nat, correct: nat)
    requires n <= |keys| && Keyed(p.subjectOrder, p.subjects.Keys)
    ensures var q := SubjectsAfter(p, keys, n, total, correct);
      && Keyed(q.subjectOrder, q.subjects.Keys)
      && p.subjectOrder <= q.subjectOrder
      && q == p.(subjectOrder := q.subjectOrder, subjects := q.subjects)
      && (forall k :: k in q.subjects <==> k in p.subjects || Classified(keys, n, k) > 0)
      && (forall k :: k in q.subjects && Classified(keys, n, k) > 0 ==>
            q.subjects[k].accuracy == RoundPercent(q.subjects[k].correct, q.subjects[k].attempted))
      && (forall k :: k in p.subjects && Classified(keys, n, k) == 0 ==> q.subjects[k] == p.subjects[k])
  {
    if n > 0 {
      SubjectsAfterShape(p, keys, n - 1, total, correct);
      var prev := SubjectsAfter(p, keys, n - 1, total, correct);
      AddToSubjectShape(prev, keys[n - 1], total, correct);
      forall k ensures Classified(keys, n, k) > 0 <==> Classified(keys, n - 1, k) > 0 || keys[n - 1] == k {
      }
    }
  }

  /** The subject loop keeps the subject table well keyed. */
  lemma {:induction false} SubjectsAfterKeyed(p: UserProgress, keys: seq<string>, n: nat, total: nat, correct: nat)
    requires n <= |keys| && Keyed(p.subjectOrder, p.subjects.Keys)
    ensures var q := SubjectsAfter(p, keys, n, total, correct); Keyed(q.subjectOrder, q.subjects.Keys)
  {
    if n > 0 {
      SubjectsAfterKeyed(p, keys, n - 1, total, correct);
      AddToSubjectShape(SubjectsAfter(p, keys, n - 1, total, correct), keys[n - 1], total, correct);
    }
  }

  /** One contribution keeps the table well keyed and touches only its own subject. */
  lemma AddToSubjectShape(p: UserProgress, key: string, total: nat, correct: nat)
    requires Keyed(p.subjectOrder, p.subjects.Keys)
    ensures var q := AddToSubject(p, key, total, correct);
      && Keyed(q.subjectOrder, q.subjects.Keys)
      && p.subjectOrder <= q.subjectOrder
      && q == p.(subjectOrder := q.subjectOrder, subjects := q.subjects)
      && q.subjects.Keys == p.subjects.Keys + {key}
      && q.subjects[key].accuracy == RoundPercent(q.subjects[key].correct, q.subjects[key].attempted)
      && (forall k :: k in p.subjects && k != key ==> q.subjects[k] == p.subjects[k])
  {
  }

  /** `thorax` and `renal` both fall to biochemistry under this classifier. */
  lemma ExampleKeys(topics: seq<string>)
    requires topics == ["thorax", "renal"]
    ensures SubjectKeys(topics) == ["biochemistry", "biochemistry"]
  {
    ClassifiersDisagree();
  }

  /** Two topics of the same subject count the quiz twice for that subject. */
  lemma SubjectCountedPerTopic(p: UserProgress, keys: seq<string>, total: nat, correct: nat)
    requires Keyed(p.subjectOrder, p.subjects.Keys) && "biochemistry" in p.subjects
    requires keys == ["biochemistry", "biochemistry"]
    ensures var q := SubjectsAfter(p, keys, |keys|, total, correct);
      && "biochemistry" in q.subjects
      && q.subjects["biochemistry"].attempted == p.subjects["biochemistry"].attempted + 2 * total
      && q.subjects["biochemistry"].correct == p.subjects["biochemistry"].correct + 2 * correct
  {
    var key := "biochemistry";
    SubjectsAfterCounts(p, keys, |keys|, total, correct, key);
    assert Classified(keys, |keys|, key) == 2;
  }

  /**
   * From the default record, a quiz listing `thorax` and `renal` gives
   * biochemistry twice the quiz's counts, at the quiz's own accuracy.
   */
  lemma SubjectCountedFromDefault(topics: seq<string>, total: nat, correct: nat, now: int)
    requires topics == ["thorax", "renal"]
    ensures var q := SubjectsAfter(DefaultProgress(now), SubjectKeys(topics), |topics|, total, correct);
      && "biochemistry" in q.subjects
      && q.subjects["biochemistry"] == Tally(2 * total, 2 * correct, RoundPercent(correct, total))
  {
    var d := DefaultProgress(now);
    var keys := SubjectKeys(topics);
    ExampleKeys(topics);
    assert d.subjects["biochemistry"] == Tally(0, 0, 0);
    SubjectCountedPerTopic(d, keys, total, correct);
    SubjectsAfterShape(d, keys, |keys|, total, correct);
    RoundPercentScale(correct, total, 2);
  }

  /** The sum of one counter over the subjects: `attempted` when `attempted` is set, else `correct`. */
  function SumOf(order: seq<string>, subjects: map<string, Tally>, attempted: bool): nat
    requires forall k :: k in order ==> k in subjects
  {
    if order == [] then 0
    else
      var t := subjects[order[|order| - 1]];
      SumOf(order[..|order| - 1], subjects, attempted) + (if attempted then t.attempted else t.correct)
  }

  /** Replacing one subject's tally moves the sums by the difference only. */
  lemma {:induction false} SumOfUpdate(order: seq<string>, subjects: map<string, Tally>, key: string, x: Tally, attempted: bool)
    requires forall i, j :: 0 <= i < j < |order| ==> order[i] != order[j]
    requires forall k :: k in order ==> k in subjects
    ensures SumOf(order, subjects[key := x], attempted) + (if key in order then (if attempted then subjects[key].attempted else subjects[key].correct) else 0)
         == SumOf(order, subjects, attempted) + (if key in order then (if attempted then x.attempted else x.correct) else 0)
  {
    if order != [] {
      var init := order[..|order| - 1];
      SumOfUpdate(init, subjects, key, x, attempted);
      assert forall k :: k in order <==> k in init || k == order[|order| - 1];
    }
  }

  /** What one topic adds to the attempted sum (`total`) or to the correct sum (`correct`). */
  function Share(attempted: bool, total: nat, correct: nat): nat
  {
    if attempted then total else correct
  }

  /** Adding one topic's contribution raises the sums by the quiz's counts. */
  lemma AddToSubjectSums(p: UserProgress, key: string, total: nat, correct: nat, attempted: bool)
    requires Keyed(p.subjectOrder, p.subjects.Keys)
    ensures var q := AddToSubject(p, key, total, correct);
      && (forall k :: k in q.subjectOrder ==> k in q.subjects)
      && SumOf(q.subjectOrder, q.subjects, attempted) == SumOf(p.subjectOrder, p.subjects, attempted) + Share(attempted, total, correct)
  {
    var q := AddToSubject(p, key, total, correct);
    var x := q.subjects[key];
    SumOfUpdate(p.subjectOrder, p.subjects, key, x, attempted);
    if key !in p.subjects {
      assert q.subjectOrder[..|q.subjectOrder| - 1] == p.subjectOrder;
    }
  }

  /** The `n`-th step of the subject loop adds one topic's share to the sum. */
  lemma SubjectsAfterStepSums(p: UserProgress, keys: seq<string>, n: nat, total: nat, correct: nat, attempted: bool)
    requires 0 < n <= |keys| && Keyed(p.subjectOrder, p.subjects.Keys)
    ensures var prev := SubjectsAfter(p, keys, n - 1, total, correct);
      var q := SubjectsAfter(p, keys, n, total, correct);
      && (forall k :: k in prev.subjectOrder ==> k in prev.subjects)
      && (forall k :: k in q.subjectOrder ==> k in q.subjects)
      && SumOf(q.subjectOrder, q.subjects, attempted) == SumOf(prev.subjectOrder, prev.subjects, attempted) + Share(attempted, total, correct)
  {
    var prev := SubjectsAfter(p, keys, n - 1, total, correct);
    SubjectsAfterKeyed(p, keys, n - 1, total, correct);
    AddToSubjectSums(prev, keys[n - 1], total, correct, attempted);
  }

  /** The subject loop adds `total` to the attempted sum, and `correct` to the correct sum, once per topic. */
  lemma {:induction false} SubjectsAfterSums(p: UserProgress, keys: seq<string>, n: nat, total: nat, correct: nat, attempted: bool)
    requires n <= |keys| && Keyed(p.subjectOrder, p.subjects.Keys)
    ensures var q := SubjectsAfter(p, keys, n, total, correct);
      && (forall k :: k in q.subjectOrder ==> k in q.subjects)
      && SumOf(q.subjectOrder, q.subjects, attempted) == SumOf(p.subjectOrder, p.subjects, attempted) + n * Share(attempted, total, correct)
  {
    if n > 0 {
      var prev := SubjectsAfter(p, keys, n - 1, total, correct);
      var q := SubjectsAfter(p, keys, n, total, correct);
      var x := Share(attempted, total, correct);
      assert SumOf(prev.subjectOrder, prev.subjects, attempted) == SumOf(p.subjectOrder, p.subjects, attempted) + (n - 1) * x by {
        SubjectsAfterSums(p, keys, n - 1, total, correct, attempted);
      }
      SubjectsAfterStepSums(p, keys, n, total, correct, attempted);
      SumStep(SumOf(q.subjectOrder, q.subjects, attempted), SumOf(prev.subjectOrder, prev.subjects, attempted),
              SumOf(p.subjectOrder, p.subjects, attempted), n, x);
    }
  }

  // ---------------------------------------------------------------------------
  // Topic tallies

  /** One quiz's `{attempted, correct}` for a topic. */
  datatype TopicCount = TopicCount(attempted: nat, correct: nat)

  /**
   * What the question loop of `updateProgress` builds: for each topic of the
   * quiz, its questions and the questions whose slot holds the correct
   * answer, pairing `questions[i]` with `userAnswers[i]`.
   */
  function PerfOf(qs: seq<Question>, answers: seq<Option<int>>): map<string, TopicCount>
  {
    map t | t in QuizEngine.DistinctTopics(qs) :: TopicCount(QuizEngine.CountTopic(qs, t), QuizEngine.Outcomes(qs, answers, t, true))
  }

  /** The object the question loop builds: its key order and its entries. */
  datatype Perf = Perf(order: seq<string>, counts: map<string, TopicCount>)

  /** One question counted: its topic's entry, created at zero if absent, gains an attempt and, when its slot is right, a correct answer. */
  function AddQuestion(perf: Perf, q: Question, answer: Option<int>): Perf
  {
    var c := if q.topic in perf.counts then perf.counts[q.topic] else TopicCount(0, 0);
    Perf(if q.topic in perf.counts then perf.order else perf.order + [q.topic],
         perf.counts[q.topic := TopicCount(c.attempted + 1, c.correct + (if answer == Some(q.correctAnswer) then 1 else 0))])
  }

  /** The question loop after the first `n` questions. */
  function PerfUpTo(qs: seq<Question>, answers: seq<Option<int>>, n: nat): Perf
    requires n <= |qs|
  {
    if n == 0 then Perf([], map[])
    else AddQuestion(PerfUpTo(qs, answers, n - 1), qs[n - 1], QuizEngine.AnswerAt(answers, n - 1))
  }

  /**
   * After `n` questions the object's keys are the distinct topics of those
   * questions in first-seen order, and each holds the topic's question count
   * and right answers among them.
   */
  lemma {:induction false} PerfUpToMeaning(qs: seq<Question>, answers: seq<Option<int>>, n: nat)
    requires n <= |qs|
    ensures PerfUpTo(qs, answers, n).order == QuizEngine.DistinctTopics(qs[..n])
    ensures forall t :: t in PerfUpTo(qs, answers, n).counts <==> t in PerfUpTo(qs, answers, n).order
    ensures forall t :: t in PerfUpTo(qs, answers, n).counts ==>
      PerfUpTo(qs, answers, n).counts[t] == TopicCount(QuizEngine.CountTopic(qs[..n], t), QuizEngine.OutcomesUpTo(qs, answers, t, true, n))
  {
    if n > 0 {
      PerfUpToMeaning(qs, answers, n - 1);
      assert qs[..n][..n - 1] == qs[..n - 1];
      var topic := qs[n - 1].topic;
      if topic !in PerfUpTo(qs, answers, n - 1).counts {
        assert QuizEngine.CountTopic(qs[..n - 1], topic) == 0;
        OutcomesOfAbsentTopic(qs, answers, topic, n - 1);
      }
    }
  }

  /** The question loop; `order` is the key order of the object it builds. */
  method TopicPerformance(qs: seq<Question>, answers: seq<Option<int>>)
    returns (order: seq<string>, perf: map<string, TopicCount>)
    ensures order == QuizEngine.DistinctTopics(qs)
    ensures perf == PerfOf(qs, answers)
  {
    var built := Perf([], map[]);
    var i := 0;
    while i < |qs|
      invariant 0 <= i <= |qs|
      invariant built == PerfUpTo(qs, answers, i)
    {
      built := AddQuestion(built, qs[i], QuizEngine.AnswerAt(answers, i));
      i := i + 1;
    }
    PerfUpToAll(qs, answers);
    order, perf := built.order, built.counts;
  }

  /** The whole loop builds the distinct topics, in first-seen order, with their counts. */
  lemma PerfUpToAll(qs: seq<Question>, answers: seq<Option<int>>)
    ensures PerfUpTo(qs, answers, |qs|) == Perf(QuizEngine.DistinctTopics(qs), PerfOf(qs, answers))
  {
    PerfUpToMeaning(qs, answers, |qs|);
    assert qs[..|qs|] == qs;
  }

  /** A topic with no question among the first `n` has no right answers there. */
  lemma {:induction false} OutcomesOfAbsentTopic(qs: seq<Question>, answers: seq<Option<int>>, topic: string, n: nat)
    requires n <= |qs| && QuizEngine.CountTopic(qs[..n], topic) == 0
    ensures QuizEngine.OutcomesUpTo(qs, answers, topic, true, n) == 0
  {
    if n > 0 {
      assert qs[..n][..n - 1] == qs[..n - 1];
      assert qs[n - 1] in qs[..n];
      OutcomesOfAbsentTopic(qs, answers, topic, n - 1);
    }
  }

  function RecordOf(topics: map<string, TopicRecord>, t: string): TopicRecord
  {
    if t in topics then topics[t] else TopicRecord(0, 0, 0, None)
  }

  /** A topic record with one quiz's counts added and its accuracy recomputed; `lastActive` is kept. */
  function Merged(r: TopicRecord, c: TopicCount): (m: TopicRecord)
    ensures m.attempted == r.attempted + c.attempted && m.correct == r.correct + c.correct
    ensures m.accuracy == RoundPercent(m.correct, m.attempted) && m.lastActive == r.lastActive
  {
    var attempted := r.attempted + c.attempted;
    var correct := r.correct + c.correct;
    TopicRecord(attempted, correct, RoundPercent(correct, attempted), r.lastActive)
  }

  function MergeTopic(p: UserProgress, t: string, c: TopicCount): UserProgress
  {
    p.(topicOrder := if t in p.topics then p.topicOrder else p.topicOrder + [t],
       topics := p.topics[t := Merged(RecordOf(p.topics, t), c)])
  }

  /** The loop over the quiz's topic counts, in their key order. */
  function MergeAll(p: UserProgress, order: seq<string>, perf: map<string, TopicCount>): UserProgress
    requires forall t :: t in order ==> t in perf
  {
    if order == [] then p
    else MergeTopic(MergeAll(p, order[..|order| - 1], perf), order[|order| - 1], perf[order[|order| - 1]])
  }

  method MergeTopics(p: UserProgress, order: seq<string>, perf: map<string, TopicCount>) returns (q: UserProgress)
    requires forall t :: t in order ==> t in perf
    ensures q == MergeAll(p, order, perf)
  {
    q := p;
    var i := 0;
    while i < |order|
      invariant 0 <= i <= |order|
      invariant q == MergeAll(p, order[..i], perf)
    {
      q := MergeTopic(q, order[i], perf[order[i]]);
      assert order[..i + 1][..i] == order[..i];
      i := i + 1;
    }
    assert order[..i] == order;
  }

  /**
   * Merging keeps the topic table well keyed, only appends to its key order
   * and keeps the rest of the record.
   */
  lemma {:induction false} MergeAllShape(p: UserProgress, order: seq<string>, perf: map<string, TopicCount>)
    requires Keyed(p.topicOrder, p.topics.Keys)
    requires forall t :: t in order ==> t in perf
    ensures var q := MergeAll(p, order, perf);
      && Keyed(q.topicOrder, q.topics.Keys)
      && p.topicOrder <= q.topicOrder
      && q == p.(topicOrder := q.topicOrder, topics := q.topics)
  {
    if order != [] {
      var init := order[..|order| - 1];
      MergeAllShape(p, init, perf);
      MergeTopicEffect(MergeAll(p, init, perf), order[|order| - 1], perf[order[|order| - 1]]);
    }
  }

  /**
   * Merging gives each counted topic its old record (or a zero one) plus the
   * quiz's counts, once, leaves every other topic alone and adds no other.
   */
  lemma {:induction false} MergeAllTopic(p: UserProgress, order: seq<string>, perf: map<string, TopicCount>, t: string)
    requires Keyed(p.topicOrder, p.topics.Keys)
    requires forall i, j :: 0 <= i < j < |order| ==> order[i] != order[j]
    requires forall u :: u in order ==> u in perf
    ensures var q := MergeAll(p, order, perf);
      && (t in order ==> t in q.topics && q.topics[t] == Merged(RecordOf(p.topics, t), perf[t]))
      && (t !in order && t in p.topics ==> t in q.topics && q.topics[t] == p.topics[t])
      && (t !in order && t !in p.topics ==> t !in q.topics)
  {
    if order != [] {
      var init := order[..|order| - 1];
      var last := order[|order| - 1];
      MergeAllTopic(p, init, perf, t);
      MergeAllShape(p, init, perf);
      MergeTopicEffect(MergeAll(p, init, perf), last, perf[last]);
      if t == last {
        assert t !in init;
      } else {
        assert t in order <==> t in init;
      }
    }
  }

  /** One merge keeps the table well keyed and touches only its own topic. */
  lemma MergeTopicEffect(p: UserProgress, t: string, c: TopicCount)
    requires Keyed(p.topicOrder, p.topics.Keys)
    ensures var q := MergeTopic(p, t, c);
      && Keyed(q.topicOrder, q.topics.Keys)
      && p.topicOrder <= q.topicOrder
      && q == p.(topicOrder := q.topicOrder, topics := q.topics)
      && q.topics.Keys == p.topics.Keys + {t}
      && q.topics[t] == Merged(RecordOf(p.topics, t), c)
      && (forall u :: u in p.topics && u != t ==> q.topics[u] == p.topics[u])
  {
  }

  // ---------------------------------------------------------------------------
  // Weak areas, history and the whole update

  /** `updateWeakAreas` of the store: the ranked weak areas of the topic table, without `lastPracticed`. */
  function WithWeakAreas(p: UserProgress): UserProgress
    requires p.Valid()
  {
    p.(weakAreas := Ranking.RankWeakAreas(Ranking.Candidates(p.topicOrder, p.topics, false)))
  }

  method UpdateWeakAreas(p: UserProgress) returns (q: UserProgress)
    requires p.Valid()
    ensures q == WithWeakAreas(p)
  {
    var weakAreas := Ranking.CollectWeakAreas(p.topicOrder, p.topics, false);
    q := p.(weakAreas := Ranking.RankWeakAreas(weakAreas));
  }

  /** The history entry `updateProgress` records for a quiz. */
  function EntryOf(r: QuizEngine.QuizResult): HistoryEntry
  {
    HistoryEntry(r.timestamp, r.score, r.correctAnswers, r.totalQuestions, r.topics, r.timeSpent)
  }

  /** Push the entry, then keep the last fifty when there are more. */
  function AppendHistory(h: seq<HistoryEntry>, e: HistoryEntry): seq<HistoryEntry>
  {
    TakeLast(h + [e], HistoryLimit)
  }

  /**
   * The history keeps at most fifty entries, ends with the new one, and
   * before it holds the most recent of the old entries in their order.
   */
  lemma AppendHistoryFacts(h: seq<HistoryEntry>, e: HistoryEntry)
    ensures var r := AppendHistory(h, e);
      && 1 <= |r| <= HistoryLimit
      && r[|r| - 1] == e
      && r[..|r| - 1] == h[|h| - (|r| - 1)..]
      && r == TakeLast(h + [e], HistoryLimit)
  {
    PushTakeLast(h, e, HistoryLimit);
  }

  /** Every entry is appended in turn, starting from `h`. */
  function AppendAll(h: seq<HistoryEntry>, es: seq<HistoryEntry>): seq<HistoryEntry>
  {
    if es == [] then h else AppendHistory(AppendAll(h, es[..|es| - 1]), es[|es| - 1])
  }

  /** However many quizzes are recorded, the history is the last fifty of them. */
  lemma {:induction false} HistoryIsLastFifty(h: seq<HistoryEntry>, es: seq<HistoryEntry>)
    requires |h| <= HistoryLimit
    ensures AppendAll(h, es) == TakeLast(h + es, HistoryLimit)
  {
    if es == [] {
      assert h + es == h;
    } else {
      var init := es[..|es| - 1];
      var e := es[|es| - 1];
      HistoryIsLastFifty(h, init);
      TakeLastPush(h + init, e, HistoryLimit);
      assert h + init + [e] == h + es;
    }
  }

  /** The counters, the overall accuracy and the activity time of `updateProgress`. */
  function WithCounters(p: UserProgress, r: QuizEngine.QuizResult, now: int): UserProgress
    requires forall k :: k in p.subjectOrder ==> k in p.subjects
  {
    p.(totalQuizzes := p.totalQuizzes + 1,
       totalQuestionsAttempted := p.totalQuestionsAttempted + r.totalQuestions,
       overallAccuracy := RoundPercent(SumOf(p.subjectOrder, p.subjects, false), SumOf(p.subjectOrder, p.subjects, true)),
       lastActive := now)
  }

  /** The record `updateProgress` starts from: the stored one, or the default when nothing is stored. */
  function Base(stored: Option<UserProgress>, now: int): (p: UserProgress)
    requires stored.Some? ==> stored.value.Valid()
    ensures p.Valid()
  {
    if stored.Some? then stored.value else DefaultProgress(now)
  }

  /** The subject and topic tables after the result is folded in. */
  function Tallied(stored: Option<UserProgress>, r: QuizEngine.QuizResult, now: int): (p: UserProgress)
    requires stored.Some? ==> stored.value.Valid()
    ensures p.Valid()
  {
    var base := Base(stored, now);
    SubjectsAfterShape(base, SubjectKeys(r.topics), |r.topics|, r.totalQuestions, r.correctAnswers);
    var s := SubjectsAfter(base, SubjectKeys(r.topics), |r.topics|, r.totalQuestions, r.correctAnswers);
    MergeAllShape(s, QuizEngine.DistinctTopics(r.questions), PerfOf(r.questions, r.userAnswers));
    MergeAll(s, QuizEngine.DistinctTopics(r.questions), PerfOf(r.questions, r.userAnswers))
  }

  /** `updateProgress`: the whole new record. */
  function UpdatedProgress(stored: Option<UserProgress>, r: QuizEngine.QuizResult, now: int): UserProgress
    requires stored.Some? ==> stored.value.Valid()
  {
    var p := WithCounters(WithWeakAreas(Tallied(stored, r, now)), r, now);
    p.(quizHistory := AppendHistory(p.quizHistory, EntryOf(r)))
  }

  /** The first stages of `updateProgress`: load (or default) the record, then fold in the subject and topic counts. */
  method TallyResult(stored: Option<UserProgress>, results: QuizEngine.QuizResult, now: int)
    returns (progress: UserProgress)
    requires stored.Some? ==> stored.value.Valid()
    ensures progress == Tallied(stored, results, now)
  {
    if stored.Some? {
      progress := stored.value;
    } else {
      progress := DefaultProgress(now);
    }
    progress := UpdateSubjects(progress, results.topics, results.totalQuestions, results.correctAnswers);
    var order, perf := TopicPerformance(results.questions, results.userAnswers);
    progress := MergeTopics(progress, order, perf);
  }

  /** `updateProgress` step by step, as the source runs it. */
  method UpdateProgress(stored: Option<UserProgress>, results: QuizEngine.QuizResult, now: int)
    returns (progress: UserProgress)
    requires stored.Some? ==> stored.value.Valid()
    ensures progress == UpdatedProgress(stored, results, now)
  {
    progress := TallyResult(stored, results, now);
    progress := UpdateWeakAreas(progress);
    ghost var ranked := progress;
    progress := progress.(totalQuizzes := progress.totalQuizzes + 1,
                          totalQuestionsAttempted := progress.totalQuestionsAttempted + results.totalQuestions);
    progress := progress.(overallAccuracy := RoundPercent(SumOf(progress.subjectOrder, progress.subjects, false),
                                                          SumOf(progress.subjectOrder, progress.subjects, true)),
                          lastActive := now);
    assert progress == WithCounters(ranked, results, now);
    progress := progress.(quizHistory := progress.quizHistory + [EntryOf(results)]);
    if |progress.quizHistory| > HistoryLimit {
      progress := progress.(quizHistory := progress.quizHistory[|progress.quizHistory| - HistoryLimit..]);
    }
  }
}

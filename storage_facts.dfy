/**
 * What one call of `updateProgress` does to the stored record, stated part
 * by part against the record it starts from: the counters, the subject and
 * topic tallies, the weak areas, the history and the overall accuracy.
 */
module StorageFacts {
  import opened Common
  import opened Progress
  import Ranking
  import QuizEngine
  import opened Storage

  /** The subject and topic stages change only the two tables and their key orders. */
  lemma TalliedShape(stored: Option<UserProgress>, r: QuizEngine.QuizResult, now: int)
    requires stored.Some? ==> stored.value.Valid()
    ensures var b := Base(stored, now);
      var s := SubjectsAfter(b, SubjectKeys(r.topics), |r.topics|, r.totalQuestions, r.correctAnswers);
      var q := Tallied(stored, r, now);
      && q.subjects == s.subjects && q.subjectOrder == s.subjectOrder
      && q == b.(subjectOrder := q.subjectOrder, subjects := q.subjects, topicOrder := q.topicOrder, topics := q.topics)
      && q == MergeAll(s, QuizEngine.DistinctTopics(r.questions), PerfOf(r.questions, r.userAnswers))
  {
    var b := Base(stored, now);
    SubjectsAfterShape(b, SubjectKeys(r.topics), |r.topics|, r.totalQuestions, r.correctAnswers);
    var s := SubjectsAfter(b, SubjectKeys(r.topics), |r.topics|, r.totalQuestions, r.correctAnswers);
    MergeAllShape(s, QuizEngine.DistinctTopics(r.questions), PerfOf(r.questions, r.userAnswers));
  }

  /** The record after `updateProgress`, part by part, from the tables of the tallied one. */
  lemma UpdatedFromTallied(stored: Option<UserProgress>, r: QuizEngine.QuizResult, now: int)
    requires stored.Some? ==> stored.value.Valid()
    ensures var t := Tallied(stored, r, now);
      var q := UpdatedProgress(stored, r, now);
      && q.subjectOrder == t.subjectOrder && q.subjects == t.subjects
      && q.topicOrder == t.topicOrder && q.topics == t.topics
      && q.weakAreas == Ranking.RankWeakAreas(Ranking.Candidates(t.topicOrder, t.topics, false))
      && q.quizHistory == AppendHistory(t.quizHistory, EntryOf(r))
      && q.totalQuizzes == t.totalQuizzes + 1
      && q.totalQuestionsAttempted == t.totalQuestionsAttempted + r.totalQuestions
      && q.overallAccuracy == RoundPercent(SumOf(t.subjectOrder, t.subjects, false), SumOf(t.subjectOrder, t.subjects, true))
      && q.lastActive == now
  {
  }

  /** The stored record, or the default one, stays well keyed through an update. */
  lemma UpdatedProgressValid(stored: Option<UserProgress>, r: QuizEngine.QuizResult, now: int)
    requires stored.Some? ==> stored.value.Valid()
    ensures UpdatedProgress(stored, r, now).Valid()
  {
    UpdatedFromTallied(stored, r, now);
  }

  /** One more quiz, its questions added to the attempted count, and active at `now`. */
  lemma UpdatedCounters(stored: Option<UserProgress>, r: QuizEngine.QuizResult, now: int)
    requires stored.Some? ==> stored.value.Valid()
    ensures var b := Base(stored, now);
      var q := UpdatedProgress(stored, r, now);
      && q.totalQuizzes == b.totalQuizzes + 1
      && q.totalQuestionsAttempted == b.totalQuestionsAttempted + r.totalQuestions
      && q.lastActive == now
  {
    TalliedShape(stored, r, now);
    UpdatedFromTallied(stored, r, now);
  }

  /**
   * Each subject gains the quiz's question and correct counts once for every
   * listed topic the classifier assigns to it; it is present afterwards when
   * it was before or some topic is assigned to it, and then its accuracy is
   * recomputed from its new counts.
   */
  lemma UpdatedSubject(stored: Option<UserProgress>, r: QuizEngine.QuizResult, now: int, k: string)
    requires stored.Some? ==> stored.value.Valid()
    ensures var b := Base(stored, now);
      var q := UpdatedProgress(stored, r, now);
      var c := Classified(SubjectKeys(r.topics), |r.topics|, k);
      && AttemptedOf(q.subjects, k) == AttemptedOf(b.subjects, k) + r.totalQuestions * c
      && CorrectOf(q.subjects, k) == CorrectOf(b.subjects, k) + r.correctAnswers * c
      && (k in q.subjects <==> k in b.subjects || c > 0)
      && (c > 0 ==> q.subjects[k].accuracy == RoundPercent(q.subjects[k].correct, q.subjects[k].attempted))
      && (c == 0 && k in b.subjects ==> q.subjects[k] == b.subjects[k])
  {
    var b := Base(stored, now);
    TalliedShape(stored, r, now);
    UpdatedFromTallied(stored, r, now);
    SubjectsAfterCounts(b, SubjectKeys(r.topics), |r.topics|, r.totalQuestions, r.correctAnswers, k);
    SubjectsAfterShape(b, SubjectKeys(r.topics), |r.topics|, r.totalQuestions, r.correctAnswers);
  }

  /**
   * Each topic of the quiz's questions gains its question count and the
   * questions answered correctly, with its accuracy recomputed and its
   * `lastActive` kept; every other stored topic is unchanged, and no other
   * topic appears.
   */
  lemma UpdatedTopic(stored: Option<UserProgress>, r: QuizEngine.QuizResult, now: int, t: string)
    requires stored.Some? ==> stored.value.Valid()
    ensures var b := Base(stored, now);
      var q := UpdatedProgress(stored, r, now);
      var o := RecordOf(b.topics, t);
      && (t in QuizEngine.DistinctTopics(r.questions) ==>
            && t in q.topics
            && q.topics[t].attempted == o.attempted + QuizEngine.CountTopic(r.questions, t)
            && q.topics[t].correct == o.correct + QuizEngine.Outcomes(r.questions, r.userAnswers, t, true)
            && q.topics[t].accuracy == RoundPercent(q.topics[t].correct, q.topics[t].attempted)
            && q.topics[t].lastActive == o.lastActive)
      && (t !in QuizEngine.DistinctTopics(r.questions) && t in b.topics ==> t in q.topics && q.topics[t] == b.topics[t])
      && (t !in QuizEngine.DistinctTopics(r.questions) && t !in b.topics ==> t !in q.topics)
  {
    var b := Base(stored, now);
    var s := SubjectsAfter(b, SubjectKeys(r.topics), |r.topics|, r.totalQuestions, r.correctAnswers);
    assert s.topics == b.topics && s.topicOrder == b.topicOrder by {
      SubjectsAfterShape(b, SubjectKeys(r.topics), |r.topics|, r.totalQuestions, r.correctAnswers);
    }
    assert UpdatedProgress(stored, r, now).topics
        == MergeAll(s, QuizEngine.DistinctTopics(r.questions), PerfOf(r.questions, r.userAnswers)).topics by {
      TalliedShape(stored, r, now);
      UpdatedFromTallied(stored, r, now);
    }
    QuizMergeTopic(s, r.questions, r.userAnswers, t);
  }

  /** Merging one quiz's topic counts into a well-keyed record, for one topic. */
  lemma QuizMergeTopic(s: UserProgress, qs: seq<Question>, answers: seq<Option<int>>, t: string)
    requires Keyed(s.topicOrder, s.topics.Keys)
    ensures var m := MergeAll(s, QuizEngine.DistinctTopics(qs), PerfOf(qs, answers)).topics;
      var o := RecordOf(s.topics, t);
      && (t in QuizEngine.DistinctTopics(qs) ==>
            t in m && m[t] == Merged(o, TopicCount(QuizEngine.CountTopic(qs, t), QuizEngine.Outcomes(qs, answers, t, true))))
      && (t !in QuizEngine.DistinctTopics(qs) && t in s.topics ==> t in m && m[t] == s.topics[t])
      && (t !in QuizEngine.DistinctTopics(qs) && t !in s.topics ==> t !in m)
  {
    var order := QuizEngine.DistinctTopics(qs);
    var perf := PerfOf(qs, answers);
    MergeAllTopic(s, order, perf, t);
    if t in order {
      var c := TopicCount(QuizEngine.CountTopic(qs, t), QuizEngine.Outcomes(qs, answers, t, true));
      assert perf[t] == c;
    }
  }

  /** No stage of `updateProgress` sets a topic's `lastActive`: a record without one never gains one. */
  lemma TopicsNeverStamped(stored: Option<UserProgress>, r: QuizEngine.QuizResult, now: int)
    requires stored.Some? ==> stored.value.Valid()
    requires stored.Some? ==> forall t :: t in stored.value.topics ==> stored.value.topics[t].lastActive == None
    ensures var q := UpdatedProgress(stored, r, now);
      forall t :: t in q.topics ==> q.topics[t].lastActive == None
  {
    var q := UpdatedProgress(stored, r, now);
    forall t | t in q.topics
      ensures q.topics[t].lastActive == None
    {
      UpdatedTopic(stored, r, now, t);
    }
  }

  /**
   * The weak areas are the ranking of the new topic table: at most ten,
   * sorted, each a qualifying topic of the table with its accuracy and
   * bucket, and no `lastPracticed`.
   */
  lemma UpdatedWeakAreas(stored: Option<UserProgress>, r: QuizEngine.QuizResult, now: int)
    requires stored.Some? ==> stored.value.Valid()
    ensures var q := UpdatedProgress(stored, r, now);
      && |q.weakAreas| <= Ranking.WeakLimit
      && Ranking.SortedAreas(q.weakAreas)
      && forall a :: a in q.weakAreas ==>
           a.topic in q.topics && Ranking.Weak(q.topics[a.topic]) && a == Ranking.AreaOf(a.topic, q.topics[a.topic], false)
  {
    var t := Tallied(stored, r, now);
    UpdatedFromTallied(stored, r, now);
    var c := Ranking.Candidates(t.topicOrder, t.topics, false);
    Ranking.RankedAreas(c);
    var q := UpdatedProgress(stored, r, now);
    forall a | a in q.weakAreas
      ensures a in c
    {
      assert a in multiset(q.weakAreas);
    }
  }

  /** The history is the last fifty of the old entries followed by this quiz's. */
  lemma UpdatedHistory(stored: Option<UserProgress>, r: QuizEngine.QuizResult, now: int)
    requires stored.Some? ==> stored.value.Valid()
    ensures var h := UpdatedProgress(stored, r, now).quizHistory;
      && 1 <= |h| <= HistoryLimit
      && h[|h| - 1] == EntryOf(r)
      && h == TakeLast(Base(stored, now).quizHistory + [EntryOf(r)], HistoryLimit)
  {
    var h := Base(stored, now).quizHistory;
    TalliedHistory(stored, r, now);
    UpdatedHistoryIs(stored, r, now);
    AppendHistoryFacts(h, EntryOf(r));
  }

  /** Tallying the subjects and topics leaves the history as loaded. */
  lemma TalliedHistory(stored: Option<UserProgress>, r: QuizEngine.QuizResult, now: int)
    requires stored.Some? ==> stored.value.Valid()
    ensures Tallied(stored, r, now).quizHistory == Base(stored, now).quizHistory
  {
    var b := Base(stored, now);
    SubjectsAfterShape(b, SubjectKeys(r.topics), |r.topics|, r.totalQuestions, r.correctAnswers);
    var s := SubjectsAfter(b, SubjectKeys(r.topics), |r.topics|, r.totalQuestions, r.correctAnswers);
    MergeAllShape(s, QuizEngine.DistinctTopics(r.questions), PerfOf(r.questions, r.userAnswers));
  }

  /** The update pushes this quiz's entry onto the tallied history. */
  lemma UpdatedHistoryIs(stored: Option<UserProgress>, r: QuizEngine.QuizResult, now: int)
    requires stored.Some? ==> stored.value.Valid()
    ensures UpdatedProgress(stored, r, now).quizHistory == AppendHistory(Tallied(stored, r, now).quizHistory, EntryOf(r))
  {
  }

  /** Every subject counter in a table at zero sums to zero. */
  lemma {:induction false} SumOfZero(order: seq<string>, subjects: map<string, Tally>, attempted: bool)
    requires forall k :: k in order ==> k in subjects && subjects[k] == Tally(0, 0, 0)
    ensures SumOf(order, subjects, attempted) == 0
  {
    if order != [] {
      SumOfZero(order[..|order| - 1], subjects, attempted);
    }
  }

  /**
   * On the first quiz, with at least one listed topic, the overall accuracy
   * is the quiz's own rounded percentage: every topic adds the same counts,
   * so the ratio of the sums is the quiz's ratio.
   */
  lemma FirstQuizAccuracy(r: QuizEngine.QuizResult, now: int)
    requires |r.topics| > 0
    ensures UpdatedProgress(None, r, now).overallAccuracy == RoundPercent(r.correctAnswers, r.totalQuestions)
  {
    var d := DefaultProgress(now);
    var n := |r.topics|;
    var s := SubjectsAfter(d, SubjectKeys(r.topics), n, r.totalQuestions, r.correctAnswers);
    assert SumOf(s.subjectOrder, s.subjects, true) == n * r.totalQuestions
        && SumOf(s.subjectOrder, s.subjects, false) == n * r.correctAnswers by {
      SumOfZero(d.subjectOrder, d.subjects, true);
      SumOfZero(d.subjectOrder, d.subjects, false);
      SubjectsAfterSums(d, SubjectKeys(r.topics), n, r.totalQuestions, r.correctAnswers, true);
      SubjectsAfterSums(d, SubjectKeys(r.topics), n, r.totalQuestions, r.correctAnswers, false);
    }
    TalliedShape(None, r, now);
    UpdatedFromTallied(None, r, now);
    RoundPercentScale(r.correctAnswers, r.totalQuestions, n);
  }
}

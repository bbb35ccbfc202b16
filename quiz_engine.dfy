/**
 * The quiz session: one attempt at a set of questions. The session owns the
 * question order, one answer slot per question, a read cursor and a tally of
 * correct and incorrect answers per topic; its queries report progress,
 * score, completeness and the unanswered questions, and `CalculateResults`
 * snapshots everything for the progress store. The question provider, the
 * random draws of the shuffle and the clock are parameters.
 */
module QuizEngine {
  import opened Common
  import App

  datatype QuizConfig = QuizConfig(topics: seq<string>, questionCount: nat)

  /** The per-topic counters of `topicStats`. */
  datatype TopicTally = TopicTally(correct: nat, incorrect: nat, total: nat)

  /** What `getProgress` reports; `current` is the 1-based cursor. */
  datatype ProgressInfo = ProgressInfo(current: nat, total: nat, answered: nat, percentage: nat)

  /** What `getScore` reports. */
  datatype Score = Score(correct: nat, total: nat, percentage: nat)

  /** The snapshot `calculateResults` hands to the progress store. */
  datatype QuizResult = QuizResult(
    score: nat,
    correctAnswers: nat,
    totalQuestions: nat,
    topics: seq<string>,
    timestamp: int,
    timeSpent: int,
    userAnswers: seq<Option<int>>,
    questions: seq<Question>,
    topicPerformance: map<string, TopicTally>)

  // ---------------------------------------------------------------------------
  // Counting over questions and answer slots

  /** The number of questions on `topic`. */
  function CountTopic(qs: seq<Question>, topic: string): (n: nat)
    ensures n <= |qs|
    ensures n == 0 <==> forall q :: q in qs ==> q.topic != topic
  {
    if qs == [] then 0
    else
      var init := qs[..|qs| - 1];
      assert forall q :: q in qs ==> q in init || q == qs[|qs| - 1];
      CountTopic(init, topic) + (if qs[|qs| - 1].topic == topic then 1 else 0)
  }

  /** The tally of `topic` with its `total` raised by one, created at zero if absent. */
  function AddOne(stats: map<string, TopicTally>, topic: string): map<string, TopicTally>
  {
    var t := if topic in stats then stats[topic] else TopicTally(0, 0, 0);
    stats[topic := t.(total := t.total + 1)]
  }

  /** `topicStats` after `initializeTopicStats` has walked `qs`, starting from `stats`. */
  function AddTotals(stats: map<string, TopicTally>, qs: seq<Question>): map<string, TopicTally>
  {
    if qs == [] then stats
    else AddOne(AddTotals(stats, qs[..|qs| - 1]), qs[|qs| - 1].topic)
  }

  function TotalOf(stats: map<string, TopicTally>, topic: string): nat
  {
    if topic in stats then stats[topic].total else 0
  }

  /** The tally of `topic`, all zero when it has none. */
  function TallyOf(stats: map<string, TopicTally>, topic: string): TopicTally
  {
    if topic in stats then stats[topic] else TopicTally(0, 0, 0)
  }

  /**
   * Walking the questions adds, to each topic's `total`, the number of
   * questions on that topic, creates a tally for each new topic, and leaves
   * the correct and incorrect counters alone.
   */
  lemma {:induction false} AddTotalsCounts(stats: map<string, TopicTally>, qs: seq<Question>)
    ensures forall t :: (TallyOf(AddTotals(stats, qs), t) ==
      TallyOf(stats, t).(total := TallyOf(stats, t).total + CountTopic(qs, t)))
  {
    if qs != [] {
      var init := qs[..|qs| - 1];
      AddTotalsCounts(stats, init);
    }
  }

  /** The tallied topics are those tallied before and those of the questions walked. */
  lemma {:induction false} AddTotalsKeys(stats: map<string, TopicTally>, qs: seq<Question>)
    ensures AddTotals(stats, qs).Keys == stats.Keys + set q | q in qs :: q.topic
  {
    if qs != [] {
      var init := qs[..|qs| - 1];
      AddTotalsKeys(stats, init);
      assert qs == init + [qs[|qs| - 1]];
      assert (set q | q in qs :: q.topic) == (set q | q in init :: q.topic) + {qs[|qs| - 1].topic};
    }
  }

  /** From an empty tally, each topic's total is its question count and nothing is answered. */
  lemma TalliesFromEmpty(qs: seq<Question>)
    ensures AddTotals(map[], qs).Keys == set q | q in qs :: q.topic
    ensures forall t :: t in AddTotals(map[], qs) ==>
      AddTotals(map[], qs)[t] == TopicTally(0, 0, CountTopic(qs, t))
  {
    AddTotalsKeys(map[], qs);
    AddTotalsCounts(map[], qs);
    forall t | t in AddTotals(map[], qs)
      ensures AddTotals(map[], qs)[t] == TopicTally(0, 0, CountTopic(qs, t))
    {
      assert TallyOf(AddTotals(map[], qs), t) == AddTotals(map[], qs)[t];
    }
  }

  /** The index of the first question on topic `t`, or `|qs|` when there is none. */
  function FirstOn(qs: seq<Question>, t: string): (i: nat)
    ensures i <= |qs|
    ensures i < |qs| ==> qs[i].topic == t
    ensures forall m :: 0 <= m < i ==> qs[m].topic != t
  {
    if qs == [] then 0 else if qs[0].topic == t then 0 else 1 + FirstOn(qs[1..], t)
  }

  /** Appending a question moves no first index that already existed. */
  lemma FirstOnSnoc(init: seq<Question>, x: Question, t: string)
    ensures FirstOn(init + [x], t) ==
      if FirstOn(init, t) < |init| then FirstOn(init, t) else if x.topic == t then |init| else |init| + 1
  {
    var qs := init + [x];
    var r0 := FirstOn(init, t);
    if r0 < |init| {
      assert qs[r0] == init[r0];
    } else if x.topic == t {
      assert qs[|init|] == x;
    }
  }

  /** `getTopics`: the distinct topics of `qs` in order of first appearance. */
  function DistinctTopics(qs: seq<Question>): (ts: seq<string>)
    ensures forall i, j :: 0 <= i < j < |ts| ==> ts[i] != ts[j]
    ensures forall t :: t in ts <==> exists q :: q in qs && q.topic == t
  {
    if qs == [] then []
    else
      var init := qs[..|qs| - 1];
      var last := qs[|qs| - 1];
      var p := DistinctTopics(init);
      assert forall q :: q in qs <==> q in init || q == last;
      if last.topic in p then p else p + [last.topic]
  }

  /** Every topic of `ts` occurs in `qs`, and the topics come in order of their first question. */
  predicate FirstSeenOrder(qs: seq<Question>, ts: seq<string>)
  {
    && (forall i :: 0 <= i < |ts| ==> FirstOn(qs, ts[i]) < |qs|)
    && (forall i, j :: 0 <= i < j < |ts| ==> FirstOn(qs, ts[i]) < FirstOn(qs, ts[j]))
  }

  /** Appending a question moves none of the first questions of the topics in `p`. */
  lemma FirstSeenKeep(init: seq<Question>, last: Question, p: seq<string>)
    requires FirstSeenOrder(init, p)
    ensures FirstSeenOrder(init + [last], p)
    ensures forall u :: u in p ==> FirstOn(init + [last], u) < |init|
  {
    forall u | u in p
      ensures FirstOn(init + [last], u) == FirstOn(init, u) < |init|
    {
      FirstOnSnoc(init, last, u);
    }
  }

  /** Appending a question on a topic not seen before puts that topic last. */
  lemma FirstSeenAppend(init: seq<Question>, last: Question, p: seq<string>)
    requires FirstSeenOrder(init, p)
    requires FirstOn(init, last.topic) == |init|
    ensures FirstSeenOrder(init + [last], p + [last.topic])
  {
    var qs := init + [last];
    var ts := p + [last.topic];
    FirstSeenKeep(init, last, p);
    FirstOnSnoc(init, last, last.topic);
    assert FirstOn(qs, last.topic) == |init|;
    forall i | 0 <= i < |ts|
      ensures FirstOn(qs, ts[i]) < |qs|
    {
      if i < |p| { assert ts[i] == p[i]; }
    }
    forall i, j | 0 <= i < j < |ts|
      ensures FirstOn(qs, ts[i]) < FirstOn(qs, ts[j])
    {
      assert ts[i] == p[i] && p[i] in p;
      if j < |p| { assert ts[j] == p[j]; }
    }
  }

  /** The distinct topics come in order of their first question. */
  lemma {:induction false} DistinctTopicsFirstSeen(qs: seq<Question>)
    ensures FirstSeenOrder(qs, DistinctTopics(qs))
  {
    if qs != [] {
      var init := qs[..|qs| - 1];
      var last := qs[|qs| - 1];
      var p := DistinctTopics(init);
      DistinctTopicsFirstSeen(init);
      assert qs == init + [last];
      if last.topic in p {
        FirstSeenKeep(init, last, p);
      } else {
        FirstSeenAppend(init, last, p);
      }
    }
  }

  /** The sum of the totals of the topics in `ts`. */
  function SumTotals(ts: seq<string>, stats: map<string, TopicTally>): nat
  {
    if ts == [] then 0 else SumTotals(ts[..|ts| - 1], stats) + TotalOf(stats, ts[|ts| - 1])
  }

  lemma {:induction false} SumTotalsAddOne(ts: seq<string>, stats: map<string, TopicTally>, topic: string)
    requires forall i, j :: 0 <= i < j < |ts| ==> ts[i] != ts[j]
    ensures SumTotals(ts, AddOne(stats, topic)) == SumTotals(ts, stats) + (if topic in ts then 1 else 0)
  {
    if ts != [] {
      var init := ts[..|ts| - 1];
      SumTotalsAddOne(init, stats, topic);
      assert forall t :: t in ts <==> t in init || t == ts[|ts| - 1];
    }
  }

  /**
   * After `initializeTopicStats` on a fresh session the topic totals add up to
   * the number of questions.
   */
  lemma {:induction false} TotalsSumToQuestionCount(qs: seq<Question>)
    ensures SumTotals(DistinctTopics(qs), AddTotals(map[], qs)) == |qs|
  {
    if qs != [] {
      var init := qs[..|qs| - 1];
      var last := qs[|qs| - 1];
      var p := DistinctTopics(init);
      var m := AddTotals(map[], init);
      TotalsSumToQuestionCount(init);
      SumTotalsAddOne(p, m, last.topic);
      if last.topic !in p {
        TalliesFromEmpty(init);
        assert last.topic !in m;
        assert (p + [last.topic])[..|p|] == p;
      }
    }
  }

  /** The answer in slot `i`, unset past the end of the answer list. */
  function AnswerAt(answers: seq<Option<int>>, i: nat): Option<int>
  {
    if i < |answers| then answers[i] else None
  }

  /** `answer === question.correctAnswer`: an unset slot is never correct. */
  predicate IsRight(q: Question, answer: Option<int>)
  {
    answer == Some(q.correctAnswer)
  }

  /** The number of the first `n` questions whose slot holds the correct answer. */
  function CorrectUpTo(qs: seq<Question>, answers: seq<Option<int>>, n: nat): (c: nat)
    requires n <= |qs|
    ensures c <= n
  {
    if n == 0 then 0
    else CorrectUpTo(qs, answers, n - 1) + (if IsRight(qs[n - 1], AnswerAt(answers, n - 1)) then 1 else 0)
  }

  /** Overwriting one answer slot moves the count by that slot's contribution only. */
  lemma {:induction false} CorrectUpToOverwrite(qs: seq<Question>, answers: seq<Option<int>>, n: nat, i: nat, x: Option<int>)
    requires n <= |qs| && i < |answers|
    ensures CorrectUpTo(qs, answers[i := x], n) + (if i < n && IsRight(qs[i], answers[i]) then 1 else 0)
         == CorrectUpTo(qs, answers, n) + (if i < n && IsRight(qs[i], x) then 1 else 0)
  {
    if n > 0 {
      CorrectUpToOverwrite(qs, answers, n - 1, i, x);
    }
  }

  /** The questions answered correctly. */
  function CountCorrect(qs: seq<Question>, answers: seq<Option<int>>): (c: nat)
    ensures c <= |qs|
  {
    CorrectUpTo(qs, answers, |qs|)
  }

  /** Every question counts as correct exactly when every slot holds its correct answer. */
  lemma {:induction false} AllCorrect(qs: seq<Question>, answers: seq<Option<int>>, n: nat)
    requires n <= |qs|
    ensures CorrectUpTo(qs, answers, n) == n <==>
      forall i :: 0 <= i < n ==> AnswerAt(answers, i) == Some(qs[i].correctAnswer)
  {
    if n > 0 {
      AllCorrect(qs, answers, n - 1);
    }
  }

  /**
   * Re-answering one question changes the number of correct answers by at
   * most one: up by one when a wrong answer is corrected, down by one when a
   * right answer is replaced by a wrong one.
   */
  lemma ScoreAfterReAnswer(qs: seq<Question>, answers: seq<Option<int>>, i: nat, x: int)
    requires |answers| == |qs| && i < |qs|
    ensures CountCorrect(qs, answers[i := Some(x)]) ==
      CountCorrect(qs, answers)
        - (if answers[i] == Some(qs[i].correctAnswer) then 1 else 0)
        + (if x == qs[i].correctAnswer then 1 else 0)
  {
    CorrectUpToOverwrite(qs, answers, |qs|, i, Some(x));
  }

  /** The number of set answer slots (`filter(answer => answer !== undefined).length`). */
  function CountAnswered(answers: seq<Option<int>>): (n: nat)
    ensures n <= |answers|
    ensures n == |answers| <==> forall i :: 0 <= i < |answers| ==> answers[i].Some?
    ensures n == 0 <==> forall i :: 0 <= i < |answers| ==> answers[i].None?
  {
    if answers == [] then 0
    else
      var init := answers[..|answers| - 1];
      assert forall i :: 0 <= i < |init| ==> init[i] == answers[i];
      CountAnswered(init) + (if answers[|answers| - 1].Some? then 1 else 0)
  }

  /** A correct answer is a set answer: the score never exceeds the answered count. */
  lemma {:induction false} CorrectAreAnswered(qs: seq<Question>, answers: seq<Option<int>>, n: nat)
    requires n <= |qs| && |answers| == |qs|
    ensures CorrectUpTo(qs, answers, n) <= CountAnswered(answers[..n])
  {
    if n > 0 {
      CorrectAreAnswered(qs, answers, n - 1);
      assert answers[..n][..n - 1] == answers[..n - 1];
    }
  }

  /**
   * `getUnansweredQuestions`: the 1-based numbers of the unset slots, in
   * ascending order.
   */
  function Unanswered(answers: seq<Option<int>>): (r: seq<nat>)
    ensures forall k :: 0 <= k < |r| ==> 1 <= r[k] <= |answers| && answers[r[k] - 1].None?
    ensures forall j, k :: 0 <= j < k < |r| ==> r[j] < r[k]
  {
    if answers == [] then []
    else
      var n := |answers|;
      var prev := Unanswered(answers[..n - 1]);
      prev + (if answers[n - 1].None? then [n] else [])
  }

  /** Every unset slot is listed. */
  lemma {:induction false} UnansweredComplete(answers: seq<Option<int>>)
    ensures forall i :: 0 <= i < |answers| && answers[i].None? ==> i + 1 in Unanswered(answers)
  {
    if answers != [] {
      var n := |answers|;
      var init := answers[..n - 1];
      UnansweredComplete(init);
      var r := Unanswered(answers);
      assert r == Unanswered(init) + (if answers[n - 1].None? then [n] else []);
      forall i | 0 <= i < n - 1 && answers[i].None?
        ensures i + 1 in r
      {
        assert init[i] == answers[i];
        assert i + 1 in Unanswered(init);
      }
    }
  }

  /** The unanswered list and the answered count add up to the number of slots. */
  lemma {:induction false} UnansweredCount(answers: seq<Option<int>>)
    ensures |Unanswered(answers)| + CountAnswered(answers) == |answers|
  {
    if answers != [] {
      var n := |answers|;
      var init := answers[..n - 1];
      UnansweredCount(init);
      assert Unanswered(answers) == Unanswered(init) + (if answers[n - 1].None? then [n] else []);
      assert CountAnswered(answers) == CountAnswered(init) + (if answers[n - 1].Some? then 1 else 0);
    }
  }

  /** Every slot is set exactly when no question is left unanswered. */
  lemma CompleteIffNoneUnanswered(answers: seq<Option<int>>)
    ensures (forall i :: 0 <= i < |answers| ==> answers[i].Some?) <==> Unanswered(answers) == []
  {
    if exists i :: 0 <= i < |answers| && answers[i].None? {
      var i :| 0 <= i < |answers| && answers[i].None?;
      UnansweredComplete(answers);
      assert i + 1 in Unanswered(answers);
    }
  }

  // ---------------------------------------------------------------------------
  // Answer tallies

  /**
   * `recordCorrectAnswer` / `recordIncorrectAnswer`: one more correct or
   * incorrect answer on `topic`; a topic without a tally is ignored.
   */
  function Tallied(stats: map<string, TopicTally>, topic: string, isCorrect: bool): map<string, TopicTally>
  {
    if topic !in stats then stats
    else if isCorrect then stats[topic := stats[topic].(correct := stats[topic].correct + 1)]
    else stats[topic := stats[topic].(incorrect := stats[topic].incorrect + 1)]
  }

  /**
   * Recording an answer adds exactly one to the correct or the incorrect
   * counter of the question's topic and changes nothing else, whatever the
   * slot held before.
   */
  lemma TalliedAddsOne(stats: map<string, TopicTally>, topic: string, isCorrect: bool)
    requires topic in stats
    ensures Tallied(stats, topic, isCorrect).Keys == stats.Keys
    ensures Tallied(stats, topic, isCorrect)[topic].total == stats[topic].total
    ensures Tallied(stats, topic, isCorrect)[topic].correct == stats[topic].correct + (if isCorrect then 1 else 0)
    ensures Tallied(stats, topic, isCorrect)[topic].incorrect == stats[topic].incorrect + (if isCorrect then 0 else 1)
    ensures forall t :: t in stats && t != topic ==> Tallied(stats, topic, isCorrect)[t] == stats[t]
  {
  }

  /**
   * As written, answering the only question of a topic twice counts two
   * answers against a total of one.
   */
  lemma ReAnswerOverCounts(topic: string)
    ensures var once := Tallied(map[topic := TopicTally(0, 0, 1)], topic, true);
            var twice := Tallied(once, topic, false);
            twice[topic].correct + twice[topic].incorrect == 2 > twice[topic].total
  {
  }

  /** Slot `a` of question `q` holds a right (or, for `right == false`, a wrong) answer on `topic`. */
  predicate Hit(q: Question, a: Option<int>, topic: string, right: bool)
  {
    q.topic == topic && a.Some? && ((a.value == q.correctAnswer) == right)
  }

  /** The right (or wrong) answers on `topic` among the first `n` slots. */
  function OutcomesUpTo(qs: seq<Question>, answers: seq<Option<int>>, topic: string, right: bool, n: nat): (c: nat)
    requires n <= |qs|
    ensures c <= n
  {
    if n == 0 then 0
    else OutcomesUpTo(qs, answers, topic, right, n - 1) + (if Hit(qs[n - 1], AnswerAt(answers, n - 1), topic, right) then 1 else 0)
  }

  lemma {:induction false} OutcomesUpToOverwrite(qs: seq<Question>, answers: seq<Option<int>>, topic: string, right: bool,
                                                 n: nat, i: nat, x: Option<int>)
    requires n <= |qs| && i < |answers|
    ensures OutcomesUpTo(qs, answers[i := x], topic, right, n) + (if i < n && Hit(qs[i], answers[i], topic, right) then 1 else 0)
         == OutcomesUpTo(qs, answers, topic, right, n) + (if i < n && Hit(qs[i], x, topic, right) then 1 else 0)
  {
    if n > 0 {
      OutcomesUpToOverwrite(qs, answers, topic, right, n - 1, i, x);
    }
  }

  /** The right and wrong answers on topic `t`, over all the questions. */
  function Outcomes(qs: seq<Question>, answers: seq<Option<int>>, t: string, right: bool): nat
  {
    OutcomesUpTo(qs, answers, t, right, |qs|)
  }

  /** What the tallies should hold: for each topic, the right and wrong answers among its set slots. */
  ghost predicate TalliesMatch(stats: map<string, TopicTally>, qs: seq<Question>, answers: seq<Option<int>>)
  {
    && stats.Keys == (set q | q in qs :: q.topic)
    && forall t :: t in stats ==>
      stats[t] == TopicTally(Outcomes(qs, answers, t, true), Outcomes(qs, answers, t, false), CountTopic(qs, t))
  }

  /** With every slot unset there are no right or wrong answers. */
  lemma {:induction false} NoOutcomeWhenUnset(qs: seq<Question>, answers: seq<Option<int>>,
                                               t: string, right: bool, n: nat)
    requires n <= |qs| && forall i :: 0 <= i < |answers| ==> answers[i].None?
    ensures OutcomesUpTo(qs, answers, t, right, n) == 0
  {
    if n > 0 {
      NoOutcomeWhenUnset(qs, answers, t, right, n - 1);
    }
  }

  /** A topic's right and wrong answers never exceed its question count. */
  lemma {:induction false} OutcomesWithinTotal(qs: seq<Question>, answers: seq<Option<int>>, t: string, n: nat)
    requires n <= |qs|
    ensures OutcomesUpTo(qs, answers, t, true, n) + OutcomesUpTo(qs, answers, t, false, n) <= CountTopic(qs[..n], t)
  {
    if n > 0 {
      OutcomesWithinTotal(qs, answers, t, n - 1);
      assert qs[..n][..n - 1] == qs[..n - 1];
    }
  }

  /** One answer fewer on a tally, right or wrong; a counter already at zero stays there. */
  function Withdrawn(t: TopicTally, right: bool): TopicTally
  {
    if right then t.(correct := if t.correct > 0 then t.correct - 1 else 0)
    else t.(incorrect := if t.incorrect > 0 then t.incorrect - 1 else 0)
  }

  /** The tallies after slot `previous` of question `q` is overwritten with `answer`. */
  function Retallied(stats: map<string, TopicTally>, q: Question, previous: Option<int>, answer: int): map<string, TopicTally>
    requires q.topic in stats
  {
    var t := stats[q.topic];
    var t' := if previous.Some? then Withdrawn(t, previous.value == q.correctAnswer) else t;
    stats[q.topic := if answer == q.correctAnswer then t'.(correct := t'.correct + 1)
                     else t'.(incorrect := t'.incorrect + 1)]
  }

  /** Re-tallying keeps the tally of one topic matching the answers. */
  lemma RetalliedTopic(stats: map<string, TopicTally>, qs: seq<Question>, answers: seq<Option<int>>, i: nat, x: int, t: string)
    requires |answers| == |qs| && i < |qs|
    requires TalliesMatch(stats, qs, answers) && qs[i].topic in stats && t in stats
    ensures Retallied(stats, qs[i], answers[i], x)[t] ==
      TopicTally(Outcomes(qs, answers[i := Some(x)], t, true), Outcomes(qs, answers[i := Some(x)], t, false), CountTopic(qs, t))
  {
    if t == qs[i].topic {
      RetalliedOwnTopic(stats, qs, answers, i, x);
    } else {
      OutcomesUpToOverwrite(qs, answers, t, true, |qs|, i, Some(x));
      OutcomesUpToOverwrite(qs, answers, t, false, |qs|, i, Some(x));
    }
  }

  /** Re-tallying moves the answered question's own topic from the old outcome to the new one. */
  lemma RetalliedOwnTopic(stats: map<string, TopicTally>, qs: seq<Question>, answers: seq<Option<int>>, i: nat, x: int)
    requires |answers| == |qs| && i < |qs|
    requires TalliesMatch(stats, qs, answers) && qs[i].topic in stats
    ensures var t := qs[i].topic;
      Retallied(stats, qs[i], answers[i], x)[t] ==
      TopicTally(Outcomes(qs, answers[i := Some(x)], t, true), Outcomes(qs, answers[i := Some(x)], t, false), CountTopic(qs, t))
  {
    var t := qs[i].topic;
    OutcomesUpToOverwrite(qs, answers, t, true, |qs|, i, Some(x));
    OutcomesUpToOverwrite(qs, answers, t, false, |qs|, i, Some(x));
    // the withdrawn answer was counted, so its counter is positive
    OutcomesUpToOverwrite(qs, answers, t, true, |qs|, i, None);
    OutcomesUpToOverwrite(qs, answers, t, false, |qs|, i, None);
  }

  /** Re-tallying an overwritten slot keeps the tallies matching the answers. */
  lemma RetalliedMatches(stats: map<string, TopicTally>, qs: seq<Question>, answers: seq<Option<int>>, i: nat, x: int)
    requires |answers| == |qs| && i < |qs|
    requires TalliesMatch(stats, qs, answers)
    ensures qs[i].topic in stats
    ensures TalliesMatch(Retallied(stats, qs[i], answers[i], x), qs, answers[i := Some(x)])
  {
    assert qs[i] in qs;
    forall t | t in stats
      ensures Retallied(stats, qs[i], answers[i], x)[t] ==
        TopicTally(Outcomes(qs, answers[i := Some(x)], t, true), Outcomes(qs, answers[i := Some(x)], t, false), CountTopic(qs, t))
    {
      RetalliedTopic(stats, qs, answers, i, x, t);
    }
  }

  /** While the tallies match the answers, no topic counts more answers than it has questions. */
  lemma MatchedTalliesWithinTotal(stats: map<string, TopicTally>, qs: seq<Question>, answers: seq<Option<int>>)
    ensures TalliesMatch(stats, qs, answers) ==>
      forall t :: t in stats ==> stats[t].correct + stats[t].incorrect <= stats[t].total
  {
    if TalliesMatch(stats, qs, answers) {
      forall t | t in stats
        ensures stats[t].correct + stats[t].incorrect <= stats[t].total
      {
        OutcomesWithinTotal(qs, answers, t, |qs|);
        assert qs[..|qs|] == qs;
      }
    }
  }

  /** A fresh session, every slot unset and totals counted from empty, has matching tallies. */
  lemma FreshTalliesMatch(qs: seq<Question>, answers: seq<Option<int>>)
    requires forall i :: 0 <= i < |answers| ==> answers[i].None?
    ensures TalliesMatch(AddTotals(map[], qs), qs, answers)
  {
    TalliesFromEmpty(qs);
    forall t, right: bool
      ensures Outcomes(qs, answers, t, right) == 0
    {
      NoOutcomeWhenUnset(qs, answers, t, right, |qs|);
    }
  }

  // ---------------------------------------------------------------------------
  // The session

  /** `shuffleArray` on a fresh array holding the loaded questions. */
  method ShuffledCopy(loaded: seq<Question>, picks: seq<nat>) returns (r: seq<Question>)
    requires App.ValidPicks(picks, |loaded|)
    ensures r == App.Shuffled(loaded, picks)
  {
    var a := new Question[|loaded|](i requires 0 <= i < |loaded| => loaded[i]);
    assert a[..] == loaded;
    App.ShuffleArray(a, picks);
    r := a[..];
  }

  class QuizSession {
    var config: QuizConfig
    var questions: seq<Question>
    var currentQuestionIndex: nat
    var userAnswers: seq<Option<int>>
    /** Milliseconds; the source's `null` start reads as 0 in the elapsed-time subtraction. */
    var startTime: int
    var topicStats: map<string, TopicTally>

    /** One answer slot per question. */
    predicate Valid()
      reads this
    {
      |userAnswers| == |questions|
    }

    /** The cursor points at a question, or at 0 when there is none. */
    predicate CursorInRange()
      reads this
    {
      currentQuestionIndex == 0 || currentQuestionIndex < |questions|
    }

    constructor (config: QuizConfig)
      ensures Valid() && CursorInRange()
      ensures this.config == config && questions == [] && userAnswers == []
      ensures currentQuestionIndex == 0 && startTime == 0 && topicStats == map[]
    {
      this.config := config;
      questions := [];
      currentQuestionIndex := 0;
      userAnswers := [];
      startTime := 0;
      topicStats := map[];
    }

    /**
     * `initialize` without the provider call: `loaded` is what the provider
     * returned, `picks` the shuffle's random draws and `now` the clock. The
     * questions are shuffled and cut to `questionCount`, every answer slot is
     * unset and the topic totals are counted onto the existing tallies.
     */
    method Initialize(loaded: seq<Question>, picks: seq<nat>, now: int)
      requires App.ValidPicks(picks, |loaded|)
      modifies this
      ensures Valid()
      ensures startTime == now
      ensures questions == Take(App.Shuffled(loaded, picks), config.questionCount)
      ensures |questions| == if config.questionCount < |loaded| then config.questionCount else |loaded|
      ensures multiset(questions) <= multiset(loaded)
      ensures |loaded| <= config.questionCount ==> multiset(questions) == multiset(loaded)
      ensures forall i :: 0 <= i < |userAnswers| ==> userAnswers[i] == None
      ensures topicStats == AddTotals(old(topicStats), questions)
      ensures config == old(config) && currentQuestionIndex == old(currentQuestionIndex)
    {
      startTime := now;
      var shuffled := ShuffledCopy(loaded, picks);
      App.ShuffledPermutes(loaded, picks);
      questions := Take(shuffled, config.questionCount);
      TakeSubMultiset(shuffled, config.questionCount);
      userAnswers := seq(|questions|, _ => None);
      InitializeTopicStats();
    }

    /** `initializeTopicStats`: one more `total` per question on its topic. */
    method InitializeTopicStats()
      modifies this`topicStats
      ensures topicStats == AddTotals(old(topicStats), questions)
    {
      var i := 0;
      while i < |questions|
        invariant 0 <= i <= |questions|
        invariant topicStats == AddTotals(old(topicStats), questions[..i])
      {
        var topic := questions[i].topic;
        if topic !in topicStats {
          topicStats := topicStats[topic := TopicTally(0, 0, 0)];
        }
        topicStats := topicStats[topic := topicStats[topic].(total := topicStats[topic].total + 1)];
        assert questions[..i + 1][..i] == questions[..i];
        i := i + 1;
      }
      assert questions[..i] == questions;
    }

    /**
     * `recordAnswer`: store the answer in its slot and count it as correct or
     * incorrect for the question's topic. Nothing withdraws the count of an
     * answer the slot held before.
     */
    method RecordAnswer(questionIndex: nat, answerIndex: int) returns (isCorrect: bool)
      requires Valid() && questionIndex < |questions|
      modifies this
      ensures Valid()
      ensures userAnswers == old(userAnswers)[questionIndex := Some(answerIndex)]
      ensures isCorrect <==> answerIndex == questions[questionIndex].correctAnswer
      ensures topicStats == Tallied(old(topicStats), questions[questionIndex].topic, isCorrect)
      ensures questions == old(questions) && currentQuestionIndex == old(currentQuestionIndex)
      ensures config == old(config) && startTime == old(startTime)
    {
      userAnswers := userAnswers[questionIndex := Some(answerIndex)];
      var question := questions[questionIndex];
      isCorrect := answerIndex == question.correctAnswer;
      if isCorrect {
        RecordCorrectAnswer(question.topic);
      } else {
        RecordIncorrectAnswer(question.topic);
      }
    }

    method RecordCorrectAnswer(topic: string)
      modifies this`topicStats
      ensures topicStats == Tallied(old(topicStats), topic, true)
    {
      if topic in topicStats {
        topicStats := topicStats[topic := topicStats[topic].(correct := topicStats[topic].correct + 1)];
      }
    }

    method RecordIncorrectAnswer(topic: string)
      modifies this`topicStats
      ensures topicStats == Tallied(old(topicStats), topic, false)
    {
      if topic in topicStats {
        topicStats := topicStats[topic := topicStats[topic].(incorrect := topicStats[topic].incorrect + 1)];
      }
    }

    /**
     * Answer recording that withdraws the tally of the answer a slot held
     * before counting the new one, so the tallies keep matching the answers.
     */
    method RecordAnswerRetallied(questionIndex: nat, answerIndex: int) returns (isCorrect: bool)
      requires Valid() && questionIndex < |questions|
      requires TalliesMatch(topicStats, questions, userAnswers)
      modifies this`userAnswers, this`topicStats
      ensures Valid()
      ensures userAnswers == old(userAnswers)[questionIndex := Some(answerIndex)]
      ensures isCorrect <==> answerIndex == questions[questionIndex].correctAnswer
      ensures topicStats == Retallied(old(topicStats), questions[questionIndex], old(userAnswers)[questionIndex], answerIndex)
      ensures TalliesMatch(topicStats, questions, userAnswers)
    {
      var question := questions[questionIndex];
      isCorrect := answerIndex == question.correctAnswer;
      RetalliedMatches(topicStats, questions, userAnswers, questionIndex, answerIndex);
      topicStats := Retallied(topicStats, question, userAnswers[questionIndex], answerIndex);
      userAnswers := userAnswers[questionIndex := Some(answerIndex)];
    }

    /** `nextQuestion`: advance unless at the last question. */
    method NextQuestion() returns (moved: bool)
      modifies this`currentQuestionIndex
      ensures moved <==> old(currentQuestionIndex) + 1 < |questions|
      ensures currentQuestionIndex == if moved then old(currentQuestionIndex) + 1 else old(currentQuestionIndex)
      ensures old(CursorInRange()) ==> CursorInRange()
    {
      if currentQuestionIndex < |questions| - 1 {
        currentQuestionIndex := currentQuestionIndex + 1;
        moved := true;
      } else {
        moved := false;
      }
    }

    /** `previousQuestion`: step back unless at the first question. */
    method PreviousQuestion() returns (moved: bool)
      modifies this`currentQuestionIndex
      ensures moved <==> old(currentQuestionIndex) > 0
      ensures currentQuestionIndex == if moved then old(currentQuestionIndex) - 1 else old(currentQuestionIndex)
      ensures old(CursorInRange()) ==> CursorInRange()
    {
      if currentQuestionIndex > 0 {
        currentQuestionIndex := currentQuestionIndex - 1;
        moved := true;
      } else {
        moved := false;
      }
    }

    /** `getQuestion`: the question at `index`, or nothing (`undefined`) past either end. */
    function GetQuestion(index: int): (q: Option<Question>)
      reads this
      ensures q.Some? <==> 0 <= index < |questions|
      ensures q.Some? ==> q.value == questions[index] && q.value in questions
    {
      if 0 <= index < |questions| then Some(questions[index]) else None
    }

    /** `getCurrentQuestion`: the question under the cursor; always present while the cursor is in range and there are questions. */
    function GetCurrentQuestion(): (q: Option<Question>)
      reads this
      ensures q.Some? <==> currentQuestionIndex < |questions|
      ensures CursorInRange() && |questions| > 0 ==> q.Some?
    {
      GetQuestion(currentQuestionIndex)
    }

    /** `getTotalQuestions`. */
    function GetTotalQuestions(): (n: nat)
      reads this
      ensures Valid() ==> n == |userAnswers|
      ensures n == |questions|
    {
      |questions|
    }

    /**
     * `getTopicPerformance`: the live tallies. While they match the answer
     * slots, as the corrected recording keeps them, no topic reports more
     * right and wrong answers than it has questions.
     */
    function GetTopicPerformance(): (stats: map<string, TopicTally>)
      reads this
      ensures stats == topicStats
      ensures TalliesMatch(topicStats, questions, userAnswers) ==>
        forall t :: t in stats ==> stats[t].correct + stats[t].incorrect <= stats[t].total
    {
      MatchedTalliesWithinTotal(topicStats, questions, userAnswers);
      topicStats
    }

    /** `getTimeElapsed` at time `now`: whole seconds since the start, rounded down. */
    function GetTimeElapsed(now: int): (seconds: int)
      reads this
      ensures 1000 * seconds <= now - startTime < 1000 * seconds + 1000
      ensures now >= startTime ==> seconds >= 0
    {
      (now - startTime) / 1000
    }

    /** `getProgress`: the 1-based cursor, the question and answer counts and the rounded share answered. */
    function GetProgress(): (p: ProgressInfo)
      reads this
      requires Valid()
      ensures p.current == currentQuestionIndex + 1 && p.total == |questions|
      ensures p.answered == CountAnswered(userAnswers) && p.answered <= p.total
      ensures p.percentage <= 100
      ensures p.percentage == 100 <== p.answered == p.total > 0
      ensures p.percentage == 0 <== p.answered == 0
      ensures p.percentage == RoundPercent(p.answered, p.total)
    {
      var answered := CountAnswered(userAnswers);
      ProgressInfo(currentQuestionIndex + 1, |questions|, answered, RoundPercent(answered, |questions|))
    }

    /** `getScore`: the questions whose slot holds the correct answer, and their rounded share. */
    function GetScore(): (s: Score)
      reads this
      requires Valid()
      ensures s.total == |questions| && s.correct <= s.total
      ensures s.correct == CountCorrect(questions, userAnswers)
      ensures s.correct <= CountAnswered(userAnswers)
      ensures s.correct == s.total <==> forall i :: 0 <= i < |questions| ==> userAnswers[i] == Some(questions[i].correctAnswer)
      ensures s.percentage <= 100 && (s.correct == s.total > 0 ==> s.percentage == 100)
      ensures s.percentage == RoundPercent(s.correct, s.total)
    {
      var correct := CountCorrect(questions, userAnswers);
      AllCorrect(questions, userAnswers, |questions|);
      CorrectAreAnswered(questions, userAnswers, |questions|);
      assert userAnswers[..|questions|] == userAnswers;
      Score(correct, |questions|, RoundPercent(correct, |questions|))
    }

    /** `getTopics`: the distinct topics of the session's questions, in order of first appearance. */
    function GetTopics(): (ts: seq<string>)
      reads this
      ensures forall i, j :: 0 <= i < j < |ts| ==> ts[i] != ts[j]
      ensures forall t :: t in ts <==> exists q :: q in questions && q.topic == t
      ensures forall i, j :: 0 <= i < j < |ts| ==> FirstOn(questions, ts[i]) < FirstOn(questions, ts[j])
    {
      DistinctTopicsFirstSeen(questions);
      DistinctTopics(questions)
    }

    /** `isComplete`: every answer slot is set, that is, no question is left unanswered. */
    function IsComplete(): (b: bool)
      reads this
      ensures b <==> Unanswered(userAnswers) == []
      ensures b <==> CountAnswered(userAnswers) == |userAnswers|
    {
      CompleteIffNoneUnanswered(userAnswers);
      forall i | 0 <= i < |userAnswers| :: userAnswers[i].Some?
    }

    /** `getUnansweredQuestions`. */
    function GetUnansweredQuestions(): (r: seq<nat>)
      reads this
      ensures forall k :: 0 <= k < |r| ==> 1 <= r[k] <= |userAnswers| && userAnswers[r[k] - 1].None?
      ensures forall i :: 0 <= i < |userAnswers| && userAnswers[i].None? ==> i + 1 in r
      ensures forall j, k :: 0 <= j < k < |r| ==> r[j] < r[k]
      ensures |r| + CountAnswered(userAnswers) == |userAnswers|
    {
      UnansweredComplete(userAnswers);
      UnansweredCount(userAnswers);
      Unanswered(userAnswers)
    }

    /**
     * `calculateResults` at time `now` (milliseconds): the score, the topics,
     * the whole seconds since the start, and copies of the answers, the
     * questions and the tallies.
     */
    function CalculateResults(now: int): (r: QuizResult)
      reads this
      requires Valid()
      ensures r.totalQuestions == |questions| && r.correctAnswers <= r.totalQuestions
      ensures r.correctAnswers == CountCorrect(questions, userAnswers) && r.score <= 100
      ensures r.questions == questions && r.userAnswers == userAnswers && r.topicPerformance == topicStats
      ensures r.score == RoundPercent(r.correctAnswers, r.totalQuestions)
      ensures r.topics == DistinctTopics(questions)
      ensures forall t :: t in r.topics <==> exists q :: q in questions && q.topic == t
      ensures forall i, j :: 0 <= i < j < |r.topics| ==> r.topics[i] != r.topics[j]
      ensures forall i, j :: 0 <= i < j < |r.topics| ==> FirstOn(questions, r.topics[i]) < FirstOn(questions, r.topics[j])
      ensures 1000 * r.timeSpent <= now - startTime < 1000 * r.timeSpent + 1000
      ensures r.timestamp == now
    {
      var score := GetScore();
      QuizResult(score.percentage, score.correct, score.total, GetTopics(), now,
                 GetTimeElapsed(now), userAnswers, questions, topicStats)
    }
  }

  /**
   * A worked session: three questions loaded for a five-question quiz give a
   * three-question session with nothing answered.
   */
  method ThreeOfFiveSession(q0: Question, q1: Question, q2: Question) returns (session: QuizSession)
    ensures fresh(session) && session.Valid() && |session.questions| == 3
    ensures multiset(session.questions) == multiset{q0, q1, q2}
    ensures CountAnswered(session.userAnswers) == 0
  {
    session := new QuizSession(QuizConfig(["upper-limb"], 5));
    session.Initialize([q0, q1, q2], [0, 0, 0], 0);
    assert multiset([q0, q1, q2]) == multiset{q0, q1, q2};
  }

  /** Answering every question of a three-question session correctly scores 3 of 3, 100 per cent. */
  method AnswerAllCorrectly(session: QuizSession) returns (score: Score, complete: bool)
    requires session.Valid() && |session.questions| == 3
    modifies session
    ensures score == Score(3, 3, 100) && complete
  {
    var qs := session.questions;
    var ok := session.RecordAnswer(0, qs[0].correctAnswer);
    assert session.questions == qs;
    ok := session.RecordAnswer(1, qs[1].correctAnswer);
    assert session.questions == qs;
    ok := session.RecordAnswer(2, qs[2].correctAnswer);
    assert session.userAnswers[0] == Some(qs[0].correctAnswer);
    assert session.userAnswers[1] == Some(qs[1].correctAnswer);
    score := session.GetScore();
    complete := session.IsComplete();
  }
}

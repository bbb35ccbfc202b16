/**
 * The analytics module: per-question counters, the analytics variant of the
 * weak-area ranking, the flattened topic catalog, the topics due for review,
 * the three kinds of study recommendation, the score trend and the study
 * goals. Storage reads and writes become parameters and results: the
 * progress record is passed in, and the current time is a parameter in
 * milliseconds.
 */
module Analytics {
  import opened Common
  import opened Progress
  import Ranking
  import Text
  import App
  import QuizEngine
  import Storage
  import StorageFacts

  // ---------------------------------------------------------------------------
  // Filtering in order

  /** The elements of `s` that `keep` accepts, in their order in `s`: JavaScript's `filter`. */
  function Filter<T(!new)>(s: seq<T>, keep: T -> bool): (r: seq<T>)
    ensures |r| <= |s|
    ensures forall x :: x in r <==> x in s && keep(x)
  {
    if s == [] then []
    else
      var init := s[..|s| - 1];
      var x := s[|s| - 1];
      assert forall y :: y in s <==> y in init || y == x;
      Filter(init, keep) + (if keep(x) then [x] else [])
  }

  /**
   * The filter keeps exactly the accepted positions, in increasing order:
   * `idx` lists them, and `Filter(s, keep)[k]` is `s[idx[k]]`.
   */
  lemma {:induction false} FilterPositions<T(!new)>(s: seq<T>, keep: T -> bool) returns (idx: seq<nat>)
    ensures |idx| == |Filter(s, keep)|
    ensures forall k :: 0 <= k < |idx| ==> idx[k] < |s| && s[idx[k]] == Filter(s, keep)[k]
    ensures forall k, l :: 0 <= k < l < |idx| ==> idx[k] < idx[l]
    ensures forall i :: 0 <= i < |s| && keep(s[i]) ==> i in idx
  {
    if s == [] {
      idx := [];
    } else {
      var init := s[..|s| - 1];
      var x := s[|s| - 1];
      var prev := FilterPositions(init, keep);
      assert forall k :: 0 <= k < |prev| ==> prev[k] < |init|;
      idx := prev + (if keep(x) then [|s| - 1] else []);
      assert Filter(s, keep) == Filter(init, keep) + (if keep(x) then [x] else []);
      forall i | 0 <= i < |s| && keep(s[i])
        ensures i in idx
      {
        if i < |s| - 1 {
          assert init[i] == s[i];
          assert i in prev;
        }
      }
    }
  }

  // ---------------------------------------------------------------------------
  // trackQuestionPerformance

  /** The integer counters kept per question; the floating-point averages are not modelled. */
  datatype QuestionStats = QuestionStats(attempts: nat, correct: nat, totalTime: int)

  /** The counters of a question, or zeros for a question not seen before. */
  function StatsOf(perf: map<string, QuestionStats>, questionId: string): QuestionStats
  {
    if questionId in perf then perf[questionId] else QuestionStats(0, 0, 0)
  }

  /**
   * `trackQuestionPerformance` on the counters: one more attempt, one more
   * correct answer when the answer was right, the time added; every other
   * question keeps its counters.
   */
  function Track(perf: map<string, QuestionStats>, questionId: string, isCorrect: bool, timeSpent: int): (r: map<string, QuestionStats>)
    ensures r.Keys == perf.Keys + {questionId}
    ensures r[questionId].attempts == StatsOf(perf, questionId).attempts + 1
    ensures r[questionId].correct == StatsOf(perf, questionId).correct + (if isCorrect then 1 else 0)
    ensures r[questionId].totalTime == StatsOf(perf, questionId).totalTime + timeSpent
    ensures forall q :: q in perf && q != questionId ==> r[q] == perf[q]
  {
    var s := StatsOf(perf, questionId);
    perf[questionId := QuestionStats(s.attempts + 1, s.correct + (if isCorrect then 1 else 0), s.totalTime + timeSpent)]
  }

  /** No question has more correct answers than attempts. */
  predicate CountersBounded(perf: map<string, QuestionStats>)
  {
    forall q :: q in perf ==> perf[q].correct <= perf[q].attempts
  }

  /** Tracking an answer keeps every question's correct count within its attempts. */
  lemma TrackKeepsBound(perf: map<string, QuestionStats>, questionId: string, isCorrect: bool, timeSpent: int)
    requires CountersBounded(perf)
    ensures CountersBounded(Track(perf, questionId, isCorrect, timeSpent))
  {
  }

  /** Tracking a run of answers to one question, in order, with the same time spent on each. */
  function TrackAll(perf: map<string, QuestionStats>, questionId: string, outcomes: seq<bool>, timeSpent: int): map<string, QuestionStats>
  {
    if outcomes == [] then perf
    else Track(TrackAll(perf, questionId, outcomes[..|outcomes| - 1], timeSpent), questionId, outcomes[|outcomes| - 1], timeSpent)
  }

  /** How many of the outcomes are correct answers. */
  function CountTrue(outcomes: seq<bool>): (n: nat)
    ensures n <= |outcomes|
  {
    if outcomes == [] then 0
    else CountTrue(outcomes[..|outcomes| - 1]) + (if outcomes[|outcomes| - 1] then 1 else 0)
  }

  /**
   * Starting from a question never seen, after a run of answers the counters
   * hold the number of answers and the number of right ones.
   */
  lemma {:induction false} TrackAllCounts(perf: map<string, QuestionStats>, questionId: string, outcomes: seq<bool>, timeSpent: int)
    requires questionId !in perf
    ensures var r := TrackAll(perf, questionId, outcomes, timeSpent);
      && StatsOf(r, questionId).attempts == |outcomes|
      && StatsOf(r, questionId).correct == CountTrue(outcomes)
      && StatsOf(r, questionId).totalTime == |outcomes| * timeSpent
  {
    if outcomes != [] {
      TrackAllCounts(perf, questionId, outcomes[..|outcomes| - 1], timeSpent);
    }
  }

  // ---------------------------------------------------------------------------
  // getAllTopics

  /** The topic ids of the groups, group by group. */
  function GroupTopics(groups: seq<App.Group>): (r: seq<string>)
    ensures forall t :: t in r <==> exists g :: g in groups && t in g.topics
  {
    if groups == [] then []
    else
      var init := groups[..|groups| - 1];
      assert forall g :: g in groups <==> g in init || g == groups[|groups| - 1];
      GroupTopics(init) + groups[|groups| - 1].topics
  }

  /** The topic ids of the subjects, subject by subject. */
  function SubjectTopics(subjects: seq<App.SubjectEntry>): (r: seq<string>)
    ensures forall t :: t in r <==> exists s :: s in subjects && t in GroupTopics(s.groups)
  {
    if subjects == [] then []
    else
      var init := subjects[..|subjects| - 1];
      assert forall s :: s in subjects <==> s in init || s == subjects[|subjects| - 1];
      SubjectTopics(init) + GroupTopics(subjects[|subjects| - 1].groups)
  }

  /** `getAllTopics`: every topic id of the catalog, in catalog order. */
  function AllTopics(): seq<string>
  {
    SubjectTopics(App.Catalog)
  }

  /** A topic id is in the flattened list exactly when the catalog lists it under one of its subjects. */
  lemma AllTopicsListed(t: string)
    ensures t in AllTopics() <==> exists i :: 0 <= i < |App.Catalog| && App.ListedUnder(i, t)
  {
    if t in AllTopics() {
      var s :| s in App.Catalog && t in GroupTopics(s.groups);
      var i :| 0 <= i < |App.Catalog| && App.Catalog[i] == s;
      assert App.ListedUnder(i, t);
    }
    if exists i :: 0 <= i < |App.Catalog| && App.ListedUnder(i, t) {
      var i :| 0 <= i < |App.Catalog| && App.ListedUnder(i, t);
      assert t in GroupTopics(App.Catalog[i].groups);
    }
  }

  /** Every topic the recommendations can suggest as new is known to the list classifier. */
  lemma AllTopicsClassified(t: string)
    requires t in AllTopics()
    ensures App.SubjectFromTopic(t).Some?
  {
    AllTopicsListed(t);
    var i :| 0 <= i < |App.Catalog| && App.ListedUnder(i, t);
    App.CatalogClassifiesAsItsSubject(i, t);
  }

  // ---------------------------------------------------------------------------
  // getTopicsForReview

  /** Seven days in milliseconds. */
  const WeekMillis: int := 7 * 24 * 60 * 60 * 1000

  /** How many topics are offered for review at most. */
  const ReviewLimit: nat := 5

  /**
   * A topic is due when it has no activity time (a missing or zero
   * `lastActive` is falsy) or was last active more than a week before `now`.
   */
  predicate Due(r: TopicRecord, now: int)
  {
    match r.lastActive
    case None => true
    case Some(t) => t == 0 || t < now - WeekMillis
  }

  /** The practised topics, in table order, that are due for review. */
  function DueTopics(p: UserProgress, now: int): seq<string>
  {
    Filter(p.topicOrder, t => t in p.topics && Due(p.topics[t], now))
  }

  /** `getTopicsForReview`: the first five due topics. */
  function TopicsForReview(p: UserProgress, now: int): seq<string>
  {
    Take(DueTopics(p, now), ReviewLimit)
  }

  /** At most five topics, each a practised topic that is due, the first ones in table order. */
  lemma TopicsForReviewFacts(p: UserProgress, now: int)
    requires p.Valid()
    ensures var r := TopicsForReview(p, now);
      && |r| <= ReviewLimit
      && (forall t :: t in r ==> t in p.topics && Due(p.topics[t], now))
      && r == DueTopics(p, now)[..|r|]
      && (|r| < ReviewLimit ==> forall t :: t in p.topics && Due(p.topics[t], now) ==> t in r)
  {
    var d := DueTopics(p, now);
    var r := TopicsForReview(p, now);
    forall t | t in r
      ensures t in d
    {
      var k :| 0 <= k < |r| && r[k] == t;
      assert d[k] == t;
    }
  }

  /** When no topic has an activity time, the first five topics of the table are all offered. */
  lemma NeverActiveAllDue(p: UserProgress, now: int)
    requires p.Valid()
    requires forall t :: t in p.topics ==> p.topics[t].lastActive == None
    ensures TopicsForReview(p, now) == Take(p.topicOrder, ReviewLimit)
  {
    FilterAll(p.topicOrder, t => t in p.topics && Due(p.topics[t], now));
  }

  /** A filter that accepts every element keeps the sequence. */
  lemma {:induction false} FilterAll<T(!new)>(s: seq<T>, keep: T -> bool)
    requires forall x :: x in s ==> keep(x)
    ensures Filter(s, keep) == s
  {
    if s != [] {
      FilterAll(s[..|s| - 1], keep);
      assert s[..|s| - 1] + [s[|s| - 1]] == s;
    }
  }

  /**
   * Since `updateProgress` never sets a topic's activity time, after an
   * update of a record whose topics carry none, every practised topic is due
   * at any time and the review list is the first five topics of the table.
   */
  lemma ReviewAfterUpdate(stored: Option<UserProgress>, r: QuizEngine.QuizResult, now: int, later: int)
    requires stored.Some? ==> stored.value.Valid()
    requires stored.Some? ==> forall t :: t in stored.value.topics ==> stored.value.topics[t].lastActive == None
    ensures var q := Storage.UpdatedProgress(stored, r, now);
      TopicsForReview(q, later) == Take(q.topicOrder, ReviewLimit)
  {
    StorageFacts.TopicsNeverStamped(stored, r, now);
    StorageFacts.UpdatedProgressValid(stored, r, now);
    NeverActiveAllDue(Storage.UpdatedProgress(stored, r, now), later);
  }

  // ---------------------------------------------------------------------------
  // updateWeakAreas

  /** The analytics ranking: the storage one, but each area also carries the topic's `lastActive`. */
  function WithTrackedWeakAreas(p: UserProgress): UserProgress
    requires p.Valid()
  {
    p.(weakAreas := Ranking.RankWeakAreas(Ranking.Candidates(p.topicOrder, p.topics, true)))
  }

  /** `updateWeakAreas` of the analytics module, on the loaded record. */
  method UpdateWeakAreas(p: UserProgress) returns (q: UserProgress)
    requires p.Valid()
    ensures q == WithTrackedWeakAreas(p)
  {
    var weakAreas := Ranking.CollectWeakAreas(p.topicOrder, p.topics, true);
    q := p.(weakAreas := Ranking.RankWeakAreas(weakAreas));
  }

  /**
   * At most ten areas, sorted high before medium and by ascending accuracy;
   * each is a practised topic with at least five attempts and an accuracy
   * under 70, high exactly under 50, with the topic's activity time; every
   * qualifying topic is listed when at most ten qualify; nothing else changes.
   */
  lemma TrackedWeakAreasFacts(p: UserProgress)
    requires p.Valid()
    ensures var q := WithTrackedWeakAreas(p);
      && q == p.(weakAreas := q.weakAreas)
      && |q.weakAreas| <= Ranking.WeakLimit
      && Ranking.SortedAreas(q.weakAreas)
      && (forall a :: a in q.weakAreas ==>
            && a.topic in p.topics
            && p.topics[a.topic].attempted >= Ranking.MinAttempts
            && a.accuracy == p.topics[a.topic].accuracy < 70
            && (a.priority == High <==> a.accuracy < 50)
            && (a.priority == Priority.Medium <==> 50 <= a.accuracy)
            && a.lastPracticed == p.topics[a.topic].lastActive)
      && (|Ranking.Candidates(p.topicOrder, p.topics, true)| <= Ranking.WeakLimit ==>
            forall t :: t in p.topics && Ranking.Weak(p.topics[t]) ==> Ranking.AreaOf(t, p.topics[t], true) in q.weakAreas)
  {
    var c := Ranking.Candidates(p.topicOrder, p.topics, true);
    var q := WithTrackedWeakAreas(p);
    Ranking.RankedAreas(c);
    forall a | a in q.weakAreas
      ensures a in c
    {
      assert a in multiset(q.weakAreas);
    }
    if |c| <= Ranking.WeakLimit {
      forall t | t in p.topics && Ranking.Weak(p.topics[t])
        ensures Ranking.AreaOf(t, p.topics[t], true) in q.weakAreas
      {
        assert Ranking.AreaOf(t, p.topics[t], true) in multiset(c);
      }
    }
  }

  /** A weak area without its activity time, as the storage ranking builds it. */
  function Unstamped(a: WeakArea): WeakArea
  {
    a.(lastPracticed := None)
  }

  function UnstampAll(s: seq<WeakArea>): (r: seq<WeakArea>)
    ensures |r| == |s| && forall k :: 0 <= k < |s| ==> r[k] == Unstamped(s[k])
  {
    if s == [] then [] else [Unstamped(s[0])] + UnstampAll(s[1..])
  }

  /** The candidates of the two rankings differ only in the activity times. */
  lemma {:induction false} CandidatesUnstamped(order: seq<string>, topics: map<string, TopicRecord>)
    requires forall t :: t in order ==> t in topics
    ensures UnstampAll(Ranking.Candidates(order, topics, true)) == Ranking.Candidates(order, topics, false)
  {
    if order != [] {
      CandidatesUnstamped(order[..|order| - 1], topics);
    }
  }

  lemma UnstampCons(a: WeakArea, s: seq<WeakArea>)
    ensures UnstampAll([a] + s) == [Unstamped(a)] + UnstampAll(s)
  {
    assert ([a] + s)[1..] == s;
  }

  lemma UnstampAppend(s: seq<WeakArea>, t: seq<WeakArea>)
    ensures UnstampAll(s + t) == UnstampAll(s) + UnstampAll(t)
  {
  }

  lemma UnstampTake(s: seq<WeakArea>, n: nat)
    ensures UnstampAll(Take(s, n)) == Take(UnstampAll(s), n)
  {
  }

  /** Inserting ignores the activity time, so inserting and then clearing it is clearing it and then inserting. */
  lemma {:induction false} InsertUnstamped(x: WeakArea, s: seq<WeakArea>)
    ensures UnstampAll(Ranking.InsertArea(x, s)) == Ranking.InsertArea(Unstamped(x), UnstampAll(s))
  {
    var u := UnstampAll(s);
    if s == [] {
      assert UnstampAll([x]) == [Unstamped(x)];
    } else if Ranking.Less(x, s[0]) {
      assert Ranking.Less(Unstamped(x), u[0]);
      UnstampCons(x, s);
    } else {
      assert !Ranking.Less(Unstamped(x), u[0]);
      InsertUnstamped(x, s[1..]);
      UnstampCons(s[0], Ranking.InsertArea(x, s[1..]));
      assert u[1..] == UnstampAll(s[1..]);
    }
  }

  lemma {:induction false} SortUnstamped(s: seq<WeakArea>)
    ensures UnstampAll(Ranking.SortAreas(s)) == Ranking.SortAreas(UnstampAll(s))
  {
    if s != [] {
      var init := s[..|s| - 1];
      var last := s[|s| - 1];
      var u := UnstampAll(s);
      assert u[..|u| - 1] == UnstampAll(init) && u[|u| - 1] == Unstamped(last) by {
        assert s == init + [last];
        UnstampAppend(init, [last]);
      }
      SortUnstamped(init);
      InsertUnstamped(last, Ranking.SortAreas(init));
    }
  }

  /**
   * The two `updateWeakAreas` agree: the analytics ranking, with the activity
   * times cleared, is the storage ranking of the same record, area for area.
   */
  lemma RankingsAgree(p: UserProgress)
    requires p.Valid()
    ensures UnstampAll(WithTrackedWeakAreas(p).weakAreas) == Storage.WithWeakAreas(p).weakAreas
  {
    var c := Ranking.Candidates(p.topicOrder, p.topics, true);
    var sorted := Ranking.SortAreas(c);
    assert WithTrackedWeakAreas(p).weakAreas == Take(sorted, Ranking.WeakLimit);
    assert Storage.WithWeakAreas(p).weakAreas
        == Take(Ranking.SortAreas(Ranking.Candidates(p.topicOrder, p.topics, false)), Ranking.WeakLimit);
    CandidatesUnstamped(p.topicOrder, p.topics);
    SortUnstamped(c);
    UnstampTake(sorted, Ranking.WeakLimit);
  }

  // ---------------------------------------------------------------------------
  // getStudyRecommendations

  datatype RecommendationKind = HighPriority | Unpracticed | Review

  datatype Recommendation = Recommendation(kind: RecommendationKind, message: string, topics: seq<string>)

  /** How many topics the unpracticed and review recommendations name at most. */
  const SuggestLimit: nat := 3

  /** The position of a kind in the recommendation list. */
  function KindRank(k: RecommendationKind): nat
  {
    match k
    case HighPriority => 0
    case Unpracticed => 1
    case Review => 2
  }

  /** The topics of the areas, in order: `map(a => a.topic)`. */
  function AreaTopics(areas: seq<WeakArea>): (r: seq<string>)
    ensures |r| == |areas| && forall k :: 0 <= k < |areas| ==> r[k] == areas[k].topic
  {
    if areas == [] then [] else [areas[0].topic] + AreaTopics(areas[1..])
  }

  /** The display names of the topics, in order: `map(formatTopicName)`. */
  function DisplayNames(topics: seq<string>): (r: seq<string>)
    ensures |r| == |topics| && forall k :: 0 <= k < |topics| ==> r[k] == Text.FormatTopicName(topics[k])
  {
    if topics == [] then [] else [Text.FormatTopicName(topics[0])] + DisplayNames(topics[1..])
  }

  /** The high-priority weak areas' topics, in ranking order. */
  function HighTopics(p: UserProgress): seq<string>
  {
    AreaTopics(Filter(p.weakAreas, (a: WeakArea) => a.priority == High))
  }

  /** The catalog topics not practised yet, in catalog order. */
  function UnpracticedTopics(p: UserProgress): seq<string>
  {
    Filter(AllTopics(), t => t !in p.topics)
  }

  /** The recommendation of one kind, or none when its list is empty. */
  function Recommend(kind: RecommendationKind, prefix: string, topics: seq<string>): (r: seq<Recommendation>)
    ensures |r| <= 1 && (r != [] <==> topics != [])
    ensures forall x :: x in r ==> x.kind == kind && x.topics == topics
  {
    if |topics| > 0 then [Recommendation(kind, prefix + Text.Join(DisplayNames(topics), ", "), topics)] else []
  }

  /** `getStudyRecommendations` on the loaded record, at time `now`. */
  function StudyRecommendations(p: UserProgress, now: int): seq<Recommendation>
  {
    Recommend(HighPriority, "Focus on ", HighTopics(p))
    + Recommend(Unpracticed, "Try these new topics: ", Take(UnpracticedTopics(p), SuggestLimit))
    + Recommend(Review, "Review ", Take(TopicsForReview(p, now), SuggestLimit))
  }

  /** The recommendation of the kind, if the list holds one. */
  predicate HasKind(recs: seq<Recommendation>, kind: RecommendationKind)
  {
    exists k :: 0 <= k < |recs| && recs[k].kind == kind
  }

  /** Three lists of at most one recommendation each, of the three kinds in order, laid end to end. */
  lemma ThreeRecommendations(x: seq<Recommendation>, y: seq<Recommendation>, z: seq<Recommendation>)
    requires |x| <= 1 && |y| <= 1 && |z| <= 1
    requires forall r :: r in x ==> r.kind == HighPriority
    requires forall r :: r in y ==> r.kind == Unpracticed
    requires forall r :: r in z ==> r.kind == Review
    ensures var recs := x + y + z;
      && |recs| <= 3
      && (forall i, j :: 0 <= i < j < |recs| ==> KindRank(recs[i].kind) < KindRank(recs[j].kind))
      && (HasKind(recs, HighPriority) <==> x != [])
      && (HasKind(recs, Unpracticed) <==> y != [])
      && (HasKind(recs, Review) <==> z != [])
      && (forall r :: r in recs && r.kind == HighPriority ==> r in x)
      && (forall r :: r in recs && r.kind == Unpracticed ==> r in y)
      && (forall r :: r in recs && r.kind == Review ==> r in z)
  {
    var recs := x + y + z;
    if x != [] {
      assert recs[0] == x[0];
    }
    if y != [] {
      assert recs[|x|] == y[0];
    }
    if z != [] {
      assert recs[|x| + |y|] == z[0];
    }
  }

  /** Some area is high priority exactly when the high-priority list is non-empty. */
  lemma HighTopicsExist(p: UserProgress)
    ensures HighTopics(p) != [] <==> exists a :: a in p.weakAreas && a.priority == High
  {
    var high := Filter(p.weakAreas, (a: WeakArea) => a.priority == High);
    if exists w :: w in p.weakAreas && w.priority == High {
      var w :| w in p.weakAreas && w.priority == High;
      assert w in high;
    }
  }

  /** Some catalog topic is unpractised exactly when the unpractised list is non-empty. */
  lemma UnpracticedExist(p: UserProgress)
    ensures UnpracticedTopics(p) != [] <==> exists t :: t in AllTopics() && t !in p.topics
  {
    var u := UnpracticedTopics(p);
    if exists t :: t in AllTopics() && t !in p.topics {
      var t :| t in AllTopics() && t !in p.topics;
      assert t in u;
    }
    if u != [] {
      assert u[0] in u;
    }
  }

  /** Some practised topic is due exactly when the review list is non-empty. */
  lemma ReviewExist(p: UserProgress, now: int)
    requires p.Valid()
    ensures TopicsForReview(p, now) != [] <==> exists t :: t in p.topics && Due(p.topics[t], now)
  {
    var d := DueTopics(p, now);
    if exists t :: t in p.topics && Due(p.topics[t], now) {
      var t :| t in p.topics && Due(p.topics[t], now);
      assert t in d;
    }
    if d != [] {
      assert d[0] in d;
      assert TopicsForReview(p, now)[0] == d[0];
    }
  }

  lemma TakeMembers<T>(s: seq<T>, n: nat)
    ensures forall x :: x in Take(s, n) ==> x in s
  {
    assert s == Take(s, n) + s[|Take(s, n)|..];
  }

  /** At most three recommendations, in the fixed order high priority, unpracticed, review. */
  lemma RecommendationsOrder(p: UserProgress, now: int)
    ensures var recs := StudyRecommendations(p, now);
      && |recs| <= 3
      && (forall i, j :: 0 <= i < j < |recs| ==> KindRank(recs[i].kind) < KindRank(recs[j].kind))
  {
    var x := Recommend(HighPriority, "Focus on ", HighTopics(p));
    var y := Recommend(Unpracticed, "Try these new topics: ", Take(UnpracticedTopics(p), SuggestLimit));
    var z := Recommend(Review, "Review ", Take(TopicsForReview(p, now), SuggestLimit));
    assert StudyRecommendations(p, now) == x + y + z;
    ThreeRecommendations(x, y, z);
  }

  /**
   * Each recommendation is present exactly when its list is non-empty: a
   * high-priority weak area, a catalog topic not yet practised, a practised
   * topic due for review.
   */
  lemma RecommendationsPresent(p: UserProgress, now: int)
    requires p.Valid()
    ensures var recs := StudyRecommendations(p, now);
      && (HasKind(recs, HighPriority) <==> exists a :: a in p.weakAreas && a.priority == High)
      && (HasKind(recs, Unpracticed) <==> exists t :: t in AllTopics() && t !in p.topics)
      && (HasKind(recs, Review) <==> exists t :: t in p.topics && Due(p.topics[t], now))
  {
    ThreeRecommendations(
      Recommend(HighPriority, "Focus on ", HighTopics(p)),
      Recommend(Unpracticed, "Try these new topics: ", Take(UnpracticedTopics(p), SuggestLimit)),
      Recommend(Review, "Review ", Take(TopicsForReview(p, now), SuggestLimit)));
    HighTopicsExist(p);
    UnpracticedExist(p);
    ReviewExist(p, now);
  }

  /**
   * The high-priority recommendation names every high-priority area; the
   * unpracticed and review ones name the first three of their lists, and
   * every topic offered for review is a practised topic that is due.
   */
  lemma RecommendedTopics(p: UserProgress, now: int)
    requires p.Valid()
    ensures var recs := StudyRecommendations(p, now);
      && (forall r :: r in recs && r.kind == HighPriority ==> r.topics == HighTopics(p))
      && (forall r :: r in recs && r.kind == Unpracticed ==>
            r.topics == Take(UnpracticedTopics(p), SuggestLimit) && |r.topics| <= SuggestLimit)
      && (forall r :: r in recs && r.kind == Review ==>
            && r.topics == Take(TopicsForReview(p, now), SuggestLimit) && |r.topics| <= SuggestLimit
            && forall t :: t in r.topics ==> t in p.topics && Due(p.topics[t], now))
  {
    var review := TopicsForReview(p, now);
    ThreeRecommendations(
      Recommend(HighPriority, "Focus on ", HighTopics(p)),
      Recommend(Unpracticed, "Try these new topics: ", Take(UnpracticedTopics(p), SuggestLimit)),
      Recommend(Review, "Review ", Take(review, SuggestLimit)));
    TopicsForReviewFacts(p, now);
    TakeMembers(review, SuggestLimit);
  }

  // ---------------------------------------------------------------------------
  // calculateTrend

  datatype Trend = Improving | Declining | Stable

  /** `calculateTrend`: the last score against the first, stable with fewer than two quizzes. */
  function CalculateTrend(quizzes: seq<HistoryEntry>): (t: Trend)
    ensures t == Improving <==> |quizzes| >= 2 && quizzes[|quizzes| - 1].score > quizzes[0].score
    ensures t == Declining <==> |quizzes| >= 2 && quizzes[|quizzes| - 1].score < quizzes[0].score
  {
    if |quizzes| < 2 then Stable
    else
      var first := quizzes[0].score;
      var last := quizzes[|quizzes| - 1].score;
      if last > first then Improving else if last < first then Declining else Stable
  }

  /** The trend `getRecentPerformance` reports: over the last five quizzes. */
  function RecentTrend(history: seq<HistoryEntry>): Trend
  {
    CalculateTrend(TakeLast(history, 5))
  }

  function Reversed<T>(s: seq<T>): (r: seq<T>)
    ensures |r| == |s| && forall k :: 0 <= k < |s| ==> r[k] == s[|s| - 1 - k]
  {
    if s == [] then [] else Reversed(s[1..]) + [s[0]]
  }

  /** Read backwards, an improving run is a declining one, and a stable run stays stable. */
  lemma TrendReversed(quizzes: seq<HistoryEntry>)
    ensures CalculateTrend(Reversed(quizzes)) ==
      match CalculateTrend(quizzes)
      case Improving => Declining
      case Declining => Improving
      case Stable => Stable
  {
  }

  /** The recent trend only looks at the first and the last of the last five quizzes. */
  lemma RecentTrendEnds(history: seq<HistoryEntry>)
    requires |history| >= 2
    ensures var first := history[if |history| > 5 then |history| - 5 else 0].score;
      var last := history[|history| - 1].score;
      RecentTrend(history) == if last > first then Improving else if last < first then Declining else Stable
  {
  }

  // ---------------------------------------------------------------------------
  // generateStudyGoals

  datatype GoalKind = Consistency | Accuracy | WeakAreas

  datatype Goal = Goal(kind: GoalKind, target: nat, current: nat, message: string)

  const QuizGoal: nat := 5
  const AccuracyGoal: nat := 70

  /** The goal of the kind when `reached` is false. */
  function GoalUnless(reached: bool, kind: GoalKind, target: nat, current: nat, message: string): (r: seq<Goal>)
    ensures |r| <= 1 && (r != [] <==> !reached)
    ensures forall g :: g in r ==> g == Goal(kind, target, current, message)
  {
    if reached then [] else [Goal(kind, target, current, message)]
  }

  /** `generateStudyGoals`: a goal for each target the record has not reached. */
  function StudyGoals(p: UserProgress): seq<Goal>
  {
    var high := |HighTopics(p)|;
    GoalUnless(p.totalQuizzes >= QuizGoal, Consistency, QuizGoal, p.totalQuizzes, "Complete 5 quizzes to establish baseline")
    + GoalUnless(p.overallAccuracy >= AccuracyGoal, Accuracy, AccuracyGoal, p.overallAccuracy, "Achieve 70% overall accuracy")
    + GoalUnless(high == 0, WeakAreas, 0, high, "Address all high-priority weak areas")
  }

  /** The goal of the kind, if the list holds one. */
  predicate HasGoal(goals: seq<Goal>, kind: GoalKind)
  {
    exists k :: 0 <= k < |goals| && goals[k].kind == kind
  }

  /** Three lists of at most one goal each, of the three kinds in order, laid end to end. */
  lemma ThreeGoals(x: seq<Goal>, y: seq<Goal>, z: seq<Goal>)
    requires |x| <= 1 && |y| <= 1 && |z| <= 1
    requires forall g :: g in x ==> g.kind == Consistency
    requires forall g :: g in y ==> g.kind == Accuracy
    requires forall g :: g in z ==> g.kind == WeakAreas
    ensures var goals := x + y + z;
      && |goals| <= 3
      && (forall i, j :: 0 <= i < j < |goals| ==> goals[i].kind != goals[j].kind)
      && (HasGoal(goals, Consistency) <==> x != [])
      && (HasGoal(goals, Accuracy) <==> y != [])
      && (HasGoal(goals, WeakAreas) <==> z != [])
      && (forall g :: g in goals && g.kind == Consistency ==> g in x)
      && (forall g :: g in goals && g.kind == Accuracy ==> g in y)
      && (forall g :: g in goals && g.kind == WeakAreas ==> g in z)
  {
    var goals := x + y + z;
    if x != [] {
      assert goals[0] == x[0];
    }
    if y != [] {
      assert goals[|x|] == y[0];
    }
    if z != [] {
      assert goals[|x| + |y|] == z[0];
    }
  }

  /**
   * At most three goals, consistency before accuracy before weak areas: the
   * consistency goal exactly when fewer than five quizzes are done, the
   * accuracy goal exactly under 70% overall, the weak-area goal exactly when
   * a high-priority area exists, with the count of those areas as its
   * current value; no goal at all once every target is met.
   */
  lemma GoalsFacts(p: UserProgress)
    ensures var goals := StudyGoals(p);
      && |goals| <= 3
      && (forall i, j :: 0 <= i < j < |goals| ==> goals[i].kind != goals[j].kind)
      && (HasGoal(goals, Consistency) <==> p.totalQuizzes < QuizGoal)
      && (HasGoal(goals, Accuracy) <==> p.overallAccuracy < AccuracyGoal)
      && (HasGoal(goals, WeakAreas) <==> exists a :: a in p.weakAreas && a.priority == High)
      && (forall g :: g in goals && g.kind == Consistency ==> g.current == p.totalQuizzes && g.target == QuizGoal)
      && (forall g :: g in goals && g.kind == Accuracy ==> g.current == p.overallAccuracy && g.target == AccuracyGoal)
      && (forall g :: g in goals && g.kind == WeakAreas ==> g.current == |HighTopics(p)| > 0 && g.target == 0)
      && (goals == [] <==> p.totalQuizzes >= QuizGoal && p.overallAccuracy >= AccuracyGoal && HighTopics(p) == [])
  {
    var high := |HighTopics(p)|;
    ThreeGoals(
      GoalUnless(p.totalQuizzes >= QuizGoal, Consistency, QuizGoal, p.totalQuizzes, "Complete 5 quizzes to establish baseline"),
      GoalUnless(p.overallAccuracy >= AccuracyGoal, Accuracy, AccuracyGoal, p.overallAccuracy, "Achieve 70% overall accuracy"),
      GoalUnless(high == 0, WeakAreas, 0, high, "Address all high-priority weak areas"));
    HighTopicsExist(p);
  }

  /** The weak-area goal and the high-priority recommendation come together. */
  lemma GoalMatchesRecommendation(p: UserProgress, now: int)
    requires p.Valid()
    ensures HasGoal(StudyGoals(p), WeakAreas) <==> HasKind(StudyRecommendations(p, now), HighPriority)
  {
    GoalsFacts(p);
    RecommendationsPresent(p, now);
  }
}

/**
 * Weak-area ranking, shared by the storage layer and the analytics module:
 * the topics with at least five attempts and an accuracy under 70 become weak
 * areas, high priority under 50 and medium otherwise; they are sorted high
 * before medium and by ascending accuracy within a priority (a stable sort,
 * as `Array.prototype.sort` is), and the first ten are kept.
 */
module Ranking {
  import Common
  import opened Progress

  const MinAttempts: nat := 5
  const WeakLimit: nat := 10

  /** The priority bucket of an accuracy. */
  function PriorityOf(accuracy: nat): (p: Priority)
    ensures p == High <==> accuracy < 50
    ensures p == Medium <==> 50 <= accuracy < 70
    ensures p == Low <==> 70 <= accuracy
  {
    if accuracy < 50 then High else if accuracy < 70 then Medium else Low
  }

  /** `priorityOrder`: high 0, medium 1, low 2. */
  function Rank(p: Priority): nat
  {
    match p
    case High => 0
    case Medium => 1
    case Low => 2
  }

  /** The comparator: `a` strictly before `b`, by priority and then by accuracy. */
  predicate Less(a: WeakArea, b: WeakArea)
  {
    Rank(a.priority) < Rank(b.priority) ||
    (Rank(a.priority) == Rank(b.priority) && a.accuracy < b.accuracy)
  }

  /** `a` may come before `b`: the comparator does not put `b` first. */
  predicate Before(a: WeakArea, b: WeakArea)
  {
    !Less(b, a)
  }

  predicate SortedAreas(s: seq<WeakArea>)
  {
    forall i, j :: 0 <= i < j < |s| ==> Before(s[i], s[j])
  }

  /** The topic qualifies as a weak area. */
  predicate Weak(r: TopicRecord)
  {
    r.attempted >= MinAttempts && PriorityOf(r.accuracy) != Low
  }

  /** The weak area a qualifying topic becomes; `trackPracticed` copies its `lastActive`. */
  function AreaOf(topic: string, r: TopicRecord, trackPracticed: bool): WeakArea
  {
    WeakArea(topic, r.accuracy, PriorityOf(r.accuracy), if trackPracticed then r.lastActive else Common.None)
  }

  /** The weak areas in topic order, before sorting. */
  function Candidates(order: seq<string>, topics: map<string, TopicRecord>, trackPracticed: bool): (c: seq<WeakArea>)
    requires forall t :: t in order ==> t in topics
    ensures |c| <= |order|
    ensures forall a :: a in c ==>
      a.topic in order && Weak(topics[a.topic]) && a == AreaOf(a.topic, topics[a.topic], trackPracticed)
    ensures forall t :: t in order && Weak(topics[t]) ==> AreaOf(t, topics[t], trackPracticed) in c
  {
    if order == [] then []
    else
      var init := order[..|order| - 1];
      var t := order[|order| - 1];
      assert forall u :: u in order <==> u in init || u == t;
      Candidates(init, topics, trackPracticed) + (if Weak(topics[t]) then [AreaOf(t, topics[t], trackPracticed)] else [])
  }

  /**
   * `idx` lists, in increasing order, the positions in `order` of the
   * qualifying topics, and `c[k]` is the weak area of the topic at `idx[k]`.
   */
  predicate IndexedBy(order: seq<string>, topics: map<string, TopicRecord>, trackPracticed: bool,
                      c: seq<WeakArea>, idx: seq<nat>)
    requires forall t :: t in order ==> t in topics
  {
    && |idx| == |c|
    && (forall k :: 0 <= k < |idx| ==>
          (idx[k] < |order| && c[k] == AreaOf(order[idx[k]], topics[order[idx[k]]], trackPracticed)))
    && (forall k, l :: 0 <= k < l < |idx| ==> idx[k] < idx[l])
    && (forall i :: 0 <= i < |order| && Weak(topics[order[i]]) ==> i in idx)
  }

  /** One more topic at the end of the key order extends the positions by its own, if it qualifies. */
  lemma IndexedBySnoc(init: seq<string>, t: string, topics: map<string, TopicRecord>, trackPracticed: bool,
                      ci: seq<WeakArea>, prev: seq<nat>)
    requires forall u :: u in init ==> u in topics
    requires t in topics
    requires IndexedBy(init, topics, trackPracticed, ci, prev)
    ensures var order := init + [t];
      var w := Weak(topics[t]);
      IndexedBy(order, topics, trackPracticed,
                ci + (if w then [AreaOf(t, topics[t], trackPracticed)] else []),
                prev + (if w then [|init|] else []))
  {
    var order := init + [t];
    var w := Weak(topics[t]);
    var c := ci + (if w then [AreaOf(t, topics[t], trackPracticed)] else []);
    var idx := prev + (if w then [|init|] else []);
    forall k | 0 <= k < |idx|
      ensures idx[k] < |order| && c[k] == AreaOf(order[idx[k]], topics[order[idx[k]]], trackPracticed)
    {
      if k < |prev| {
        assert idx[k] == prev[k] && c[k] == ci[k] && order[prev[k]] == init[prev[k]];
      }
    }
    forall i | 0 <= i < |order| && Weak(topics[order[i]])
      ensures i in idx
    {
      if i < |init| {
        assert order[i] == init[i];
        assert i in prev;
      } else {
        assert idx[|idx| - 1] == i;
      }
    }
  }

  /**
   * The candidates keep the key order: they are indexed by increasing
   * positions of the qualifying topics. This is the order the stable sort
   * keeps among equal areas.
   */
  lemma {:induction false} CandidatePositions(order: seq<string>, topics: map<string, TopicRecord>, trackPracticed: bool)
    returns (idx: seq<nat>)
    requires forall t :: t in order ==> t in topics
    ensures IndexedBy(order, topics, trackPracticed, Candidates(order, topics, trackPracticed), idx)
  {
    if order == [] {
      idx := [];
    } else {
      var init := order[..|order| - 1];
      var t := order[|order| - 1];
      assert order == init + [t];
      assert forall u :: u in init ==> u in order;
      var prev := CandidatePositions(init, topics, trackPracticed);
      IndexedBySnoc(init, t, topics, trackPracticed, Candidates(init, topics, trackPracticed), prev);
      idx := prev + (if Weak(topics[t]) then [|init|] else []);
    }
  }

  /** The `forEach` over the topic table that collects the weak areas. */
  method CollectWeakAreas(order: seq<string>, topics: map<string, TopicRecord>, trackPracticed: bool)
    returns (areas: seq<WeakArea>)
    requires forall t :: t in order ==> t in topics
    ensures areas == Candidates(order, topics, trackPracticed)
  {
    areas := [];
    var i := 0;
    while i < |order|
      invariant 0 <= i <= |order|
      invariant areas == Candidates(order[..i], topics, trackPracticed)
    {
      var stats := topics[order[i]];
      if stats.attempted >= MinAttempts {
        var priority := PriorityOf(stats.accuracy);
        if priority != Low {
          areas := areas + [WeakArea(order[i], stats.accuracy, priority,
                                     if trackPracticed then stats.lastActive else Common.None)];
        }
      }
      assert order[..i + 1][..i] == order[..i];
      i := i + 1;
    }
    assert order[..i] == order;
  }

  /** Insert `x` after every element that does not sort after it. */
  function InsertArea(x: WeakArea, s: seq<WeakArea>): (r: seq<WeakArea>)
    ensures multiset(r) == multiset(s) + multiset{x}
    ensures |r| == |s| + 1
  {
    if s == [] then [x]
    else if Less(x, s[0]) then [x] + s
    else
      assert s == [s[0]] + s[1..];
      [s[0]] + InsertArea(x, s[1..])
  }

  lemma {:induction false} InsertAreaSorted(x: WeakArea, s: seq<WeakArea>)
    requires SortedAreas(s)
    ensures SortedAreas(InsertArea(x, s))
  {
    if s != [] && !Less(x, s[0]) {
      InsertAreaSorted(x, s[1..]);
      var r := InsertArea(x, s);
      var tail := InsertArea(x, s[1..]);
      assert r == [s[0]] + tail;
      forall k | 0 <= k < |tail| ensures Before(s[0], tail[k]) {
        assert tail[k] in multiset(tail);
        assert tail[k] in multiset(s[1..]) + multiset{x};
        if tail[k] != x {
          assert tail[k] in s[1..];
        }
      }
    }
  }

  /** The stable sort: each element in turn inserted into the sorted prefix. */
  function SortAreas(s: seq<WeakArea>): (r: seq<WeakArea>)
    ensures multiset(r) == multiset(s) && |r| == |s|
  {
    if s == [] then []
    else
      var init := s[..|s| - 1];
      assert s == init + [s[|s| - 1]];
      InsertArea(s[|s| - 1], SortAreas(init))
  }

  lemma {:induction false} SortAreasSorted(s: seq<WeakArea>)
    ensures SortedAreas(SortAreas(s))
  {
    if s != [] {
      SortAreasSorted(s[..|s| - 1]);
      InsertAreaSorted(s[|s| - 1], SortAreas(s[..|s| - 1]));
    }
  }

  /** The first ten after sorting. */
  function RankWeakAreas(candidates: seq<WeakArea>): seq<WeakArea>
  {
    Common.Take(SortAreas(candidates), WeakLimit)
  }

  /**
   * The ranking keeps at most ten areas, sorted, each one a candidate; all of
   * them when there are at most ten; and no candidate left out sorts before
   * one that was kept.
   */
  lemma RankedAreas(candidates: seq<WeakArea>)
    ensures |RankWeakAreas(candidates)| <= WeakLimit
    ensures SortedAreas(RankWeakAreas(candidates))
    ensures multiset(RankWeakAreas(candidates)) <= multiset(candidates)
    ensures |candidates| <= WeakLimit ==> multiset(RankWeakAreas(candidates)) == multiset(candidates)
    ensures forall i, j :: 0 <= i < |RankWeakAreas(candidates)| <= j < |candidates| ==>
      Before(RankWeakAreas(candidates)[i], SortAreas(candidates)[j])
  {
    var sorted := SortAreas(candidates);
    SortAreasSorted(candidates);
    Common.TakeSubMultiset(sorted, WeakLimit);
  }

  /** In a sorted ranking every high-priority area comes before every medium one. */
  lemma HighBeforeMedium(s: seq<WeakArea>, i: nat, j: nat)
    requires SortedAreas(s) && i < |s| && j < |s|
    requires s[i].priority == High && s[j].priority != High
    ensures i < j
  {
  }
}

/**
 * Values shared by the quiz engine, the progress store and the analytics:
 * an optional value (JavaScript's `undefined`), a question record, the three
 * subjects, and the rounded percentage every statistic is reported in.
 */
module Common {

  /** A value that may be absent: an unset answer slot, a missing timestamp, `null`. */
  datatype Option<T> = None | Some(value: T)

  datatype Difficulty = Easy | Medium | Hard

  /** A multiple-choice question; `correctAnswer` is an index into `options`. */
  datatype Question = Question(
    id: string,
    question: string,
    options: seq<string>,
    correctAnswer: int,
    explanation: string,
    topic: string,
    difficulty: Difficulty)

  /** The three top-level subjects of the topic taxonomy. */
  datatype Subject = Anatomy | Physiology | Biochemistry {
    /** The lower-case key the subject is stored and looked up under. */
    function Key(): string {
      match this
      case Anatomy => "anatomy"
      case Physiology => "physiology"
      case Biochemistry => "biochemistry"
    }
  }

  /**
   * `Math.round(c / a * 100)` for a count `c` out of `a`. `Math.round` rounds
   * halves up, so the result is the integer nearest to 100c/a with halves
   * rounded up. Where `a` is 0 the source produces NaN; here the result is 0.
   */
  function RoundPercent(c: nat, a: nat): (r: nat)
    ensures a == 0 ==> r == 0
    ensures c <= a ==> r <= 100
    ensures a > 0 && c == a ==> r == 100
    ensures c == 0 ==> r == 0
  {
    if a == 0 then 0
    else
      RoundingFacts(c, a);
      (200 * c + a) / (2 * a)
  }

  /** The percentage is the nearest integer to 100c/a, halves rounded up: 2ar <= 200c + a < 2ar + 2a. */
  lemma RoundPercentNearest(c: nat, a: nat)
    ensures a > 0 ==> 2 * a * RoundPercent(c, a) <= 200 * c + a < 2 * a * RoundPercent(c, a) + 2 * a
  {
  }

  /** Scaling the count and the total by the same factor leaves the percentage alone. */
  lemma RoundPercentScale(c: nat, a: nat, k: nat)
    requires k > 0
    ensures RoundPercent(k * c, k * a) == RoundPercent(c, a)
  {
    if a > 0 {
      var r := RoundPercent(c, a);
      RoundPercentNearest(c, a);
      ScaleBracket(k, 2 * a * r, 200 * c + a, 2 * a);
      ScaledTerms(k, c, a, r);
      QuotientIs(200 * (k * c) + k * a, 2 * (k * a), r);
    }
  }

  /** Multiplying a bracket `x <= y < x + w` through by `k`. */
  lemma ScaleBracket(k: nat, x: nat, y: nat, w: nat)
    requires x <= y < x + w
    ensures k * x <= k * y <= k * x + k * w
    ensures k > 0 ==> k * y < k * x + k * w
  {
    MulMonotone(k, x, y);
    MulMonotone(k, y, x + w);
    if k > 0 {
      MulMonotone(k, y + 1, x + w);
    }
  }

  /** The scaled terms of the rounding bracket, regrouped. */
  lemma ScaledTerms(k: nat, c: nat, a: nat, r: nat)
    ensures k * (2 * a * r) == 2 * (k * a) * r
    ensures k * (200 * c + a) == 200 * (k * c) + k * a
    ensures k * (2 * a) == 2 * (k * a)
  {
  }

  lemma RoundingFacts(c: nat, a: nat)
    requires a > 0
    ensures c <= a ==> (200 * c + a) / (2 * a) <= 100
    ensures c == a ==> (200 * c + a) / (2 * a) == 100
    ensures c == 0 ==> (200 * c + a) / (2 * a) == 0
  {
    if c <= a {
      QuotientBelow(200 * c + a, 2 * a, 101);
    }
    if c == a {
      QuotientIs(200 * c + a, 2 * a, 100);
    }
    if c == 0 {
      QuotientIs(200 * c + a, 2 * a, 0);
    }
  }

  /** Pushing `e` and keeping the last `n > 0`: at most `n` items, `e` last, after the most recent of `s` in order. */
  lemma PushTakeLast<T>(s: seq<T>, e: T, n: nat)
    requires n > 0
    ensures var r := TakeLast(s + [e], n);
      && 1 <= |r| <= n
      && r[|r| - 1] == e
      && r[..|r| - 1] == s[|s| - (|r| - 1)..]
  {
    var u := s + [e];
    var r := TakeLast(u, n);
    assert r[..|r| - 1] == u[|u| - |r|..|u| - 1];
    assert u[..|u| - 1] == s;
  }

  /** Trimming to the last `n` before a push changes nothing once the push is trimmed too. */
  lemma TakeLastPush<T>(s: seq<T>, e: T, n: nat)
    ensures TakeLast(TakeLast(s, n) + [e], n) == TakeLast(s + [e], n)
  {
    if n < |s| {
      var u := s + [e];
      var t := s[|s| - n..] + [e];
      assert t[1..] == u[|u| - n..];
    }
  }

  /** Euclidean division pins the quotient between the two products. */
  lemma BoundedQuotient(n: nat, d: nat)
    requires d > 0
    ensures d * (n / d) <= n < d * (n / d) + d
  {
  }

  lemma MulMonotone(d: nat, x: nat, y: nat)
    requires x <= y
    ensures d * x <= d * y
  {
  }

  /** A bound `n < d * k` on the dividend bounds the quotient by `k`. */
  lemma QuotientBelow(n: nat, d: nat, k: nat)
    requires d > 0 && n < d * k
    ensures n / d < k
  {
    BoundedQuotient(n, d);
    if n / d >= k {
      MulMonotone(d, k, n / d);
    }
  }

  /** The quotient is the one `k` with `d * k <= n < d * k + d`. */
  lemma QuotientIs(n: nat, d: nat, k: nat)
    requires d > 0 && d * k <= n < d * k + d
    ensures n / d == k
  {
    BoundedQuotient(n, d);
    QuotientBelow(n, d, k + 1);
    if n / d < k {
      MulMonotone(d, n / d + 1, k);
    }
  }

  /** The first `n` elements of `s`, or all of them: JavaScript's `s.slice(0, n)`. */
  function Take<T>(s: seq<T>, n: nat): (r: seq<T>)
    ensures |r| == if n < |s| then n else |s|
    ensures r == s[..|r|]
  {
    if n < |s| then s[..n] else s
  }

  /** A prefix holds no element more often than the whole sequence. */
  lemma TakeSubMultiset<T>(s: seq<T>, n: nat)
    ensures multiset(Take(s, n)) <= multiset(s)
    ensures n >= |s| ==> Take(s, n) == s
  {
    var r := Take(s, n);
    assert s == r + s[|r|..];
  }

  /** The last `n` elements of `s`, or all of them: JavaScript's `s.slice(-n)` for `n > 0`. */
  function TakeLast<T>(s: seq<T>, n: nat): (r: seq<T>)
    ensures |r| == if n < |s| then n else |s|
    ensures r == s[|s| - |r|..]
  {
    if n < |s| then s[|s| - n..] else s
  }
}

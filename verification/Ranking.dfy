/** Indices ordered by descending score, equal scores keeping their order, as a stable
    reverse sort yields them; and the entries a top-n query returns. */
module Ranking {
  import opened Options

  /** i comes before j: a higher score, or the same score and an earlier position. */
  predicate Before(scores: seq<real>, i: nat, j: nat)
    requires i < |scores| && j < |scores|
  {
    scores[i] > scores[j] || (scores[i] == scores[j] && i < j)
  }

  predicate InRange(order: seq<nat>, n: nat) {
    forall a :: 0 <= a < |order| ==> order[a] < n
  }

  predicate Sorted(scores: seq<real>, order: seq<nat>)
    requires InRange(order, |scores|)
  {
    forall a, b :: 0 <= a < b < |order| ==> Before(scores, order[a], order[b])
  }

  /** A sorted arrangement of all indices. */
  ghost predicate IsRanking(scores: seq<real>, order: seq<nat>) {
    && InRange(order, |scores|) && Sorted(scores, order)
    && forall i: nat :: i < |scores| ==> i in order
  }

  function Insert(scores: seq<real>, order: seq<nat>, i: nat): (r: seq<nat>)
    requires i < |scores| && InRange(order, |scores|)
    ensures InRange(r, |scores|) && |r| == |order| + 1
    decreases |order|
  {
    var last := |order| - 1;
    if order == [] || scores[order[last]] >= scores[i] then order + [i]
    else Insert(scores, order[..last], i) + [order[last]]
  }

  function RankFirst(scores: seq<real>, n: nat): (r: seq<nat>)
    requires n <= |scores|
    ensures InRange(r, |scores|) && |r| == n
  {
    if n == 0 then [] else Insert(scores, RankFirst(scores, n - 1), n - 1)
  }

  function Rank(scores: seq<real>): (r: seq<nat>)
    ensures InRange(r, |scores|) && |r| == |scores|
  {
    RankFirst(scores, |scores|)
  }

  lemma {:induction false} InsertSorts(scores: seq<real>, order: seq<nat>, i: nat)
    requires i < |scores| && InRange(order, i) && Sorted(scores, order)
    ensures Sorted(scores, Insert(scores, order, i))
    ensures forall j :: j in Insert(scores, order, i) <==> j in order || j == i
    decreases |order|
  {
    var last := |order| - 1;
    if order != [] && scores[order[last]] < scores[i] {
      InsertSorts(scores, order[..last], i);
      var front := Insert(scores, order[..last], i);
      assert order == order[..last] + [order[last]];
      forall a | 0 <= a < |front|
        ensures Before(scores, front[a], order[last])
      {
        assert front[a] in front;
      }
    }
  }

  lemma {:induction false} RankFirstSorts(scores: seq<real>, n: nat)
    requires n <= |scores|
    ensures Sorted(scores, RankFirst(scores, n))
    ensures forall i: nat :: i in RankFirst(scores, n) <==> i < n
  {
    if n > 0 {
      RankFirstSorts(scores, n - 1);
      var order := RankFirst(scores, n - 1);
      assert forall a :: 0 <= a < |order| ==> order[a] in order;
      InsertSorts(scores, order, n - 1);
    }
  }

  lemma RankIsRanking(scores: seq<real>)
    ensures IsRanking(scores, Rank(scores))
  {
    RankFirstSorts(scores, |scores|);
  }

  lemma TailMembers(scores: seq<real>, order: seq<nat>, i: nat)
    requires InRange(order, |scores|) && Sorted(scores, order) && order != []
    ensures i in order[1..] <==> i in order && i != order[0]
  {
    assert order == [order[0]] + order[1..];
    if i in order[1..] {
      var p :| 0 <= p < |order| - 1 && order[1..][p] == i;
      assert Before(scores, order[0], order[p + 1]);
    }
  }

  /** There is only one such arrangement, so any stable descending sort returns it. */
  lemma {:induction false} SortedUnique(scores: seq<real>, a: seq<nat>, b: seq<nat>)
    requires InRange(a, |scores|) && InRange(b, |scores|) && Sorted(scores, a) && Sorted(scores, b)
    requires forall i :: i in a <==> i in b
    ensures a == b
    decreases |a|
  {
    assert forall k :: 0 <= k < |a| ==> a[k] in a;
    assert forall k :: 0 <= k < |b| ==> b[k] in b;
    if a != [] && b != [] {
      assert a[0] in b && b[0] in a;
      assert a[0] == b[0];
      forall i
        ensures i in a[1..] <==> i in b[1..]
      {
        TailMembers(scores, a, i);
        TailMembers(scores, b, i);
      }
      SortedUnique(scores, a[1..], b[1..]);
    }
  }

  lemma RankIsUnique(scores: seq<real>, order: seq<nat>)
    requires IsRanking(scores, order)
    ensures order == Rank(scores)
  {
    RankFirstSorts(scores, |scores|);
    assert forall i :: i in order <==> i in Rank(scores);
    SortedUnique(scores, order, Rank(scores));
  }

  // ---------------------------------------------------------------- the query

  datatype Hit<T> = Hit(entry: T, score: real)

  datatype QueryError = EmptyMaximum

  /** The slice order[:n], where a negative n counts from the end. */
  function Front<T>(xs: seq<T>, n: int): seq<T> {
    if n >= 0 then (if n < |xs| then xs[..n] else xs)
    else if |xs| + n > 0 then xs[..|xs| + n] else []
  }

  function Largest(scores: seq<real>, order: seq<nat>): (m: real)
    requires order != [] && InRange(order, |scores|)
    ensures exists a :: 0 <= a < |order| && m == scores[order[a]]
    ensures forall a :: 0 <= a < |order| ==> scores[order[a]] <= m
    decreases |order|
  {
    var last := |order| - 1;
    if last == 0 then scores[order[0]]
    else
      var rest := Largest(scores, order[..last]);
      if scores[order[last]] > rest then scores[order[last]] else rest
  }

  function Divisor(best: real): (d: real)
    ensures d != 0.0
  {
    if best == 0.0 then 1.0 else best
  }

  /** The entries at the first n ranks with scores divided by the best one. */
  function TopHits<T>(entries: seq<T>, scores: seq<real>, n: int): Result<seq<Hit<T>>, QueryError>
    requires |scores| == |entries|
  {
    var top := Front(Rank(scores), n);
    if top == [] then Err(EmptyMaximum)
    else
      var best := Divisor(Largest(scores, top));
      Ok(seq(|top|, i requires 0 <= i < |top| => Hit(entries[top[i]], scores[top[i]] / best)))
  }

  /** Asking for none, or for all but at least everything, is the error case. */
  lemma TopHitsFails<T>(entries: seq<T>, scores: seq<real>, n: int)
    requires |scores| == |entries| > 0
    ensures TopHits(entries, scores, n).Err? <==> n == 0 || n <= -|entries|
  {
  }

  /** The first n ranks, or all but the last -n of them for a negative n: distinct indices, best
      first, ties in insertion order, and nothing left out beats anything chosen. */
  lemma TopIndicesExact(scores: seq<real>, n: int)
    ensures var top := Front(Rank(scores), n);
      && |top| == (if n >= |scores| then |scores| else if n >= 0 then n
                   else if |scores| + n >= 0 then |scores| + n else 0)
      && InRange(top, |scores|)
      && (forall a, b :: 0 <= a < b < |top| ==> top[a] != top[b] && Before(scores, top[a], top[b]))
      && (forall a, i: nat :: 0 <= a < |top| && i < |scores| && i !in top ==> Before(scores, top[a], i))
  {
    var order, top := Rank(scores), Front(Rank(scores), n);
    RankIsRanking(scores);
    forall a, i: nat | 0 <= a < |top| && i < |scores| && i !in top
      ensures Before(scores, top[a], i)
    {
      assert i in order;
      var p :| 0 <= p < |order| && order[p] == i;
      assert forall k :: 0 <= k < |top| ==> top[k] in top && top[k] == order[k];
    }
  }

  lemma LargestIsFirst(scores: seq<real>, top: seq<nat>)
    requires InRange(top, |scores|) && Sorted(scores, top) && top != []
    ensures Largest(scores, top) == scores[top[0]]
  {
    var m :| 0 <= m < |top| && Largest(scores, top) == scores[top[m]];
    assert m > 0 ==> Before(scores, top[0], top[m]);
  }

  lemma Scaled(x: real, y: real, largest: real)
    requires 0.0 <= x <= y <= largest
    ensures 0.0 <= x / Divisor(largest) <= y / Divisor(largest) <= 1.0
    ensures largest == 0.0 ==> y == 0.0 == y / Divisor(largest)
    ensures largest != 0.0 ==> largest / Divisor(largest) == 1.0
  {
  }

  lemma Proportion(x: real, largest: real, score: real)
    requires score == x / Divisor(largest)
    ensures if largest == 0.0 then score == x else score * largest == x && (x == largest ==> score == 1.0)
  {
  }

  lemma HitAt<T>(entries: seq<T>, scores: seq<real>, n: int, a: nat)
    requires |scores| == |entries| && a < |Front(Rank(scores), n)|
    ensures TopHits(entries, scores, n).Ok?
    ensures var top, hits := Front(Rank(scores), n), TopHits(entries, scores, n).value;
      && |hits| == |top| && InRange(top, |scores|)
      && hits[a].entry == entries[top[a]]
      && hits[a].score == scores[top[a]] / Divisor(scores[top[0]])
  {
    TopIndicesExact(scores, n);
    LargestIsFirst(scores, Front(Rank(scores), n));
  }

  /** A query that succeeds gives one hit per chosen index, whose score is in proportion to the
      first hit's score of 1; if the best score is 0, scores are left as they are. */
  lemma TopHitsScores<T>(entries: seq<T>, scores: seq<real>, n: int, a: nat)
    requires |scores| == |entries| && a < |Front(Rank(scores), n)|
    ensures TopHits(entries, scores, n).Ok?
    ensures var top, hits := Front(Rank(scores), n), TopHits(entries, scores, n).value;
      && |hits| == |top| && InRange(top, |scores|)
      && hits[a].entry == entries[top[a]]
      && if scores[top[0]] == 0.0 then hits[a].score == scores[top[a]]
         else hits[0].score == 1.0 && hits[a].score * scores[top[0]] == scores[top[a]]
  {
    var top, hits := Front(Rank(scores), n), TopHits(entries, scores, n).value;
    HitAt(entries, scores, n, 0);
    HitAt(entries, scores, n, a);
    Proportion(scores[top[0]], scores[top[0]], hits[0].score);
    Proportion(scores[top[a]], scores[top[0]], hits[a].score);
  }

  /** For scores that are not negative, hits are scaled into [0, 1] and descend. */
  lemma TopHitsExact<T>(entries: seq<T>, scores: seq<real>, n: int, a: nat, b: nat)
    requires |scores| == |entries| && forall i :: 0 <= i < |scores| ==> scores[i] >= 0.0
    requires a <= b < |Front(Rank(scores), n)|
    ensures TopHits(entries, scores, n).Ok?
    ensures var top, hits := Front(Rank(scores), n), TopHits(entries, scores, n).value;
      && |hits| == |top|
      && 0.0 <= hits[b].score <= hits[a].score <= 1.0
      && (hits[0].score == 1.0 || scores[top[a]] == 0.0 == hits[a].score)
  {
    TopIndicesExact(scores, n);
    var top := Front(Rank(scores), n);
    LargestIsFirst(scores, top);
    assert a < b ==> Before(scores, top[a], top[b]);
    Scaled(scores[top[b]], scores[top[a]], Largest(scores, top));
  }
}

/**
  Walks through the road network and their accumulated weights. These are
  the reference definitions the solver is proved against: a search answer
  is correct when it is the least total, under the chosen metric, of any
  walk between the two cities.
 */
module Walks {
  import opened RoadGraph

  /** A non-empty sequence of registered cities, each joined to the next by a route. */
  ghost predicate IsWalk(g: Graph, p: seq<City>) {
    && |p| >= 1
    && (forall i :: 0 <= i < |p| ==> p[i] in g)
    && (forall i :: 0 < i < |p| ==> p[i] in g[p[i - 1]])
  }

  ghost predicate WalkFromTo(g: Graph, p: seq<City>, s: City, t: City) {
    IsWalk(g, p) && p[0] == s && p[|p| - 1] == t
  }

  /** The (distance, time, cost) totals of the routes along a walk. */
  ghost function Total(g: Graph, p: seq<City>): Edge
    requires IsWalk(g, p)
    decreases |p|
  {
    if |p| == 1 then Zero
    else Total(g, p[..|p| - 1]).Plus(g[p[|p| - 2]][p[|p| - 1]])
  }

  /** The total of a walk under one metric. */
  ghost function Weight(g: Graph, p: seq<City>, m: Metric): nat
    requires IsWalk(g, p)
  {
    Total(g, p).Key(m)
  }

  ghost predicate Reachable(g: Graph, s: City, t: City) {
    exists p :: WalkFromTo(g, p, s, t)
  }

  ghost predicate HasWalkOfWeight(g: Graph, s: City, t: City, m: Metric, w: nat) {
    exists p :: WalkFromTo(g, p, s, t) && Weight(g, p, m) == w
  }

  /** `w` is the total of some walk from s to t and no such walk weighs less. */
  ghost predicate IsShortest(g: Graph, s: City, t: City, m: Metric, w: nat) {
    && HasWalkOfWeight(g, s, t, m, w)
    && forall p :: WalkFromTo(g, p, s, t) ==> w <= Weight(g, p, m)
  }

  /** Following one more route from the end of a walk adds that route's weights. */
  lemma Extend(g: Graph, p: seq<City>, b: City)
    requires IsWalk(g, p) && b in g && b in g[p[|p| - 1]]
    ensures IsWalk(g, p + [b])
    ensures Total(g, p + [b]) == Total(g, p).Plus(g[p[|p| - 1]][b])
  {
    assert (p + [b])[..|p|] == p;
  }

  /** A prefix of a walk is a walk, and its last step adds exactly that route. */
  lemma PrefixStep(g: Graph, p: seq<City>, j: nat)
    requires IsWalk(g, p) && j + 1 < |p|
    ensures IsWalk(g, p[..j + 1]) && IsWalk(g, p[..j + 2])
    ensures Total(g, p[..j + 2]) == Total(g, p[..j + 1]).Plus(g[p[j]][p[j + 1]])
  {
    assert p[..j + 2][..j + 1] == p[..j + 1];
  }

  /** Weights are non-negative, so a prefix never weighs more than the whole walk. */
  lemma {:induction false} PrefixWeight(g: Graph, p: seq<City>, n: nat, m: Metric)
    requires IsWalk(g, p) && 1 <= n <= |p|
    ensures IsWalk(g, p[..n])
    ensures Weight(g, p[..n], m) <= Weight(g, p, m)
    decreases |p| - n
  {
    if n < |p| {
      PrefixStep(g, p, n - 1);
      PrefixWeight(g, p, n + 1, m);
    } else {
      assert p[..n] == p;
    }
  }

  /** The one-city walk: every registered city reaches itself at weight 0. */
  lemma SelfShortest(g: Graph, s: City, m: Metric)
    requires s in g
    ensures IsShortest(g, s, s, m, 0)
  {
    assert WalkFromTo(g, [s], s, s) && Weight(g, [s], m) == 0;
  }

  /** The shortest weight between two cities is unique. */
  lemma ShortestUnique(g: Graph, s: City, t: City, m: Metric, w1: nat, w2: nat)
    requires IsShortest(g, s, t, m, w1) && IsShortest(g, s, t, m, w2)
    ensures w1 == w2
  {
    var p1 :| WalkFromTo(g, p1, s, t) && Weight(g, p1, m) == w1;
    var p2 :| WalkFromTo(g, p2, s, t) && Weight(g, p2, m) == w2;
  }

  /** Putting a route in front of a walk adds that route's weights. */
  lemma {:induction false} Prepend(g: Graph, a: City, p: seq<City>)
    requires IsWalk(g, p) && a in g && p[0] in g[a]
    ensures IsWalk(g, [a] + p)
    ensures Total(g, [a] + p) == g[a][p[0]].Plus(Total(g, p))
    decreases |p|
  {
    var q := [a] + p;
    assert IsWalk(g, q);
    if |p| > 1 {
      var p' := p[..|p| - 1];
      var b, c := p[|p| - 2], p[|p| - 1];
      Prepend(g, a, p');
      assert q[..|q| - 1] == [a] + p';
      assert Total(g, q) == Total(g, [a] + p').Plus(g[b][c]);
      assert Total(g, p) == Total(g, p').Plus(g[b][c]);
      g[a][p[0]].PlusAssoc(Total(g, p'), g[b][c]);
    } else {
      assert q[..1] == [a];
    }
  }

  /** The reverse of a sequence of cities. */
  function Reverse(p: seq<City>): (r: seq<City>)
    ensures |r| == |p|
    ensures forall i :: 0 <= i < |p| ==> r[i] == p[|p| - 1 - i]
    decreases |p|
  {
    if |p| == 0 then [] else [p[|p| - 1]] + Reverse(p[..|p| - 1])
  }

  /** In a valid (symmetric) graph a walk read backwards is a walk with the same totals. */
  lemma {:induction false} ReverseWalk(g: Graph, p: seq<City>)
    requires Valid(g) && IsWalk(g, p)
    ensures IsWalk(g, Reverse(p))
    ensures Total(g, Reverse(p)) == Total(g, p)
    decreases |p|
  {
    if |p| > 1 {
      var n := |p|;
      var p' := p[..n - 1];
      ReverseWalk(g, p');
      assert Reverse(p) == [p[n - 1]] + Reverse(p');
      assert g[p[n - 1]][p[n - 2]] == g[p[n - 2]][p[n - 1]];
      Prepend(g, p[n - 1], Reverse(p'));
    } else {
      assert Reverse(p) == p;
    }
  }

  /** Joining a walk s..b to a walk b..t gives a walk s..t whose totals add up. */
  lemma {:induction false} Concat(g: Graph, p: seq<City>, q: seq<City>)
    requires IsWalk(g, p) && IsWalk(g, q) && p[|p| - 1] == q[0]
    ensures IsWalk(g, p + q[1..])
    ensures Total(g, p + q[1..]) == Total(g, p).Plus(Total(g, q))
    decreases |q|
  {
    if |q| == 1 {
      assert p + q[1..] == p;
    } else {
      var q' := q[..|q| - 1];
      var b, c := q[|q| - 2], q[|q| - 1];
      Concat(g, p, q');
      var r := p + q'[1..];
      assert p + q[1..] == r + [c];
      if |q'| == 1 {
        assert r == p;
      } else {
        assert r[|r| - 1] == q'[|q'| - 1];
      }
      Extend(g, r, c);
      // Both sides add the last route b -> c after the totals of p and q'.
      assert Total(g, q) == Total(g, q').Plus(g[b][c]);
      Total(g, p).PlusAssoc(Total(g, q'), g[b][c]);
    }
  }

  /** Shortest weights are symmetric, because every route is stored in both directions. */
  lemma ShortestSymmetric(g: Graph, s: City, t: City, m: Metric, w: nat)
    requires Valid(g) && IsShortest(g, s, t, m, w)
    ensures IsShortest(g, t, s, m, w)
  {
    var p :| WalkFromTo(g, p, s, t) && Weight(g, p, m) == w;
    ReverseWalk(g, p);
    assert WalkFromTo(g, Reverse(p), t, s);
    forall q | WalkFromTo(g, q, t, s) ensures w <= Weight(g, q, m) {
      ReverseWalk(g, q);
      assert WalkFromTo(g, Reverse(q), s, t);
    }
  }

  /** Triangle inequality: going through b is never shorter than the shortest s..t. */
  lemma Triangle(g: Graph, s: City, b: City, t: City, m: Metric, w1: nat, w2: nat, w: nat)
    requires IsShortest(g, s, b, m, w1) && IsShortest(g, b, t, m, w2) && IsShortest(g, s, t, m, w)
    ensures w <= w1 + w2
  {
    var p :| WalkFromTo(g, p, s, b) && Weight(g, p, m) == w1;
    var q :| WalkFromTo(g, q, b, t) && Weight(g, q, m) == w2;
    Concat(g, p, q);
    assert WalkFromTo(g, p + q[1..], s, t);
  }

  /**
    A walk between two different cities weighs at least `bound` when every
    route out of `s` either weighs that much alone or, when it stops short
    of `t`, does so together with any route that follows it.
   */
  lemma TwoRouteBound(g: Graph, p: seq<City>, s: City, t: City, m: Metric, bound: nat)
    requires WalkFromTo(g, p, s, t) && s != t
    requires forall w :: w in g[s] ==>
      || g[s][w].Key(m) >= bound
      || (w != t && w in g && forall y :: y in g[w] ==> g[s][w].Key(m) + g[w][y].Key(m) >= bound)
    ensures Weight(g, p, m) >= bound
  {
    assert |p| >= 2;
    assert p[..1] == [s];
    PrefixStep(g, p, 0);
    if g[s][p[1]].Key(m) >= bound {
      PrefixWeight(g, p, 2, m);
    } else {
      assert |p| >= 3;
      PrefixStep(g, p, 1);
      PrefixWeight(g, p, 3, m);
    }
  }
}

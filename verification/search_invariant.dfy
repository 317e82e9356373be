/**
  The invariants of the search loop (HaryanRoadWay.java:51-85) and one
  lemma per step of the loop showing that the step keeps them.

  The key invariant, `Covered`, says that every city with a finite label
  either still has a queue entry carrying exactly that label, or has been
  popped and all its routes have been relaxed from that label. Along any
  walk from the start to a city not yet popped this leaves a queue entry
  no heavier than the walk, which is why the first pop of `end` is optimal
  even though stale entries are never skipped.
 */
module SearchInvariant {
  import opened RoadGraph
  import opened Walks
  import opened SearchState

  /** Some walk from `start` reaches `x.city` with exactly `x`'s running totals. */
  ghost predicate Witnessed(g: Graph, start: City, x: Node) {
    exists p :: WalkFromTo(g, p, start, x.city) && Total(g, p) == x.Totals()
  }

  /** The queue holds an entry for `v` whose key is `k`. */
  ghost predicate InQueueAt(q: multiset<Node>, v: City, k: nat, m: Metric) {
    exists x :: x in q && x.city == v && x.Key(m) == k
  }

  /** Every route out of `v` whose far end is in `ws` has been relaxed from value `k`. */
  ghost predicate RelaxedOver(g: Graph, l: LabelMap, v: City, k: nat, m: Metric, ws: set<City>)
    requires v in g
  {
    forall w :: w in ws ==> w in g[v] && w in l && l[w].AtMost(Finite(k + g[v][w].Key(m)))
  }

  /** `v` was expanded with its current label and no neighbour has drifted above it since. */
  ghost predicate Settled(g: Graph, l: LabelMap, v: City, m: Metric) {
    v in g && v in l && l[v].Finite? && RelaxedOver(g, l, v, l[v].n, m, g[v].Keys)
  }

  ghost predicate CoveredAt(g: Graph, m: Metric, st: State, popped: set<City>, v: City) {
    var l := st.labels.Get(m);
    v in l && l[v].Finite? ==> InQueueAt(st.queue, v, l[v].n, m) || (v in popped && Settled(g, l, v, m))
  }

  /** The label maps' shape: registered cities only, inactive maps untouched, start at 0. */
  ghost predicate Shape(g: Graph, start: City, m: Metric, st: State) {
    && start in g
    && (forall m' :: st.labels.Get(m').Keys == g.Keys)
    && (forall m' :: m' != m ==> st.labels.Get(m') == Init(g, start).labels.Get(m'))
    && st.labels.Get(m)[start] == Finite(0)
  }

  /** Every finite label and every queued entry is realised by a real walk from the start. */
  ghost predicate Sound(g: Graph, start: City, m: Metric, st: State) {
    var l := st.labels.Get(m);
    && (forall v :: v in l && l[v].Finite? ==> HasWalkOfWeight(g, start, v, m, l[v].n))
    && (forall x :: x in st.queue ==>
          x.city in l && l[x.city].Finite? && l[x.city].n <= x.Key(m) && Witnessed(g, start, x))
  }

  /** The outer-loop invariant; `popped` is the (ghost) set of cities polled so far. */
  ghost predicate Inv(g: Graph, start: City, end: City, m: Metric, st: State, popped: set<City>) {
    && Closed(g)
    && Shape(g, start, m, st)
    && Sound(g, start, m, st)
    && (forall v :: CoveredAt(g, m, st, popped, v))
    && end !in popped
  }

  /**
    The inner-loop invariant while `rem` is being expanded and the
    neighbours in `todo` remain: `rem.city` may be covered only by the
    routes relaxed so far.
   */
  ghost predicate InnerInv(g: Graph, start: City, end: City, m: Metric, st: State, popped: set<City>,
                           rem: Node, todo: set<City>) {
    var l := st.labels.Get(m);
    var u := rem.city;
    && Closed(g)
    && Shape(g, start, m, st)
    && Sound(g, start, m, st)
    && end !in popped
    && u in popped && u in g && todo <= g[u].Keys
    && Witnessed(g, start, rem)
    && (forall v :: v != u ==> CoveredAt(g, m, st, popped, v))
    && Expanding(g, m, st, rem, todo)
  }

  /**
    The city being expanded keeps a label no heavier than the polled key and
    is covered by a queue entry, by an earlier expansion, or by the routes
    relaxed so far in this one.
   */
  ghost predicate Expanding(g: Graph, m: Metric, st: State, rem: Node, todo: set<City>)
    requires rem.city in g
  {
    var l := st.labels.Get(m);
    var u := rem.city;
    && u in l && l[u].Finite? && l[u].n <= rem.Key(m)
    && (|| InQueueAt(st.queue, u, l[u].n, m)
        || Settled(g, l, u, m)
        || (l[u].n == rem.Key(m) && RelaxedOver(g, l, u, rem.Key(m), m, g[u].Keys - todo)))
  }

  /** The state built by lines 37-49 satisfies the loop invariant. */
  lemma InitEstablishes(g: Graph, start: City, end: City, m: Metric)
    requires Closed(g) && start in g
    ensures Inv(g, start, end, m, Init(g, start), {})
  {
    var st := Init(g, start);
    var l := st.labels.Get(m);
    var s0 := Node(start, 0, 0, 0);
    assert WalkFromTo(g, [start], start, start) && Total(g, [start]) == Zero;
    assert Witnessed(g, start, s0);
    forall v | v in l && l[v].Finite? ensures HasWalkOfWeight(g, start, v, m, l[v].n) {
      assert v == start;
      assert Weight(g, [start], m) == 0;
    }
    forall v ensures CoveredAt(g, m, st, {}, v) {
      if v in l && l[v].Finite? {
        assert v == start;
        assert s0 in st.queue && s0.city == v && s0.Key(m) == l[v].n;
      }
    }
  }

  /**
    Along a walk to a city not yet popped, if the city at position j has a
    label no heavier than the walk's prefix, some queue entry is no
    heavier than the whole walk.
   */
  lemma {:induction false} FrontierFrom(g: Graph, m: Metric, st: State, popped: set<City>, p: seq<City>, j: nat)
    requires IsWalk(g, p) && j < |p| && p[|p| - 1] !in popped
    requires forall v :: CoveredAt(g, m, st, popped, v)
    requires p[j] in st.labels.Get(m) && st.labels.Get(m)[p[j]].Finite?
    requires st.labels.Get(m)[p[j]].n <= Weight(g, p[..j + 1], m)
    ensures exists x :: x in st.queue && x.Key(m) <= Weight(g, p, m)
    decreases |p| - j
  {
    var l := st.labels.Get(m);
    var v := p[j];
    assert CoveredAt(g, m, st, popped, v);
    PrefixWeight(g, p, j + 1, m);
    if InQueueAt(st.queue, v, l[v].n, m) {
      var x :| x in st.queue && x.city == v && x.Key(m) == l[v].n;
    } else {
      assert j < |p| - 1;
      var w := p[j + 1];
      assert w in g[v];
      PrefixStep(g, p, j);
      assert l[w].AtMost(Finite(l[v].n + g[v][w].Key(m)));
      PrefixWeight(g, p, j + 2, m);
      FrontierFrom(g, m, st, popped, p, j + 1);
    }
  }

  /** Every walk from the start to a city not yet popped is matched by a no-heavier queue entry. */
  lemma Frontier(g: Graph, start: City, end: City, m: Metric, st: State, popped: set<City>, p: seq<City>)
    requires Inv(g, start, end, m, st, popped)
    requires WalkFromTo(g, p, start, end)
    ensures exists x :: x in st.queue && x.Key(m) <= Weight(g, p, m)
  {
    assert p[..1] == [start];
    FrontierFrom(g, m, st, popped, p, 0);
  }

  /**
    Lines 53-58: when the first entry polled for `end` has the least key,
    that key is the shortest weight of any walk and equals `end`'s label.
   */
  lemma PopEnd(g: Graph, start: City, end: City, m: Metric, st: State, popped: set<City>, rem: Node)
    requires Inv(g, start, end, m, st, popped)
    requires IsMinIn(st.queue, rem, m) && rem.city == end
    ensures end in st.labels.Get(m) && st.labels.Get(m)[end] == Finite(rem.Key(m))
    ensures IsShortest(g, start, end, m, rem.Key(m))
  {
    var l := st.labels.Get(m);
    forall p | WalkFromTo(g, p, start, end) ensures rem.Key(m) <= Weight(g, p, m) {
      Frontier(g, start, end, m, st, popped, p);
    }
    var p :| WalkFromTo(g, p, start, end) && Weight(g, p, m) == l[end].n;
  }

  /** Lines 52 and 85: once the queue is empty without `end` having been polled, no walk reaches `end`. */
  lemma Drained(g: Graph, start: City, end: City, m: Metric, st: State, popped: set<City>)
    requires Inv(g, start, end, m, st, popped) && st.queue == multiset{}
    ensures !Reachable(g, start, end)
    ensures end in g ==> st.labels.Get(m)[end] == Infinity
  {
    var l := st.labels.Get(m);
    if end in g && l[end].Finite? {
      var p :| WalkFromTo(g, p, start, end) && Weight(g, p, m) == l[end].n;
      Frontier(g, start, end, m, st, popped, p);
      assert false;
    }
    if p :| WalkFromTo(g, p, start, end) {
      Frontier(g, start, end, m, st, popped, p);
      assert false;
    }
  }

  /** Removing one entry that is not the only cover of `v` keeps `v` covered. */
  lemma PopKeepsCovered(g: Graph, m: Metric, st: State, popped: set<City>, rem: Node, v: City)
    requires CoveredAt(g, m, st, popped, v)
    requires v != rem.city || !(v in st.labels.Get(m) && st.labels.Get(m)[v] == Finite(rem.Key(m)))
    ensures CoveredAt(g, m, State(st.labels, st.queue - multiset{rem}), popped + {rem.city}, v)
  {
    var l := st.labels.Get(m);
    if v in l && l[v].Finite? && InQueueAt(st.queue, v, l[v].n, m) {
      var x :| x in st.queue && x.city == v && x.Key(m) == l[v].n;
      assert x != rem;
      assert x in st.queue - multiset{rem};
    }
  }

  /** Removing an entry from the queue keeps every remaining entry realised by a walk. */
  lemma PopKeepsSound(g: Graph, start: City, m: Metric, st: State, rem: Node)
    requires Sound(g, start, m, st)
    ensures Sound(g, start, m, State(st.labels, st.queue - multiset{rem}))
  {
    forall x | x in st.queue - multiset{rem} ensures x in st.queue {
    }
  }

  /** Right after `rem` is polled, its city is covered by an entry, an earlier expansion, or `rem` itself. */
  lemma PopExpanding(g: Graph, start: City, m: Metric, st: State, popped: set<City>, rem: Node)
    requires Shape(g, start, m, st) && Sound(g, start, m, st)
    requires IsMinIn(st.queue, rem, m) && CoveredAt(g, m, st, popped, rem.city)
    ensures rem.city in g
    ensures Expanding(g, m, State(st.labels, st.queue - multiset{rem}), rem, g[rem.city].Keys)
  {
    var l := st.labels.Get(m);
    var u := rem.city;
    // A queued entry for `u` below `rem`'s key would contradict `rem` being least, so
    // either `u` is settled or its label is exactly `rem`'s key.
    assert u in l && l[u].Finite? && l[u].n <= rem.Key(m);
  }

  /** Lines 53-54, for an entry that is not `end`: after the poll, the inner-loop invariant holds. */
  lemma PopStep(g: Graph, start: City, end: City, m: Metric, st: State, popped: set<City>, rem: Node)
    requires Inv(g, start, end, m, st, popped)
    requires IsMinIn(st.queue, rem, m) && rem.city != end
    ensures rem.city in g
    ensures InnerInv(g, start, end, m, State(st.labels, st.queue - multiset{rem}), popped + {rem.city},
                     rem, g[rem.city].Keys)
  {
    var st' := State(st.labels, st.queue - multiset{rem});
    var popped' := popped + {rem.city};
    var u := rem.city;
    forall v | v != u ensures CoveredAt(g, m, st', popped', v) {
      PopKeepsCovered(g, m, st, popped, rem, v);
    }
    PopKeepsSound(g, start, m, st, rem);
    PopExpanding(g, start, m, st, popped, rem);
  }

  /** A relaxation only lowers labels, so the label maps keep their shape. */
  lemma RelaxKeepsShape(g: Graph, start: City, m: Metric, st: State, rem: Node, nb: City, e: Edge)
    requires Shape(g, start, m, st) && nb in st.labels.Get(m)
    ensures Shape(g, start, m, Relax(st, m, rem, nb, e))
  {
    var st' := Relax(st, m, rem, nb, e);
    assert st'.labels.Get(m)[start].AtMost(st.labels.Get(m)[start]);
  }

  /** A relaxation along a real route keeps every label and entry realised by a walk. */
  lemma RelaxKeepsSound(g: Graph, start: City, m: Metric, st: State, rem: Node, nb: City)
    requires Closed(g) && Sound(g, start, m, st) && Witnessed(g, start, rem)
    requires rem.city in g && nb in g[rem.city] && nb in st.labels.Get(m)
    ensures Sound(g, start, m, Relax(st, m, rem, nb, g[rem.city][nb]))
  {
    var e := g[rem.city][nb];
    var st' := Relax(st, m, rem, nb, e);
    if st' != st {
      var c := Candidate(rem, nb, e);
      var p :| WalkFromTo(g, p, start, rem.city) && Total(g, p) == rem.Totals();
      Extend(g, p, nb);
      assert WalkFromTo(g, p + [nb], start, nb) && Total(g, p + [nb]) == c.Totals();
      assert Witnessed(g, start, c);
      assert Weight(g, p + [nb], m) == c.Key(m);
      assert HasWalkOfWeight(g, start, nb, m, c.Key(m));
    }
  }

  /** Lowering other labels cannot undo a relaxation already made from `v`. */
  lemma RelaxKeepsRelaxedOver(g: Graph, l: LabelMap, l': LabelMap, v: City, k: nat, m: Metric, ws: set<City>)
    requires v in g && RelaxedOver(g, l, v, k, m, ws)
    requires l'.Keys == l.Keys && forall w :: w in l ==> l'[w].AtMost(l[w])
    ensures RelaxedOver(g, l', v, k, m, ws)
  {
  }

  /** A city other than the one being expanded stays covered across a relaxation. */
  lemma RelaxKeepsCovered(g: Graph, m: Metric, st: State, popped: set<City>, rem: Node, nb: City, e: Edge, v: City)
    requires CoveredAt(g, m, st, popped, v) && nb in st.labels.Get(m)
    requires v != nb || Relax(st, m, rem, nb, e) == st
    ensures CoveredAt(g, m, Relax(st, m, rem, nb, e), popped, v)
  {
    var st' := Relax(st, m, rem, nb, e);
    var l := st.labels.Get(m);
    var l' := st'.labels.Get(m);
    if v in l && l[v].Finite? {
      assert l'[v] == l[v];
      if InQueueAt(st.queue, v, l[v].n, m) {
        var x :| x in st.queue && x.city == v && x.Key(m) == l[v].n;
        assert x in st'.queue;
      } else {
        RelaxKeepsRelaxedOver(g, l, l', v, l[v].n, m, g[v].Keys);
      }
    }
  }

  /** A relaxation from `rem` never lowers `rem.city`'s own label: a self-loop adds a non-negative weight. */
  lemma RelaxKeepsOwnLabel(g: Graph, m: Metric, st: State, rem: Node, nb: City)
    requires rem.city in g && nb in g[rem.city] && nb in st.labels.Get(m)
    requires rem.city in st.labels.Get(m) && st.labels.Get(m)[rem.city].AtMost(Finite(rem.Key(m)))
    ensures Relax(st, m, rem, nb, g[rem.city][nb]).labels.Get(m)[rem.city] == st.labels.Get(m)[rem.city]
  {
  }

  /** A queued entry survives a relaxation, which only ever adds to the queue. */
  lemma RelaxKeepsInQueue(st: State, m: Metric, rem: Node, nb: City, e: Edge, v: City, k: nat)
    requires nb in st.labels.Get(m) && InQueueAt(st.queue, v, k, m)
    ensures InQueueAt(Relax(st, m, rem, nb, e).queue, v, k, m)
  {
    var x :| x in st.queue && x.city == v && x.Key(m) == k;
    assert x in Relax(st, m, rem, nb, e).queue;
  }

  /** Relaxing `nb` from `rem`'s key extends the set of routes relaxed from that key by `nb`. */
  lemma RelaxExtendsRelaxedOver(g: Graph, m: Metric, st: State, rem: Node, todo: set<City>, nb: City)
    requires rem.city in g && todo <= g[rem.city].Keys && nb in todo && nb in st.labels.Get(m)
    requires RelaxedOver(g, st.labels.Get(m), rem.city, rem.Key(m), m, g[rem.city].Keys - todo)
    ensures RelaxedOver(g, Relax(st, m, rem, nb, g[rem.city][nb]).labels.Get(m), rem.city, rem.Key(m), m,
                        g[rem.city].Keys - (todo - {nb}))
  {
    var u := rem.city;
    var l := st.labels.Get(m);
    var l' := Relax(st, m, rem, nb, g[u][nb]).labels.Get(m);
    RelaxKeepsRelaxedOver(g, l, l', u, rem.Key(m), m, g[u].Keys - todo);
    assert g[u].Keys - (todo - {nb}) == (g[u].Keys - todo) + {nb};
  }

  /** Relaxing a neighbour of the city being expanded keeps that city covered. */
  lemma RelaxKeepsExpanding(g: Graph, m: Metric, st: State, rem: Node, todo: set<City>, nb: City)
    requires rem.city in g && todo <= g[rem.city].Keys && nb in todo
    requires nb in st.labels.Get(m) && Expanding(g, m, st, rem, todo)
    ensures Relax(st, m, rem, nb, g[rem.city][nb]).labels.Get(m)[rem.city] == st.labels.Get(m)[rem.city]
    ensures Expanding(g, m, Relax(st, m, rem, nb, g[rem.city][nb]), rem, todo - {nb})
  {
    var u := rem.city;
    var e := g[u][nb];
    var l := st.labels.Get(m);
    var l' := Relax(st, m, rem, nb, e).labels.Get(m);
    RelaxKeepsOwnLabel(g, m, st, rem, nb);
    if InQueueAt(st.queue, u, l[u].n, m) {
      RelaxKeepsInQueue(st, m, rem, nb, e, u, l[u].n);
    } else if Settled(g, l, u, m) {
      RelaxKeepsRelaxedOver(g, l, l', u, l[u].n, m, g[u].Keys);
    } else {
      RelaxExtendsRelaxedOver(g, m, st, rem, todo, nb);
    }
  }

  /** One relaxation (lines 62-83) keeps the inner-loop invariant, with `nb` now done. */
  lemma RelaxStep(g: Graph, start: City, end: City, m: Metric, st: State, popped: set<City>,
                  rem: Node, todo: set<City>, nb: City)
    requires InnerInv(g, start, end, m, st, popped, rem, todo) && nb in todo
    ensures nb in st.labels.Get(m)
    ensures InnerInv(g, start, end, m, Relax(st, m, rem, nb, g[rem.city][nb]), popped, rem, todo - {nb})
  {
    var u := rem.city;
    var e := g[u][nb];
    var st' := Relax(st, m, rem, nb, e);
    assert nb in g;
    RelaxKeepsShape(g, start, m, st, rem, nb, e);
    RelaxKeepsSound(g, start, m, st, rem, nb);
    RelaxKeepsExpanding(g, m, st, rem, todo, nb);
    forall v | v != u ensures CoveredAt(g, m, st', popped, v) {
      if v == nb && st' != st {
        assert Candidate(rem, nb, e) in st'.queue;
      } else {
        RelaxKeepsCovered(g, m, st, popped, rem, nb, e, v);
      }
    }
  }

  /** When every neighbour has been relaxed, the outer-loop invariant holds again. */
  lemma FinishStep(g: Graph, start: City, end: City, m: Metric, st: State, popped: set<City>, rem: Node)
    requires InnerInv(g, start, end, m, st, popped, rem, {})
    ensures Inv(g, start, end, m, st, popped)
  {
    assert CoveredAt(g, m, st, popped, rem.city);
  }
}

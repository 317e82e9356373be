/**
  The shortest-path solver, `HRway.findShortestPath`
  (HaryanRoadWay.java:22-96): Dijkstra's algorithm over the three route
  weights, with the metric choosing the priority and the one label map
  that relaxation updates.
 */
module Dijkstra {
  import opened Wrappers
  import opened RoadGraph
  import opened Walks
  import opened SearchState
  import opened SearchInvariant
  import opened Termination

  /**
    One pass of the neighbour loop (lines 63-83): relaxing the route to `nb`
    keeps the neighbour-loop invariant with `nb` done, and the measure
    stays at or below where the expansion began.
   */
  lemma ExpandStep(g: Graph, start: City, end: City, m: Metric, st0: State, st: State, popped: set<City>,
                   rem: Node, todo: set<City>, nb: City, ks: seq<City>)
    requires InnerInv(g, start, end, m, st, popped, rem, todo) && nb in todo
    requires Distinct(ks) && forall v :: v in g <==> v in ks
    requires st == st0 || LexLess(Measure(st.labels.Get(m), ks), Measure(st0.labels.Get(m), ks))
    ensures rem.city in g && nb in g[rem.city] && nb in st.labels.Get(m)
    ensures InnerInv(g, start, end, m, Relax(st, m, rem, nb, g[rem.city][nb]), popped, rem, todo - {nb})
    ensures var st' := Relax(st, m, rem, nb, g[rem.city][nb]);
      st' == st0 || LexLess(Measure(st'.labels.Get(m), ks), Measure(st0.labels.Get(m), ks))
  {
    RelaxStep(g, start, end, m, st, popped, rem, todo, nb);
    RelaxDecreases(st, m, rem, nb, g[rem.city][nb], ks);
  }

  /**
    Lines 62-84: relaxes every route out of the polled city `rem.city`, in
    any order (the source iterates a `HashMap`). The result keeps the loop
    invariant and has either changed nothing or lowered the measure.
   */
  method Expand(g: Graph, m: Metric, st: State, rem: Node,
                ghost start: City, ghost end: City, ghost popped: set<City>, ghost ks: seq<City>)
    returns (st': State)
    requires rem.city in g && InnerInv(g, start, end, m, st, popped, rem, g[rem.city].Keys)
    requires Distinct(ks) && forall v :: v in g <==> v in ks
    ensures Inv(g, start, end, m, st', popped)
    ensures st' == st || LexLess(Measure(st'.labels.Get(m), ks), Measure(st.labels.Get(m), ks))
  {
    st' := st;
    var todo := g[rem.city].Keys;
    while todo != {}
      invariant InnerInv(g, start, end, m, st', popped, rem, todo)
      invariant st' == st || LexLess(Measure(st'.labels.Get(m), ks), Measure(st.labels.Get(m), ks))
      decreases todo
    {
      var nb :| nb in todo;
      ExpandStep(g, start, end, m, st, st', popped, rem, todo, nb, ks);
      st' := Relax(st', m, rem, nb, g[rem.city][nb]);
      todo := todo - {nb};
    }
    FinishStep(g, start, end, m, st', popped, rem);
  }

  /** What the label maps say once the search loop has stopped. */
  lemma Conclude(g: Graph, start: City, end: City, m: Metric, st: State, popped: set<City>)
    requires Inv(g, start, end, m, st, popped)
    requires st.queue == multiset{} || (end in g && st.labels.Get(m)[end].Finite? &&
                                        IsShortest(g, start, end, m, st.labels.Get(m)[end].n))
    ensures forall v :: v in g && st.labels.Get(m)[v].Finite? ==>
      HasWalkOfWeight(g, start, v, m, st.labels.Get(m)[v].n)
    ensures end in g ==> (st.labels.Get(m)[end].Finite? <==> Reachable(g, start, end))
    ensures end in g && st.labels.Get(m)[end].Finite? ==> IsShortest(g, start, end, m, st.labels.Get(m)[end].n)
  {
    var l := st.labels.Get(m);
    if st.queue == multiset{} {
      Drained(g, start, end, m, st, popped);
    } else {
      var p :| WalkFromTo(g, p, start, end) && Weight(g, p, m) == l[end].n;
    }
  }

  /** The loop measure went down: fewer unreached cities, a smaller label sum, or a shorter queue. */
  predicate Progress(m: Metric, ks: seq<City>, st': State, st: State) {
    || LexLess(Measure(st'.labels.Get(m), ks), Measure(st.labels.Get(m), ks))
    || (Measure(st'.labels.Get(m), ks) == Measure(st.labels.Get(m), ks) && |st'.queue| < |st.queue|)
  }

  /**
    One iteration of the search loop (lines 53-84): polls a least-key
    entry; reports `found` if it is for `end`, otherwise expands its city.
   */
  method Poll(g: Graph, m: Metric, st: State, ghost start: City, end: City, ghost popped: set<City>,
              ghost ks: seq<City>)
    returns (st': State, ghost popped': set<City>, found: bool)
    requires Inv(g, start, end, m, st, popped) && st.queue != multiset{}
    requires Distinct(ks) && forall v :: v in g <==> v in ks
    ensures Inv(g, start, end, m, st', popped')
    ensures found ==> end in g && st'.labels.Get(m)[end].Finite?
    ensures found ==> IsShortest(g, start, end, m, st'.labels.Get(m)[end].n)
    ensures !found ==> Progress(m, ks, st', st)
  {
    MinExists(st.queue, m);
    var rem :| IsMinIn(st.queue, rem, m);
    if rem.city == end {
      // Lines 57-58: the first poll of `end` ends the search; the labels are final.
      PopEnd(g, start, end, m, st, popped, rem);
      return st, popped, true;
    }
    PopStep(g, start, end, m, st, popped, rem);
    popped' := popped + {rem.city};
    var polled := State(st.labels, st.queue - multiset{rem});
    st' := Expand(g, m, polled, rem, start, end, popped', ks);
    found := false;
  }

  /**
    The search loop (lines 37-85). Polls any least-key entry, stops at the
    first entry for `end`, and otherwise expands the polled city. Returns
    the three label maps as the loop leaves them.
   */
  method Search(g: Graph, start: City, end: City, m: Metric) returns (labels: Labels)
    requires Closed(g) && start in g
    ensures forall m' :: labels.Get(m').Keys == g.Keys
    ensures labels.Get(m)[start] == Finite(0)
    ensures forall m' :: m' != m ==> labels.Get(m') == Init(g, start).labels.Get(m')
    ensures forall v :: v in g && labels.Get(m)[v].Finite? ==> HasWalkOfWeight(g, start, v, m, labels.Get(m)[v].n)
    ensures end in g ==> (labels.Get(m)[end].Finite? <==> Reachable(g, start, end))
    ensures end in g && labels.Get(m)[end].Finite? ==> IsShortest(g, start, end, m, labels.Get(m)[end].n)
  {
    var st := Init(g, start);
    ghost var popped: set<City> := {};
    ghost var ks := Enumerate(g.Keys);
    InitEstablishes(g, start, end, m);
    while st.queue != multiset{}
      invariant Inv(g, start, end, m, st, popped)
      decreases Unreached(st.labels.Get(m), ks), FiniteSum(st.labels.Get(m), ks), |st.queue|
    {
      var found;
      st, popped, found := Poll(g, m, st, start, end, popped, ks);
      if found {
        break;
      }
    }
    Conclude(g, start, end, m, st, popped);
    labels := st.labels;
  }

  /**
    `findShortestPath` as a whole (lines 22-96), returning the label that
    lines 88-95 print: `Some(w)` for the active metric's label of `end`,
    `None` while it is still "infinity", and the source's crashes, and its
    `null` output for an unregistered end, as errors.
   */
  method FindShortestPath(g: Graph, start: City, end: City, m: Metric) returns (r: Result<Option<nat>, Error>)
    requires Closed(g)
    ensures start == end ==> r == Success(Some(0))
    ensures start != end && start !in g ==> r == Failure(UnknownCity(start))
    ensures start != end && start in g && end !in g ==> r == Failure(UnknownCity(end))
    ensures start in g && end in g ==> r.Success?
    ensures start in g && end in g ==> (r.value == None <==> !Reachable(g, start, end))
    ensures start in g && end in g && r.value.Some? ==> IsShortest(g, start, end, m, r.value.value)
  {
    if start !in g {
      // The first poll takes the start entry: either it is `end` (lines 57-58)
      // or looking up its routes fails (line 62).
      if start == end {
        return Success(Some(0));
      }
      return Failure(UnknownCity(start));
    }
    var labels := Search(g, start, end, m);
    var l := labels.Get(m);
    if end !in l {
      // `Dist.get(end)` finds no entry: the source prints "null".
      return Failure(UnknownCity(end));
    }
    r := Success(if l[end].Finite? then Some(l[end].n) else None);
  }
}

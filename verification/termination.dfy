/**
  Why the search loop terminates although it never skips stale entries:
  every push lowers one label, so the triple (number of unreached cities,
  sum of finite labels, queue size) decreases lexicographically on every
  iteration of HaryanRoadWay.java:52-85.
 */
module Termination {
  import opened RoadGraph
  import opened SearchState

  ghost predicate Distinct(ks: seq<City>) {
    forall i, j :: 0 <= i < j < |ks| ==> ks[i] != ks[j]
  }

  /** Some enumeration of a finite set of cities, each listed once. */
  ghost function Enumerate(s: set<City>): (ks: seq<City>)
    ensures Distinct(ks)
    ensures forall v :: v in s <==> v in ks
  {
    if s == {} then []
    else
      var v :| v in s;
      var rest := Enumerate(s - {v});
      assert forall i :: 0 <= i < |rest| ==> rest[i] != v;
      [v] + rest
  }

  /** How many of the cities in `ks` still carry "infinity". */
  function Unreached(l: LabelMap, ks: seq<City>): nat
  {
    if |ks| == 0 then 0
    else (if ks[0] in l && l[ks[0]].Infinity? then 1 else 0) + Unreached(l, ks[1..])
  }

  /** The sum of the finite labels of the cities in `ks`. */
  function FiniteSum(l: LabelMap, ks: seq<City>): nat
  {
    if |ks| == 0 then 0
    else (if ks[0] in l && l[ks[0]].Finite? then l[ks[0]].n else 0) + FiniteSum(l, ks[1..])
  }

  /** The lexicographic order on (unreached count, finite sum). */
  predicate LexLess(a: (nat, nat), b: (nat, nat)) {
    a.0 < b.0 || (a.0 == b.0 && a.1 < b.1)
  }

  function Measure(l: LabelMap, ks: seq<City>): (nat, nat) {
    (Unreached(l, ks), FiniteSum(l, ks))
  }

  /** Changing a label of a city outside `ks` does not move the measure. */
  lemma {:induction false} Untouched(l: LabelMap, ks: seq<City>, v: City, b: Label)
    requires v !in ks
    ensures Measure(l[v := b], ks) == Measure(l, ks)
    decreases |ks|
  {
    if |ks| > 0 {
      Untouched(l, ks[1..], v, b);
    }
  }

  /** Strictly lowering one listed label strictly lowers the measure. */
  lemma {:induction false} LowerOne(l: LabelMap, ks: seq<City>, v: City, b: Label)
    requires Distinct(ks) && v in ks && v in l
    requires b.AtMost(l[v]) && b != l[v]
    ensures LexLess(Measure(l[v := b], ks), Measure(l, ks))
    decreases |ks|
  {
    if ks[0] == v {
      assert v !in ks[1..];
      Untouched(l, ks[1..], v, b);
    } else {
      assert Distinct(ks[1..]);
      LowerOne(l, ks[1..], v, b);
    }
  }

  /** A relaxation either changes nothing or lowers the active metric's measure. */
  lemma RelaxDecreases(st: State, m: Metric, rem: Node, nb: City, e: Edge, ks: seq<City>)
    requires Distinct(ks) && nb in ks && nb in st.labels.Get(m)
    ensures
      var st' := Relax(st, m, rem, nb, e);
      st' == st || LexLess(Measure(st'.labels.Get(m), ks), Measure(st.labels.Get(m), ks))
  {
    var st' := Relax(st, m, rem, nb, e);
    var l := st.labels.Get(m);
    if st' != st {
      var b := st'.labels.Get(m)[nb];
      assert st'.labels.Get(m) == l[nb := b];
      LowerOne(l, ks, nb, b);
    }
  }
}

/**
  The transient state of one search (HaryanRoadWay.java:22-85): the three
  label maps, the priority queue, and the two steps that change them.
 */
module SearchState {
  import opened RoadGraph

  /** A queue entry: a city and the running totals of the walk that reached it. */
  datatype Node = Node(city: City, dis: nat, time: nat, cost: nat)
  {
    function Totals(): Edge {
      Edge(dis, time, cost)
    }

    /** The priority of the entry under the active metric. */
    function Key(m: Metric): nat {
      Totals().Key(m)
    }
  }

  /**
    A best-known value. `Infinity` stands for the source's
    `Integer.MAX_VALUE` sentinel ("not reached yet").
   */
  datatype Label = Finite(n: nat) | Infinity
  {
    /** The label order: every finite value lies below `Infinity`. */
    predicate AtMost(l: Label) {
      l.Infinity? || (Finite? && n <= l.n)
    }

    /** A candidate value `c` is a strict improvement on this label. */
    predicate ImprovedBy(c: nat) {
      Infinity? || c < n
    }
  }

  type LabelMap = map<City, Label>

  /** The source's three maps `Dist`, `Time` and `Cost`. */
  datatype Labels = Labels(dist: LabelMap, time: LabelMap, cost: LabelMap)
  {
    function Get(m: Metric): LabelMap {
      match m
      case Distance => dist
      case Time => time
      case Cost => cost
    }

    function Set(m: Metric, v: City, l: Label): Labels {
      match m
      case Distance => this.(dist := dist[v := l])
      case Time => this.(time := time[v := l])
      case Cost => this.(cost := cost[v := l])
    }
  }

  /** Labels plus the priority queue, modelled as a multiset because equal keys pop in any order. */
  datatype State = State(labels: Labels, queue: multiset<Node>)

  /**
    Lines 37-49: every registered city starts at "infinity" in all three
    maps, the start at 0, and the queue holds the single entry (start, 0, 0, 0).
   */
  function Init(g: Graph, start: City): (st: State)
    ensures forall m :: st.labels.Get(m).Keys == g.Keys + {start}
    ensures forall m :: st.labels.Get(m)[start] == Finite(0)
    ensures forall m, v :: v in g && v != start ==> st.labels.Get(m)[v] == Infinity
    ensures st.queue == multiset{Node(start, 0, 0, 0)}
  {
    var unreached := map v | v in g :: Infinity;
    var l := unreached[start := Finite(0)];
    State(Labels(l, l, l), multiset{Node(start, 0, 0, 0)})
  }

  /** The entry pushed for `nb` when it is reached from `rem` along the route `e` (lines 65-67). */
  function Candidate(rem: Node, nb: City, e: Edge): (c: Node)
    ensures c.city == nb && c.Totals() == rem.Totals().Plus(e)
  {
    Node(nb, rem.dis + e.dis, rem.time + e.time, rem.cost + e.cost)
  }

  /** `rem` has a least key in the queue: one of the entries `poll` may return. */
  predicate IsMinIn(q: multiset<Node>, rem: Node, m: Metric) {
    rem in q && forall x :: x in q ==> rem.Key(m) <= x.Key(m)
  }

  /**
    Lines 62-83 for one neighbour: the candidate replaces `nb`'s label in the
    active map, and is queued, only when it is strictly smaller.
   */
  function Relax(st: State, m: Metric, rem: Node, nb: City, e: Edge): (st': State)
    requires nb in st.labels.Get(m)
    ensures forall m' :: m' != m ==> st'.labels.Get(m') == st.labels.Get(m')
    ensures st'.labels.Get(m).Keys == st.labels.Get(m).Keys
    ensures forall v :: v in st.labels.Get(m) ==> st'.labels.Get(m)[v].AtMost(st.labels.Get(m)[v])
    ensures forall v :: v in st.labels.Get(m) && v != nb ==> st'.labels.Get(m)[v] == st.labels.Get(m)[v]
    ensures st' != st <==> st.labels.Get(m)[nb].ImprovedBy(rem.Key(m) + e.Key(m))
    ensures st' != st ==>
      && st'.labels.Get(m)[nb] == Finite(rem.Key(m) + e.Key(m))
      && st'.queue == st.queue + multiset{Candidate(rem, nb, e)}
    ensures st'.labels.Get(m)[nb].AtMost(Finite(rem.Key(m) + e.Key(m)))
  {
    var c := Candidate(rem, nb, e);
    if st.labels.Get(m)[nb].ImprovedBy(c.Key(m)) then
      State(st.labels.Set(m, nb, Finite(c.Key(m))), st.queue + multiset{c})
    else
      st
  }

  /** A non-empty queue always has an entry of least key, so `poll` is always defined. */
  lemma {:induction false} MinExists(q: multiset<Node>, m: Metric)
    requires |q| > 0
    ensures exists rem :: IsMinIn(q, rem, m)
    decreases |q|
  {
    var x :| x in q;
    var rest := q - multiset{x};
    if |rest| == 0 {
      assert q == multiset{x};
      assert IsMinIn(q, x, m);
    } else {
      MinExists(rest, m);
      var y :| IsMinIn(rest, y, m);
      forall z | z in q ensures z == x || z in rest {
        if z != x {
          assert rest[z] == q[z];
        }
      }
      if x.Key(m) <= y.Key(m) {
        assert IsMinIn(q, x, m);
      } else {
        assert IsMinIn(q, y, m);
      }
    }
  }
}

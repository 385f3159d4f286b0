/**
 * Dependency graphs over declared package names, the order that always takes the first
 * declared package whose dependencies are out, and why that order is the right one.
 */
module PublicationOrder {
  import opened Lists

  type Name = string

  /** Names in declaration order and the dependencies of each. */
  datatype Graph = Graph(names: seq<Name>, deps: map<Name, set<Name>>)

  predicate ValidGraph(g: Graph) {
    && Distinct(g.names)
    && g.deps.Keys == ToSet(g.names)
    && forall n :: n in g.deps ==> g.deps[n] <= g.deps.Keys
  }

  // ---- Orders ----

  /** Every dependency of every placed name is placed earlier. */
  predicate DependenciesFirst(g: Graph, order: seq<Name>)
    requires ToSet(order) <= g.deps.Keys
  {
    forall k :: 0 <= k < |order| ==> order[k] in ToSet(order) && g.deps[order[k]] <= ToSet(order[..k])
  }

  predicate PublicationOrderOf(g: Graph, order: seq<Name>) {
    && Distinct(order)
    && ToSet(order) == g.deps.Keys
    && DependenciesFirst(g, order)
  }

  predicate Ready(g: Graph, placed: set<Name>, n: Name) {
    n in g.deps && n !in placed && g.deps[n] <= placed
  }

  /** The first declared name at or after `from` that is ready, |names| when there is none. */
  function FirstReady(g: Graph, placed: set<Name>, from: nat): (i: nat)
    requires from <= |g.names|
    ensures from <= i <= |g.names|
    ensures i < |g.names| ==> Ready(g, placed, g.names[i])
    ensures forall j :: from <= j < i ==> !Ready(g, placed, g.names[j])
    decreases |g.names| - from
  {
    if from == |g.names| || Ready(g, placed, g.names[from]) then from else FirstReady(g, placed, from + 1)
  }

  predicate Partial(g: Graph, order: seq<Name>) {
    Distinct(order) && ToSet(order) <= g.deps.Keys && DependenciesFirst(g, order)
  }

  lemma {:induction false} DistinctSize<T>(s: seq<T>)
    requires Distinct(s)
    ensures |ToSet(s)| == |s|
  {
    if s != [] {
      var front, last := s[..|s| - 1], s[|s| - 1];
      DistinctSize(front);
      assert last !in front;
      assert ToSet(s) == ToSet(front) + {last};
    }
  }

  lemma PartialBound(g: Graph, order: seq<Name>)
    requires ValidGraph(g) && Partial(g, order)
    ensures |order| <= |g.names|
    ensures |order| == |g.names| ==> ToSet(order) == g.deps.Keys
  {
    DistinctSize(order);
    DistinctSize(g.names);
    SubsetSize(ToSet(order), g.deps.Keys);
  }

  lemma DistinctAppend<T>(s: seq<T>, x: T)
    requires Distinct(s) && x !in ToSet(s)
    ensures Distinct(s + [x])
  {
    assert forall i :: 0 <= i < |s| ==> s[i] in ToSet(s);
  }

  lemma ExtendPartial(g: Graph, order: seq<Name>, n: Name)
    requires ValidGraph(g) && Partial(g, order) && Ready(g, ToSet(order), n)
    ensures Partial(g, order + [n])
  {
    DistinctAppend(order, n);
    hide Distinct;
    var extended := order + [n];
    ToSetAppend(order, n);
    forall k | 0 <= k < |extended| ensures g.deps[extended[k]] <= ToSet(extended[..k]) {
      if k < |order| {
        assert extended[..k] == order[..k] && extended[k] == order[k];
      } else {
        assert extended[..k] == order;
      }
    }
  }

  /** Keeps taking the first declared ready name. */
  function Greedy(g: Graph, order: seq<Name>): (r: seq<Name>)
    requires ValidGraph(g) && Partial(g, order)
    ensures Partial(g, r) && order <= r
    ensures forall n :: n in g.deps ==> !Ready(g, ToSet(r), n)
    decreases |g.names| - |order|
  {
    PartialBound(g, order);
    var i := FirstReady(g, ToSet(order), 0);
    if i == |g.names| then
      NoneReady(g, ToSet(order));
      order
    else
      ExtendPartial(g, order, g.names[i]);
      PartialBound(g, order + [g.names[i]]);
      Greedy(g, order + [g.names[i]])
  }

  lemma NoneReady(g: Graph, placed: set<Name>)
    requires ValidGraph(g) && FirstReady(g, placed, 0) == |g.names|
    ensures forall n :: n in g.deps ==> !Ready(g, placed, n)
  {
    forall n | n in g.deps ensures !Ready(g, placed, n) {
      assert n in ToSet(g.names);
      var j :| 0 <= j < |g.names| && g.names[j] == n;
    }
  }

  lemma EmptyPartial(g: Graph)
    requires ValidGraph(g)
    ensures Partial(g, [])
  {
  }

  function Plan(g: Graph): (order: seq<Name>)
    requires ValidGraph(g)
    ensures Partial(g, order)
  {
    EmptyPartial(g);
    Greedy(g, [])
  }

  // ---- Cycles ----

  /** Each name depends on the next, and the last on the first. */
  predicate IsCycle(g: Graph, c: seq<Name>) {
    && c != []
    && (forall i :: 0 <= i < |c| ==> c[i] in g.deps)
    && (forall i :: 0 <= i < |c| - 1 ==> c[i + 1] in g.deps[c[i]])
    && c[0] in g.deps[c[|c| - 1]]
  }

  ghost predicate Cyclic(g: Graph) {
    exists c :: IsCycle(g, c)
  }

  function Position(order: seq<Name>, n: Name): (k: nat)
    requires n in order
    ensures k < |order| && order[k] == n
  {
    IndexOf(order, n)
  }

  lemma EarlierPosition(g: Graph, order: seq<Name>, n: Name, d: Name)
    requires ValidGraph(g) && PublicationOrderOf(g, order) && n in g.deps && d in g.deps[n]
    ensures n in order && d in order && Position(order, d) < Position(order, n)
  {
    assert n in ToSet(order) && d in ToSet(order);
    var k := Position(order, n);
    assert d in ToSet(order[..k]);
    var j :| 0 <= j < k && order[..k][j] == d;
    assert order[j] == d && order[Position(order, d)] == d;
    assert j == Position(order, d);
  }

  lemma {:induction false} PositionsDescend(g: Graph, order: seq<Name>, c: seq<Name>, k: nat)
    requires ValidGraph(g) && PublicationOrderOf(g, order) && IsCycle(g, c) && k < |c|
    ensures c[0] in order && c[k] in order && Position(order, c[k]) + k <= Position(order, c[0])
  {
    assert c[0] in ToSet(order) && c[k] in ToSet(order);
    if k > 0 {
      PositionsDescend(g, order, c, k - 1);
      EarlierPosition(g, order, c[k - 1], c[k]);
    }
  }

  /** A graph with a cycle has no publication order at all. */
  lemma CyclePreventsOrder(g: Graph, order: seq<Name>)
    requires ValidGraph(g) && Cyclic(g)
    ensures !PublicationOrderOf(g, order)
  {
    if PublicationOrderOf(g, order) {
      var c :| IsCycle(g, c);
      PositionsDescend(g, order, c, |c| - 1);
      EarlierPosition(g, order, c[|c| - 1], c[0]);
      assert false;
    }
  }

  /** A walk that stays inside a set in which every name depends on another member. */
  predicate IsWalk(g: Graph, stuck: set<Name>, w: seq<Name>) {
    && (forall i :: 0 <= i < |w| ==> w[i] in stuck && w[i] in g.deps)
    && (forall i :: 0 <= i < |w| - 1 ==> w[i + 1] in g.deps[w[i]])
  }

  lemma {:induction false} LongWalk(g: Graph, stuck: set<Name>, n: nat) returns (w: seq<Name>)
    requires stuck != {} && stuck <= g.deps.Keys
    requires forall x :: x in stuck ==> g.deps[x] * stuck != {}
    ensures |w| == n + 1 && IsWalk(g, stuck, w)
  {
    if n == 0 {
      var x :| x in stuck;
      w := [x];
    } else {
      var shorter := LongWalk(g, stuck, n - 1);
      var last := shorter[|shorter| - 1];
      var next :| next in g.deps[last] * stuck;
      w := shorter + [next];
    }
  }

  lemma {:induction false} Pigeonhole(w: seq<Name>, holes: set<Name>) returns (i: nat, j: nat)
    requires |w| > |holes| && forall k :: 0 <= k < |w| ==> w[k] in holes
    ensures i < j < |w| && w[i] == w[j]
  {
    var front, last := w[..|w| - 1], w[|w| - 1];
    if last in front {
      i, j := IndexOf(front, last), |w| - 1;
    } else {
      assert |holes - {last}| == |holes| - 1;
      i, j := Pigeonhole(front, holes - {last});
    }
  }

  lemma StuckMeansCycle(g: Graph, stuck: set<Name>)
    requires stuck != {} && stuck <= g.deps.Keys
    requires forall x :: x in stuck ==> g.deps[x] * stuck != {}
    ensures Cyclic(g)
  {
    var w := LongWalk(g, stuck, |stuck|);
    var i, j := Pigeonhole(w, stuck);
    var c := w[i..j];
    assert c[|c| - 1] == w[j - 1] && w[j] in g.deps[w[j - 1]];
    assert IsCycle(g, c);
  }

  /** The plan is incomplete exactly when the graph has a cycle. */
  lemma PlanFailsExactlyOnCycles(g: Graph)
    requires ValidGraph(g)
    ensures |Plan(g)| < |g.names| <==> Cyclic(g)
    ensures |Plan(g)| == |g.names| <==> PublicationOrderOf(g, Plan(g))
  {
    var order := Plan(g);
    PlanStops(g);
    PartialBound(g, order);
    hide Plan, Ready, DependenciesFirst, Distinct;
    if |order| == |g.names| {
      if Cyclic(g) {
        CyclePreventsOrder(g, order);
        assert false;
      }
    } else {
      IncompleteMeansCycle(g, order);
    }
  }

  lemma PlanStops(g: Graph)
    requires ValidGraph(g)
    ensures forall n :: n in g.deps ==> !Ready(g, ToSet(Plan(g)), n)
  {
    EmptyPartial(g);
  }

  lemma IncompleteMeansCycle(g: Graph, order: seq<Name>)
    requires ValidGraph(g) && Partial(g, order) && |order| < |g.names|
    requires forall n :: n in g.deps ==> !Ready(g, ToSet(order), n)
    ensures Cyclic(g) && ToSet(order) != g.deps.Keys
  {
    hide DependenciesFirst, Distinct;
    DistinctSize(order);
    DistinctSize(g.names);
    assert ToSet(order) != g.deps.Keys;
    assert exists x :: x in g.deps.Keys && x !in ToSet(order);
    var stuck := g.deps.Keys - ToSet(order);
    forall x | x in stuck ensures g.deps[x] * stuck != {} {
      assert !Ready(g, ToSet(order), x);
      var d :| d in g.deps[x] && d !in ToSet(order);
      assert d in g.deps[x] * stuck;
    }
    StuckMeansCycle(g, stuck);
  }

  // ---- Least order ----

  function Index(g: Graph, n: Name): nat {
    IndexOf(g.names, n)
  }

  lemma IndexOfName(g: Graph, i: nat)
    requires ValidGraph(g) && i < |g.names|
    ensures Index(g, g.names[i]) == i
  {
    assert g.names[i] !in g.names[..i];
    IndexOfAt(g.names, g.names[i], i);
  }

  /** `a` is `b`, or is smaller by declaration index where they first differ. */
  predicate NotAfter(g: Graph, a: seq<Name>, b: seq<Name>) {
    a == b || exists k :: 0 <= k < |a| && k < |b| && a[..k] == b[..k] && Index(g, a[k]) < Index(g, b[k])
  }

  /** If anything is ready, the first declared ready name comes next. */
  lemma GreedyStep(g: Graph, order: seq<Name>, n: Name) returns (m: Name)
    requires ValidGraph(g) && Partial(g, order) && Ready(g, ToSet(order), n)
    ensures Ready(g, ToSet(order), m) && Partial(g, order + [m])
    ensures Greedy(g, order) == Greedy(g, order + [m])
    ensures m == n || Index(g, m) < Index(g, n)
  {
    hide Ready, FirstReady, DependenciesFirst, Distinct, Index, ValidGraph;
    FirstReadyBefore(g, ToSet(order), n);
    m := g.names[FirstReady(g, ToSet(order), 0)];
    ExtendPartial(g, order, m);
  }

  lemma FirstReadyBefore(g: Graph, placed: set<Name>, n: Name)
    requires ValidGraph(g) && Ready(g, placed, n)
    ensures var i := FirstReady(g, placed, 0);
            i < |g.names| && (g.names[i] == n || Index(g, g.names[i]) < Index(g, n))
  {
    assert n in ToSet(g.names);
    var j :| 0 <= j < |g.names| && g.names[j] == n;
    var i := FirstReady(g, placed, 0);
    IndexOfName(g, i);
    IndexOfName(g, j);
  }

  lemma {:induction false} GreedyIsLeastFrom(g: Graph, order: seq<Name>, other: seq<Name>)
    requires ValidGraph(g) && Partial(g, order) && PublicationOrderOf(g, other) && order <= other
    ensures NotAfter(g, Greedy(g, order), other)
    decreases |other| - |order|
  {
    hide Ready, FirstReady, DependenciesFirst, Distinct, Index, ValidGraph;
    var k := |order|;
    var r := Greedy(g, order);
    if k == |other| {
      assert order == other;
      CompleteIsFinal(g, order);
    } else {
      assert other[..k] == order;
      ReadyNext(g, other, k);
      var m := GreedyStep(g, order, other[k]);
      if m == other[k] {
        assert order + [m] == other[..k + 1];
        GreedyIsLeastFrom(g, order + [m], other);
      } else {
        assert order + [m] <= r;
        assert r[..k] == other[..k] && r[k] == m;
      }
    }
  }

  lemma CompleteIsFinal(g: Graph, order: seq<Name>)
    requires ValidGraph(g) && PublicationOrderOf(g, order)
    ensures Partial(g, order) && Greedy(g, order) == order
  {
    forall j | 0 <= j < |g.names| ensures !Ready(g, ToSet(order), g.names[j]) {
      assert g.names[j] in ToSet(g.names);
    }
  }

  lemma ReadyNext(g: Graph, other: seq<Name>, k: nat)
    requires ValidGraph(g) && PublicationOrderOf(g, other) && k < |other|
    ensures Ready(g, ToSet(other[..k]), other[k])
  {
    assert other[k] in ToSet(other);
    forall x | x in other[..k] ensures x != other[k] {
    }
  }

  /** No publication order comes before the plan when compared by declaration index. */
  lemma PlanIsLeast(g: Graph, other: seq<Name>)
    requires ValidGraph(g) && PublicationOrderOf(g, other)
    ensures PublicationOrderOf(g, Plan(g)) && NotAfter(g, Plan(g), other)
  {
    PlanFailsExactlyOnCycles(g);
    PartialBound(g, Plan(g));
    if Cyclic(g) {
      CyclePreventsOrder(g, other);
      assert false;
    }
    EmptyPartial(g);
    GreedyIsLeastFrom(g, [], other);
  }
}

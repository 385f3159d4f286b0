/**
 * The loops of planExpectedEvidencePublication: counting in-degrees, keeping the ready list
 * sorted by declaration, and releasing dependents as packages are placed.
 */
module PublishKahn {
  import opened Lists
  import opened PublicationOrder
  import opened PublishPlan

  function DependentsAmong(g: Graph, d: Name, among: set<Name>): set<Name> {
    set m | m in among && m in g.deps && d in g.deps[m]
  }

  /** The dependents of each name, each listed once. */
  predicate ListsDependents(g: Graph, dependents: map<Name, seq<Name>>, among: set<Name>) {
    && dependents.Keys == g.deps.Keys
    && forall d :: d in dependents ==> Distinct(dependents[d]) && ToSet(dependents[d]) == DependentsAmong(g, d, among)
  }

  method CountDependencies(g: Graph) returns (indegree: map<Name, int>, dependents: map<Name, seq<Name>>)
    requires ValidGraph(g)
    ensures indegree.Keys == g.deps.Keys && forall n :: n in g.deps ==> indegree[n] == |g.deps[n]|
    ensures ListsDependents(g, dependents, g.deps.Keys)
  {
    hide Distinct;
    indegree := map n | n in g.deps :: 0;
    dependents := map n | n in g.deps :: [];
    EmptyDistinct();
    for i := 0 to |g.names|
      invariant indegree.Keys == g.deps.Keys
      invariant forall n :: n in g.deps ==> indegree[n] == if n in g.names[..i] then |g.deps[n]| else 0
      invariant ListsDependents(g, dependents, ToSet(g.names[..i]))
    {
      NextName(g, i);
      dependents := AddDependent(g, g.names[i], dependents, ToSet(g.names[..i]));
      indegree := indegree[g.names[i] := |g.deps[g.names[i]]|];
    }
    assert g.names[..|g.names|] == g.names;
  }

  lemma EmptyDistinct()
    ensures Distinct<Name>([])
  {
  }

  lemma NextName(g: Graph, i: nat)
    requires ValidGraph(g) && i < |g.names|
    ensures g.names[i] in g.deps && g.names[i] !in g.names[..i]
    ensures g.names[..i + 1] == g.names[..i] + [g.names[i]]
    ensures ToSet(g.names[..i + 1]) == ToSet(g.names[..i]) + {g.names[i]}
  {
    assert g.names[i] in ToSet(g.names);
    ToSetAppend(g.names[..i], g.names[i]);
  }

  /** One record's inner loop: it is pushed onto the list of each of its dependencies. */
  method AddDependent(g: Graph, m: Name, lists: map<Name, seq<Name>>, ghost among: set<Name>)
    returns (dependents: map<Name, seq<Name>>)
    requires ValidGraph(g) && m in g.deps && m !in among && ListsDependents(g, lists, among)
    ensures ListsDependents(g, dependents, among + {m})
  {
    hide Distinct, DependentsAmong, ToSet;
    dependents := lists;
    var todo := g.deps[m];
    while todo != {}
      invariant todo <= g.deps[m] && dependents.Keys == g.deps.Keys
      invariant forall d :: d in dependents ==>
                  dependents[d] == if d in g.deps[m] && d !in todo then lists[d] + [m] else lists[d]
    {
      var d :| d in todo;
      dependents := dependents[d := dependents[d] + [m]];
      todo := todo - {d};
    }
    forall d | d in dependents
      ensures Distinct(dependents[d]) && ToSet(dependents[d]) == DependentsAmong(g, d, among + {m})
    {
      DependentsGrow(g, d, m, among);
      if d in g.deps[m] {
        AppendDistinct(lists[d], m);
      }
    }
  }

  lemma DependentsGrow(g: Graph, d: Name, m: Name, among: set<Name>)
    requires m in g.deps && m !in among
    ensures DependentsAmong(g, d, among + {m})
         == DependentsAmong(g, d, among) + (if d in g.deps[m] then {m} else {})
    ensures forall list: seq<Name> :: ToSet(list) == DependentsAmong(g, d, among) ==>
              m !in list && ToSet(list + [m]) == DependentsAmong(g, d, among) + {m}
  {
    forall list: seq<Name> | ToSet(list) == DependentsAmong(g, d, among)
      ensures m !in list && ToSet(list + [m]) == DependentsAmong(g, d, among) + {m}
    {
      assert m !in ToSet(list);
      ToSetAppend(list, m);
    }
  }

  // ---- The ready list ----

  function InsertByIndex(g: Graph, n: Name, sorted: seq<Name>): seq<Name> {
    if sorted == [] || Index(g, n) <= Index(g, sorted[0]) then [n] + sorted
    else [sorted[0]] + InsertByIndex(g, n, sorted[1..])
  }

  function SortByIndex(g: Graph, ready: seq<Name>): seq<Name> {
    if ready == [] then [] else InsertByIndex(g, ready[0], SortByIndex(g, ready[1..]))
  }

  predicate AscendingByIndex(g: Graph, s: seq<Name>) {
    forall i, j :: 0 <= i < j < |s| ==> Index(g, s[i]) <= Index(g, s[j])
  }

  lemma {:induction false} InsertByIndexKeeps(g: Graph, n: Name, sorted: seq<Name>)
    requires AscendingByIndex(g, sorted)
    ensures AscendingByIndex(g, InsertByIndex(g, n, sorted))
    ensures ToSet(InsertByIndex(g, n, sorted)) == ToSet(sorted) + {n}
    ensures |InsertByIndex(g, n, sorted)| == |sorted| + 1
  {
    hide Index;
    if sorted == [] || Index(g, n) <= Index(g, sorted[0]) {
      PrependAscending(g, n, sorted);
    } else {
      InsertByIndexKeeps(g, n, sorted[1..]);
      var rest := InsertByIndex(g, n, sorted[1..]);
      forall x | x in rest ensures Index(g, sorted[0]) <= Index(g, x) {
        assert x in ToSet(rest);
        assert x == n || x in sorted[1..];
      }
      PrependAscending(g, sorted[0], rest);
      assert sorted == [sorted[0]] + sorted[1..];
      PrependSet(sorted[0], sorted[1..]);
    }
  }

  lemma PrependSet(n: Name, s: seq<Name>)
    ensures ToSet([n] + s) == ToSet(s) + {n}
  {
  }

  lemma PrependAscending(g: Graph, n: Name, s: seq<Name>)
    requires AscendingByIndex(g, s) && (s == [] || Index(g, n) <= Index(g, s[0]) || forall x :: x in s ==> Index(g, n) <= Index(g, x))
    ensures AscendingByIndex(g, [n] + s) && ToSet([n] + s) == ToSet(s) + {n}
  {
    hide Index;
    PrependSet(n, s);
    forall i, j | 0 <= i < j < |s| + 1 ensures Index(g, ([n] + s)[i]) <= Index(g, ([n] + s)[j]) {
      if i == 0 && j > 1 && Index(g, n) <= Index(g, s[0]) {
        assert Index(g, s[0]) <= Index(g, s[j - 1]);
      }
    }
  }

  lemma {:induction false} SortByIndexKeeps(g: Graph, ready: seq<Name>)
    ensures AscendingByIndex(g, SortByIndex(g, ready))
    ensures ToSet(SortByIndex(g, ready)) == ToSet(ready)
    ensures |SortByIndex(g, ready)| == |ready|
  {
    if ready != [] {
      SortByIndexKeeps(g, ready[1..]);
      InsertByIndexKeeps(g, ready[0], SortByIndex(g, ready[1..]));
      assert ready == [ready[0]] + ready[1..];
    }
  }

  lemma {:induction false} SizeMeansDistinct(s: seq<Name>)
    requires |ToSet(s)| == |s|
    ensures Distinct(s)
  {
    if s != [] {
      var front, last := s[..|s| - 1], s[|s| - 1];
      assert s == front + [last];
      ToSetAppend(front, last);
      ToSetSize(front);
      SizeMeansDistinct(front);
      assert last !in ToSet(front);
    }
  }

  /** In-degrees count the dependencies still to be placed; the ready list is what can go next. */
  predicate Counts(g: Graph, indegree: map<Name, int>, placed: set<Name>) {
    indegree.Keys == g.deps.Keys && forall n :: n in g.deps ==> indegree[n] == |g.deps[n] - placed|
  }

  ghost predicate ListsReady(g: Graph, ready: seq<Name>, placed: set<Name>) {
    Distinct(ready) && forall n :: n in ready <==> Ready(g, placed, n)
  }

  /** Sorting the ready list puts the first declared ready name in front. */
  lemma HeadIsFirstReady(g: Graph, ready: seq<Name>, placed: set<Name>)
    requires ValidGraph(g) && ListsReady(g, ready, placed) && ready != []
    ensures var sorted := SortByIndex(g, ready);
            && sorted != [] && ListsReady(g, sorted, placed)
            && FirstReady(g, placed, 0) < |g.names| && sorted[0] == g.names[FirstReady(g, placed, 0)]
  {
    var sorted := SortByIndex(g, ready);
    SortByIndexKeeps(g, ready);
    DistinctSize(ready);
    SizeMeansDistinct(sorted);
    forall n ensures n in sorted <==> n in ready {
      assert n in sorted <==> n in ToSet(sorted);
      assert n in ready <==> n in ToSet(ready);
    }
    assert sorted[0] in sorted;
    FirstReadyBefore(g, placed, sorted[0]);
    var first := g.names[FirstReady(g, placed, 0)];
    assert first in sorted;
    var k :| 0 <= k < |sorted| && sorted[k] == first;
    assert Index(g, sorted[0]) <= Index(g, sorted[k]);
  }

  /** Whatever is placed has its dependencies placed. */
  predicate Closed(g: Graph, placed: set<Name>) {
    forall m :: m in placed && m in g.deps ==> g.deps[m] <= placed
  }

  lemma DependentFacts(g: Graph, next: Name, m: Name, placed: set<Name>)
    requires m in DependentsAmong(g, next, g.deps.Keys) && Closed(g, placed) && next !in placed
    ensures m in g.deps && next in g.deps[m] && !Ready(g, placed, m) && m !in placed
  {
  }

  /** Placing `next` lowers the count of each dependent by one and releases those that reach zero. */
  method ReleaseDependents(
    g: Graph, next: Name, list: seq<Name>, counts: map<Name, int>, waiting: seq<Name>, ghost placed: set<Name>)
    returns (indegree: map<Name, int>, ready: seq<Name>)
    requires ValidGraph(g) && Ready(g, placed, next) && Closed(g, placed)
    requires Distinct(list) && ToSet(list) == DependentsAmong(g, next, g.deps.Keys)
    requires Counts(g, counts, placed) && Distinct(waiting)
    requires forall n :: n in waiting <==> Ready(g, placed, n) && n != next
    ensures Counts(g, indegree, placed + {next}) && ListsReady(g, ready, placed + {next})
  {
    hide ValidGraph, Counts, DependentsAmong, Ready, Closed;
    NextUnplaced(g, placed, next);
    CountKeys(g, counts, placed);
    indegree, ready := counts, waiting;
    var i := 0;
    while i < |list|
      invariant 0 <= i <= |list|
      invariant indegree.Keys == g.deps.Keys
      invariant forall n :: n in g.deps ==> indegree[n] == if n in list[..i] then counts[n] - 1 else counts[n]
      invariant Distinct(ready)
      invariant forall n :: n in ready <==> n in waiting || (n in list[..i] && n in g.deps && counts[n] == 1)
    {
      var m := list[i];
      assert m in ToSet(list) && m !in list[..i];
      assert list[..i + 1] == list[..i] + [m];
      DependentFacts(g, next, m, placed);
      var remaining := indegree[m] - 1;
      indegree := indegree[m := remaining];
      if remaining == 0 {
        AppendDistinct(ready, m);
        ready := ready + [m];
      }
      i := i + 1;
    }
    assert list[..|list|] == list;
    AllReleased(g, next, list, counts, waiting, placed, indegree, ready);
  }

  lemma NextUnplaced(g: Graph, placed: set<Name>, next: Name)
    requires Ready(g, placed, next)
    ensures next in g.deps && next !in placed
  {
  }

  lemma CountKeys(g: Graph, counts: map<Name, int>, placed: set<Name>)
    requires Counts(g, counts, placed)
    ensures counts.Keys == g.deps.Keys
  {
  }

  lemma AppendDistinct(s: seq<Name>, x: Name)
    requires Distinct(s) && x !in s
    ensures Distinct(s + [x])
  {
  }

  lemma AllReleased(g: Graph, next: Name, list: seq<Name>, counts: map<Name, int>, waiting: seq<Name>,
                    placed: set<Name>, indegree: map<Name, int>, ready: seq<Name>)
    requires Ready(g, placed, next) && Closed(g, placed)
    requires ToSet(list) == DependentsAmong(g, next, g.deps.Keys) && Counts(g, counts, placed)
    requires forall n :: n in waiting <==> Ready(g, placed, n) && n != next
    requires indegree.Keys == g.deps.Keys
    requires forall n :: n in g.deps ==> indegree[n] == if n in list then counts[n] - 1 else counts[n]
    requires Distinct(ready)
    requires forall n :: n in ready <==> n in waiting || (n in list && n in g.deps && counts[n] == 1)
    ensures Counts(g, indegree, placed + {next}) && ListsReady(g, ready, placed + {next})
  {
    forall n | n in g.deps
      ensures indegree[n] == |g.deps[n] - (placed + {next})|
      ensures n in ready <==> Ready(g, placed + {next}, n)
    {
      assert n in list <==> n in ToSet(list);
      Released(g, next, n, placed);
    }
  }

  lemma Released(g: Graph, next: Name, n: Name, placed: set<Name>)
    requires n in g.deps && Ready(g, placed, next) && Closed(g, placed)
    ensures |g.deps[n] - (placed + {next})|
         == if next in g.deps[n] then |g.deps[n] - placed| - 1 else |g.deps[n] - placed|
    ensures Ready(g, placed + {next}, n)
       <==> (Ready(g, placed, n) && n != next) || (next in g.deps[n] && |g.deps[n] - placed| == 1)
  {
    var left := g.deps[n] - placed;
    assert g.deps[n] - (placed + {next}) == left - {next};
    if next in g.deps[n] {
      assert |left - {next}| == |left| - 1;
      if |left| == 1 {
        assert left - {next} == {};
      }
    } else {
      assert left - {next} == left;
      assert g.deps[n] <= placed + {next} <==> g.deps[n] <= placed;
    }
  }

  // ---- The algorithm ----

  /** What one round of the main loop relies on. */
  ghost predicate KahnInvariant(g: Graph, ordered: seq<Name>, indegree: map<Name, int>, ready: seq<Name>) {
    && ValidGraph(g) && Partial(g, ordered)
    && Greedy(g, ordered) == Plan(g)
    && Counts(g, indegree, ToSet(ordered))
    && ListsReady(g, ready, ToSet(ordered))
  }

  lemma KahnStart(g: Graph, indegree: map<Name, int>)
    requires ValidGraph(g) && indegree.Keys == g.deps.Keys
    requires forall n :: n in g.deps ==> indegree[n] == |g.deps[n]|
    ensures KahnInvariant(g, [], indegree, WithCountZero(g.names, indegree))
  {
    hide Greedy, WithCountZero, Partial, Distinct, Counts, ListsReady, ValidGraph;
    PlanStarts(g);
    assert ToSet<Name>([]) == {};
    CountsAtStart(g, indegree);
    ReadyAtStart(g, indegree);
  }

  lemma CountsAtStart(g: Graph, indegree: map<Name, int>)
    requires indegree.Keys == g.deps.Keys && forall n :: n in g.deps ==> indegree[n] == |g.deps[n]|
    ensures Counts(g, indegree, {})
  {
    forall n | n in g.deps ensures indegree[n] == |g.deps[n] - {}| {
      assert g.deps[n] - {} == g.deps[n];
    }
  }

  lemma ReadyAtStart(g: Graph, indegree: map<Name, int>)
    requires ValidGraph(g) && indegree.Keys == g.deps.Keys
    requires forall n :: n in g.deps ==> indegree[n] == |g.deps[n]|
    ensures ListsReady(g, WithCountZero(g.names, indegree), {})
  {
    hide WithCountZero, Distinct;
    WithCountZeroContents(g.names, indegree);
    forall n ensures n in WithCountZero(g.names, indegree) <==> Ready(g, {}, n) {
      assert n in g.names <==> n in ToSet(g.names);
      if n in g.deps {
        assert |g.deps[n]| == 0 <==> g.deps[n] == {};
      }
    }
  }

  lemma PlanStarts(g: Graph)
    requires ValidGraph(g)
    ensures Partial(g, []) && Greedy(g, []) == Plan(g)
  {
    EmptyPartial(g);
  }

  /** `declaredRecords.filter(record => indegree.get(record.name) === 0)`. */
  function WithCountZero(names: seq<Name>, indegree: map<Name, int>): seq<Name> {
    if names == [] then []
    else (if names[0] in indegree && indegree[names[0]] == 0 then [names[0]] else []) + WithCountZero(names[1..], indegree)
  }

  lemma {:induction false} WithCountZeroContents(names: seq<Name>, indegree: map<Name, int>)
    requires Distinct(names)
    ensures Distinct(WithCountZero(names, indegree))
    ensures forall n :: n in WithCountZero(names, indegree) <==> n in names && n in indegree && indegree[n] == 0
  {
    if names != [] {
      WithCountZeroContents(names[1..], indegree);
      assert names == [names[0]] + names[1..];
    }
  }

  /** The head of the sorted ready list is the name the greedy order takes next. */
  lemma KahnRound(g: Graph, ordered: seq<Name>, indegree: map<Name, int>, ready: seq<Name>)
    requires KahnInvariant(g, ordered, indegree, ready) && ready != []
    ensures var placed, sorted := ToSet(ordered), SortByIndex(g, ready);
            && sorted != [] && Ready(g, placed, sorted[0]) && Closed(g, placed) && Counts(g, indegree, placed)
            && Distinct(sorted[1..])
            && (forall n :: n in sorted[1..] <==> Ready(g, placed, n) && n != sorted[0])
    ensures var next := SortByIndex(g, ready)[0];
            && ValidGraph(g) && Partial(g, ordered + [next])
            && Greedy(g, ordered + [next]) == Plan(g)
            && ToSet(ordered + [next]) == ToSet(ordered) + {next}
            && |ordered| < |g.names|
  {
    hide Counts, FirstReady, DependenciesFirst, ValidGraph, SortByIndex, Plan;
    var placed, sorted := ToSet(ordered), SortByIndex(g, ready);
    HeadIsFirstReady(g, ready, placed);
    assert sorted[0] in sorted;
    forall n ensures n in sorted[1..] <==> n in sorted && n != sorted[0] {
      assert sorted == [sorted[0]] + sorted[1..];
    }
    PartialClosed(g, ordered);
    ToSetAppend(ordered, sorted[0]);
    ExtendPartial(g, ordered, sorted[0]);
    PartialBound(g, ordered + [sorted[0]]);
  }

  lemma PartialClosed(g: Graph, ordered: seq<Name>)
    requires Partial(g, ordered)
    ensures Closed(g, ToSet(ordered))
  {
    forall m | m in ToSet(ordered) ensures m in g.deps && g.deps[m] <= ToSet(ordered) {
      var k :| 0 <= k < |ordered| && ordered[k] == m;
      assert ToSet(ordered[..k]) <= ToSet(ordered);
    }
  }

  /** With nothing ready the order is the plan, and exactly the unplaced names still count dependencies. */
  lemma KahnEnd(g: Graph, ordered: seq<Name>, indegree: map<Name, int>)
    requires KahnInvariant(g, ordered, indegree, [])
    ensures ordered == Plan(g) && indegree.Keys == g.deps.Keys
    ensures forall n :: n in g.deps ==> (indegree[n] > 0 <==> n !in ToSet(ordered))
  {
    hide Plan, Greedy, DependenciesFirst, Distinct, Ready, Closed, Counts, ValidGraph;
    PartialClosed(g, ordered);
    NothingReady(g, ordered);
    LeftOver(g, indegree, ToSet(ordered));
  }

  lemma NothingReady(g: Graph, ordered: seq<Name>)
    requires ValidGraph(g) && Partial(g, ordered) && forall n :: n in g.deps ==> !Ready(g, ToSet(ordered), n)
    ensures Greedy(g, ordered) == ordered
  {
    forall j | 0 <= j < |g.names| ensures !Ready(g, ToSet(ordered), g.names[j]) {
      assert g.names[j] in ToSet(g.names);
    }
  }

  lemma LeftOver(g: Graph, indegree: map<Name, int>, placed: set<Name>)
    requires Counts(g, indegree, placed) && Closed(g, placed) && forall n :: n in g.deps ==> !Ready(g, placed, n)
    ensures indegree.Keys == g.deps.Keys && forall n :: n in g.deps ==> (indegree[n] > 0 <==> n !in placed)
  {
    forall n | n in g.deps ensures indegree[n] > 0 <==> n !in placed {
      var left := g.deps[n] - placed;
      assert |left| == 0 <==> left == {};
      if left == {} {
        assert forall x :: x in g.deps[n] && x !in placed ==> x in left;
      }
      assert !Ready(g, placed, n);
    }
  }

  method KahnOrder(g: Graph) returns (ordered: seq<Name>, indegree: map<Name, int>)
    requires ValidGraph(g)
    ensures ordered == Plan(g) && indegree.Keys == g.deps.Keys
    ensures forall n :: n in g.deps ==> (indegree[n] > 0 <==> n !in ToSet(ordered))
  {
    hide Plan, Ready, Counts, ListsReady, Closed, ValidGraph, DependentsAmong, SortByIndex, Distinct, DependenciesFirst;
    var dependents;
    indegree, dependents := CountDependencies(g);
    var ready := WithCountZero(g.names, indegree);
    ordered := [];
    KahnStart(g, indegree);
    while ready != []
      invariant KahnInvariant(g, ordered, indegree, ready)
      decreases |g.names| - |ordered|
    {
      KahnRound(g, ordered, indegree, ready);
      ready := SortByIndex(g, ready);
      var next := ready[0];
      NextUnplaced(g, ToSet(ordered), next);
      indegree, ready := ReleaseDependents(g, next, dependents[next], indegree, ready[1..], ToSet(ordered));
      ordered := ordered + [next];
    }
    KahnEnd(g, ordered, indegree);
  }

  method PlanExpectedEvidencePublication(records: seq<Record>, declared: seq<Definition>)
    returns (r: Result<seq<Record>, PlanError>)
    ensures r == PlanRecords(records, declared)
  {
    hide Plan, Validate, GraphOf, ValidGraph, ByName;
    var valid := Validate(records, declared);
    if valid.Err? {
      return Err(valid.error);
    }
    ValidatedRecords(records, declared);
    var g := GraphOf(valid.value);
    var ordered, indegree := KahnOrder(g);
    if |ordered| != |valid.value| {
      NamesAreKeys(g);
      StillCounting(g.names, indegree, ToSet(ordered));
      return Err(CyclicDependencies(WithCountLeft(g.names, indegree)));
    }
    GraphKeys(valid.value);
    r := Ok(Lookup(ByName(valid.value), ordered));
  }

  lemma NamesAreKeys(g: Graph)
    requires ValidGraph(g)
    ensures forall i :: 0 <= i < |g.names| ==> g.names[i] in g.deps
  {
    forall i | 0 <= i < |g.names| ensures g.names[i] in g.deps {
      assert g.names[i] in ToSet(g.names);
    }
  }

  /** `declaredRecords.filter(record => indegree.get(record.name) > 0)`, for the error message. */
  function WithCountLeft(names: seq<Name>, indegree: map<Name, int>): seq<Name> {
    if names == [] then []
    else (if names[0] in indegree && indegree[names[0]] > 0 then [names[0]] else []) + WithCountLeft(names[1..], indegree)
  }

  lemma {:induction false} StillCounting(names: seq<Name>, indegree: map<Name, int>, placed: set<Name>)
    requires forall i :: 0 <= i < |names| ==> names[i] in indegree && (indegree[names[i]] > 0 <==> names[i] !in placed)
    ensures WithCountLeft(names, indegree) == Without(names, placed)
  {
    if names != [] {
      StillCounting(names[1..], indegree, placed);
    }
  }

  lemma GraphKeys(records: seq<Record>)
    ensures GraphOf(records).deps.Keys == ByName(records).Keys
  {
  }
}

/**
 * The two worklists of scripts/ci-dev-affected.ts that close a selection under "depends on a
 * member": expandWithDependents over workspace manifests and the Cargo loop of
 * expandCargoDependents over a reverse dependency map.
 */
module Dependents {
  import opened Lists

  type Name = string

  // ---- Specification ----

  /** `next[n]` holds what a selected `n` pulls in. */
  type Relation = map<Name, set<Name>>

  ghost predicate ClosedUnder(next: Relation, s: set<Name>) {
    forall n :: n in s && n in next ==> next[n] <= s
  }

  /** `s` is the least set that contains `start` and is closed. */
  ghost predicate LeastClosed(next: Relation, start: set<Name>, s: set<Name>) {
    && start <= s
    && ClosedUnder(next, s)
    && forall t :: start <= t && ClosedUnder(next, t) ==> s <= t
  }

  lemma LeastClosedUnique(next: Relation, start: set<Name>, a: set<Name>, b: set<Name>)
    requires LeastClosed(next, start, a) && LeastClosed(next, start, b)
    ensures a == b
  {
  }

  /** Selecting more to begin with never selects less in the end. */
  lemma LeastClosedMonotone(next: Relation, small: set<Name>, large: set<Name>, a: set<Name>, b: set<Name>)
    requires small <= large && LeastClosed(next, small, a) && LeastClosed(next, large, b)
    ensures a <= b
  {
  }

  /** A chain from the start in which each name pulls in the next. */
  predicate IsChain(next: Relation, start: set<Name>, c: seq<Name>) {
    && c != [] && c[0] in start
    && forall i :: 0 <= i < |c| - 1 ==> c[i] in next && c[i + 1] in next[c[i]]
  }

  ghost predicate Reached(next: Relation, start: set<Name>, n: Name) {
    exists c :: IsChain(next, start, c) && c[|c| - 1] == n
  }

  lemma {:induction false} ChainInside(next: Relation, start: set<Name>, s: set<Name>, c: seq<Name>)
    requires start <= s && ClosedUnder(next, s) && IsChain(next, start, c)
    ensures c[|c| - 1] in s
  {
    if |c| > 1 {
      var front := c[..|c| - 1];
      ChainInside(next, start, s, front);
      assert c[|c| - 1] in next[front[|front| - 1]];
    }
  }

  lemma ReachedExtends(next: Relation, start: set<Name>, m: Name, n: Name)
    requires Reached(next, start, m) && m in next && n in next[m]
    ensures Reached(next, start, n)
  {
    var c :| IsChain(next, start, c) && c[|c| - 1] == m;
    assert IsChain(next, start, c + [n]);
  }

  /** The least closed set is what can be reached from the start, no more and no less. */
  lemma LeastClosedIsReached(next: Relation, start: set<Name>, s: set<Name>, n: Name)
    requires LeastClosed(next, start, s)
    ensures n in s <==> Reached(next, start, n)
  {
    if Reached(next, start, n) {
      var c :| IsChain(next, start, c) && c[|c| - 1] == n;
      ChainInside(next, start, s, c);
    }
    var t := set m | m in s && Reached(next, start, m);
    forall m | m in start ensures m in t {
      assert IsChain(next, start, [m]);
    }
    forall m, k | m in t && m in next && k in next[m] ensures k in t {
      ReachedExtends(next, start, m, k);
    }
    assert ClosedUnder(next, t);
  }

  // ---- Workspace packages ----

  /** A manifest: the four dependency maps, and whether it has check, test and build scripts. */
  datatype Package = Package(name: Name, dir: string, scopes: seq<map<Name, string>>, hasCheck: bool, hasTest: bool)

  const WORKSPACE: string := "workspace:"

  predicate DependsOnWorkspace(p: Package, dependency: Name, known: set<Name>) {
    exists i :: 0 <= i < |p.scopes| && dependency in p.scopes[i] && p.scopes[i][dependency] != ""
      && (WORKSPACE <= p.scopes[i][dependency] || dependency in known)
  }

  function Names(packages: seq<Package>): set<Name> {
    set p | p in packages :: p.name
  }

  /** Dependents by name; the empty name pulls nothing in. */
  function WorkspaceRelation(touched: seq<Package>, packages: seq<Package>): Relation {
    map n | n in Names(touched) + Names(packages) && n != "" :: DependentNames(n, packages, Names(packages))
  }

  /** Each selected name once, with the package it stands for. */
  predicate Selection(selected: map<Name, Package>, touched: seq<Package>, packages: seq<Package>) {
    forall n :: n in selected ==> selected[n].name == n && (selected[n] in touched || selected[n] in packages)
  }

  /** What is known in the middle of the worklist. */
  ghost predicate Worklist(next: Relation, start: set<Name>, s: set<Name>, pending: set<Name>) {
    && start <= s
    && pending <= s
    && (forall n :: n in s && n in next && n !in pending ==> next[n] <= s)
    && (forall t :: start <= t && ClosedUnder(next, t) ==> s <= t)
  }

  method SelectTouched(touched: seq<Package>) returns (selected: map<Name, Package>, queue: seq<Name>)
    ensures selected.Keys == Names(touched) && Selection(selected, touched, [])
    ensures |queue| == |touched| && forall i :: 0 <= i < |queue| ==> queue[i] == touched[i].name
  {
    selected, queue := map[], [];
    for i := 0 to |touched|
      invariant selected.Keys == Names(touched[..i]) && Selection(selected, touched, [])
      invariant |queue| == i && forall j :: 0 <= j < i ==> queue[j] == touched[j].name
    {
      assert touched[..i + 1] == touched[..i] + [touched[i]];
      NamesAppend(touched[..i], touched[i]);
      selected := selected[touched[i].name := touched[i]];
      queue := queue + [touched[i].name];
    }
    assert touched[..|touched|] == touched;
  }

  lemma NamesAppend(packages: seq<Package>, p: Package)
    ensures Names(packages + [p]) == Names(packages) + {p.name}
  {
    assert p in packages + [p];
    forall n | n in Names(packages) ensures n in Names(packages + [p]) {
      var q :| q in packages && q.name == n;
      assert q in packages + [p];
    }
  }

  function DependentNames(current: Name, packages: seq<Package>, known: set<Name>): set<Name> {
    set p | p in packages && DependsOnWorkspace(p, current, known) :: p.name
  }

  /** One pass over the packages for one name taken from the queue. */
  method SelectDependents(current: Name, packages: seq<Package>, known: set<Name>, ghost touched: seq<Package>,
                          before: map<Name, Package>)
    returns (selected: map<Name, Package>, added: seq<Name>)
    requires Selection(before, touched, packages)
    ensures Selection(selected, touched, packages)
    ensures selected.Keys == before.Keys + DependentNames(current, packages, known)
    ensures ToSet(added) == selected.Keys - before.Keys
  {
    hide DependsOnWorkspace, Selection, DependentNames, ToSet;
    selected, added := before, [];
    NoDependents(current, known);
    for i := 0 to |packages|
      invariant Selection(selected, touched, packages)
      invariant selected.Keys == before.Keys + DependentNames(current, packages[..i], known)
      invariant ToSet(added) == selected.Keys - before.Keys
    {
      var candidate := packages[i];
      assert packages[..i + 1] == packages[..i] + [candidate];
      DependentNamesAppend(current, packages[..i], candidate, known);
      ToSetAppend(added, candidate.name);
      if candidate.name !in selected && DependsOnWorkspace(candidate, current, known) {
        SelectionGrows(selected, touched, packages, candidate);
        selected := selected[candidate.name := candidate];
        added := added + [candidate.name];
      }
    }
    assert packages[..|packages|] == packages;
  }

  lemma NoDependents(current: Name, known: set<Name>)
    ensures DependentNames(current, [], known) == {} && ToSet<Name>([]) == {}
  {
  }

  lemma SelectionGrows(selected: map<Name, Package>, touched: seq<Package>, packages: seq<Package>, p: Package)
    requires Selection(selected, touched, packages) && p in packages
    ensures Selection(selected[p.name := p], touched, packages)
  {
  }

  lemma DependentNamesAppend(current: Name, packages: seq<Package>, p: Package, known: set<Name>)
    ensures DependentNames(current, packages + [p], known)
         == DependentNames(current, packages, known) + if DependsOnWorkspace(p, current, known) then {p.name} else {}
  {
    hide DependsOnWorkspace;
    assert p in packages + [p];
    forall n | n in DependentNames(current, packages, known) ensures n in DependentNames(current, packages + [p], known) {
      var q :| q in packages && DependsOnWorkspace(q, current, known) && q.name == n;
      assert q in packages + [p];
    }
  }

  /**
   * expandWithDependents: the names selected are exactly the least set that contains the
   * touched packages and every package depending on a member, cycles included.
   */
  method ExpandWithDependents(touched: seq<Package>, packages: seq<Package>) returns (selected: map<Name, Package>)
    ensures LeastClosed(WorkspaceRelation(touched, packages), Names(touched), selected.Keys)
    ensures Selection(selected, touched, packages)
  {
    hide WorkspaceRelation, Names, DependsOnWorkspace, DependentNames, Worklist, LeastClosed, Selection, ToSet;
    ghost var next := WorkspaceRelation(touched, packages);
    ghost var all := Names(touched) + Names(packages);
    var queue;
    selected, queue := SelectTouched(touched);
    QueueHoldsStart(touched, queue);
    SelectionWidens(selected, touched, packages);
    WorklistStart(next, Names(touched));
    var known := Names(packages);
    while queue != []
      invariant selected.Keys <= all
      invariant Selection(selected, touched, packages)
      invariant Worklist(next, Names(touched), selected.Keys, ToSet(queue))
      decreases |all| - |selected.Keys|, |queue|
    {
      var current, added := queue[0], [];
      ghost var before := selected.Keys;
      HeadSelected(next, Names(touched), before, queue);
      RelationOf(touched, packages, current);
      NoneLeft();
      if current != "" {
        DependentsAreKnown(current, packages);
        selected, added := SelectDependents(current, packages, known, touched, selected);
      }
      QueueStep(next, Names(touched), before, queue, selected.Keys, added);
      RoundProgress(before, selected.Keys, all, added);
      queue := queue[1..] + added;
    }
    NoneLeft();
    WorklistEnd(next, Names(touched), selected.Keys);
  }

  lemma NothingAdded(added: seq<Name>)
    requires ToSet(added) == {}
    ensures added == []
  {
    if added != [] {
      ToSetHead(added);
      assert false;
    }
  }

  lemma NoneLeft()
    ensures ToSet<Name>([]) == {}
  {
  }

  lemma SelectionWidens(selected: map<Name, Package>, touched: seq<Package>, packages: seq<Package>)
    requires Selection(selected, touched, [])
    ensures Selection(selected, touched, packages)
  {
  }

  lemma DependentsAreKnown(current: Name, packages: seq<Package>)
    ensures DependentNames(current, packages, Names(packages)) <= Names(packages)
  {
  }

  lemma QueueHoldsStart(touched: seq<Package>, queue: seq<Name>)
    requires |queue| == |touched| && forall i :: 0 <= i < |queue| ==> queue[i] == touched[i].name
    ensures ToSet(queue) == Names(touched)
  {
    forall n | n in Names(touched) ensures n in queue {
      var p :| p in touched && p.name == n;
      var i :| 0 <= i < |touched| && touched[i] == p;
      assert queue[i] == n;
    }
  }

  lemma RelationOf(touched: seq<Package>, packages: seq<Package>, n: Name)
    requires n in Names(touched) + Names(packages)
    ensures var next := WorkspaceRelation(touched, packages);
            if n == "" then n !in next
            else n in next && next[n] == DependentNames(n, packages, Names(packages))
  {
  }

  lemma WorklistStart(next: Relation, start: set<Name>)
    ensures Worklist(next, start, start, start)
  {
  }

  lemma WorklistInside(next: Relation, start: set<Name>, s: set<Name>, pending: set<Name>)
    requires Worklist(next, start, s, pending)
    ensures pending <= s
  {
  }

  lemma HeadSelected(next: Relation, start: set<Name>, s: set<Name>, queue: seq<Name>)
    requires Worklist(next, start, s, ToSet(queue)) && queue != []
    ensures queue[0] in s
  {
    ToSetHead(queue);
  }

  lemma WorklistEnd(next: Relation, start: set<Name>, s: set<Name>)
    requires Worklist(next, start, s, {})
    ensures LeastClosed(next, start, s)
  {
  }

  /** Taking `current` off the worklist after its dependents were added keeps it correct. */
  lemma WorklistStep(next: Relation, start: set<Name>, s: set<Name>, pending: set<Name>, current: Name,
                     s': set<Name>, pending': set<Name>)
    requires Worklist(next, start, s, pending) && current in pending
    requires s' == s + (if current in next then next[current] else {})
    requires (pending - {current}) + (s' - s) <= pending' <= s'
    ensures Worklist(next, start, s', pending')
  {
  }

  /** The same for the queue itself: its head goes, what was newly selected joins the end. */
  lemma QueueStep(next: Relation, start: set<Name>, s: set<Name>, queue: seq<Name>, s': set<Name>, added: seq<Name>)
    requires queue != [] && Worklist(next, start, s, ToSet(queue))
    requires s' == s + (if queue[0] in next then next[queue[0]] else {})
    requires ToSet(added) == s' - s
    ensures Worklist(next, start, s', ToSet(queue[1..] + added))
  {
    hide Worklist;
    ToSetHead(queue);
    ToSetConcat(queue[1..], added);
    WorklistInside(next, start, s, ToSet(queue));
    WorklistStep(next, start, s, ToSet(queue), queue[0], s', ToSet(queue[1..] + added));
  }

  /** Each round selects something new or shortens the queue. */
  lemma RoundProgress(before: set<Name>, after: set<Name>, all: set<Name>, added: seq<Name>)
    requires before <= after <= all && ToSet(added) == after - before
    ensures |before| <= |after| <= |all|
    ensures |before| < |after| || added == []
  {
    SizesBelow(before, after, all);
    if |before| == |after| {
      NothingAdded(added);
    }
  }

  lemma SizesBelow(before: set<Name>, after: set<Name>, all: set<Name>)
    requires before <= after <= all
    ensures |before| <= |after| <= |all|
    ensures |before| == |after| ==> before == after
  {
    assert after == before + (after - before);
    assert all == after + (all - after);
    if |after - before| == 0 {
      assert after - before == {};
    }
  }

  // ---- Cargo crates ----

  datatype Unit = Unit(id: Name, name: string)

  /** What `cargo metadata` said: unit per package id, and package ids depending on each unit. */
  datatype Metadata = Metadata(byPackageId: map<string, Unit>, reverse: map<Name, seq<string>>)

  function CargoRelation(m: Metadata): Relation {
    map id | id in m.reverse && id != "" ::
      CargoTargets(m.reverse[id], m)
  }

  function Ids(units: seq<Unit>): set<Name> {
    set u | u in units :: u.id
  }

  function CargoTargets(packageIds: seq<string>, m: Metadata): set<Name> {
    set p | p in packageIds && p in m.byPackageId :: m.byPackageId[p].id
  }

  predicate UnitsById(selected: map<Name, Unit>) {
    forall id :: id in selected ==> selected[id].id == id
  }

  method SelectInitial(initial: seq<Unit>) returns (selected: map<Name, Unit>, queue: seq<Name>)
    ensures UnitsById(selected) && selected.Keys == Ids(initial) == ToSet(queue)
  {
    selected, queue := map[], [];
    for i := 0 to |initial|
      invariant UnitsById(selected)
      invariant selected.Keys == Ids(initial[..i]) == ToSet(queue)
    {
      assert initial[..i + 1] == initial[..i] + [initial[i]];
      assert Ids(initial[..i + 1]) == Ids(initial[..i]) + {initial[i].id};
      if initial[i].id !in selected {
        ToSetAppend(queue, initial[i].id);
        queue := queue + [initial[i].id];
      }
      selected := selected[initial[i].id := initial[i]];
    }
    assert initial[..|initial|] == initial;
  }

  /** The Cargo worklist meets the same specification over the reverse dependency map. */
  method ExpandCargoDependents(initial: seq<Unit>, m: Metadata) returns (selected: map<Name, Unit>)
    ensures LeastClosed(CargoRelation(m), Ids(initial), selected.Keys)
    ensures UnitsById(selected)
  {
    hide Worklist, LeastClosed, UnitsById, ToSet, Ids, CargoTargets, CargoRelation, AllTargets;
    ghost var next := CargoRelation(m);
    var queue;
    selected, queue := SelectInitial(initial);
    WorklistStart(next, Ids(initial));
    ghost var all := Ids(initial) + AllTargets(m);
    while queue != []
      invariant selected.Keys <= all
      invariant UnitsById(selected)
      invariant Worklist(next, Ids(initial), selected.Keys, ToSet(queue))
      decreases |all| - |selected.Keys|, |queue|
    {
      var current, added := queue[0], [];
      ghost var before := selected.Keys;
      CargoRelationOf(m, current);
      NoneLeft();
      if current != "" && current in m.reverse {
        TargetsAreKnown(m.reverse[current], m);
        selected, added := SelectCargoDependents(m.reverse[current], m, selected);
      }
      QueueStep(next, Ids(initial), before, queue, selected.Keys, added);
      RoundProgress(before, selected.Keys, all, added);
      queue := queue[1..] + added;
    }
    NoneLeft();
    WorklistEnd(next, Ids(initial), selected.Keys);
  }

  lemma CargoRelationOf(m: Metadata, id: Name)
    ensures var next := CargoRelation(m);
            if id == "" || id !in m.reverse then id !in next
            else id in next && next[id] == CargoTargets(m.reverse[id], m)
  {
  }

  function AllTargets(m: Metadata): set<Name> {
    set p | p in m.byPackageId :: m.byPackageId[p].id
  }

  lemma TargetsAreKnown(packageIds: seq<string>, m: Metadata)
    ensures CargoTargets(packageIds, m) <= AllTargets(m)
  {
  }

  method SelectCargoDependents(packageIds: seq<string>, m: Metadata, before: map<Name, Unit>)
    returns (selected: map<Name, Unit>, added: seq<Name>)
    requires UnitsById(before)
    ensures UnitsById(selected)
    ensures selected.Keys == before.Keys + CargoTargets(packageIds, m)
    ensures ToSet(added) == selected.Keys - before.Keys
  {
    hide ToSet, CargoTargets;
    selected, added := before, [];
    NoTargets(m);
    for i := 0 to |packageIds|
      invariant UnitsById(selected)
      invariant selected.Keys == before.Keys + CargoTargets(packageIds[..i], m)
      invariant ToSet(added) == selected.Keys - before.Keys
    {
      var p := packageIds[i];
      assert packageIds[..i + 1] == packageIds[..i] + [p];
      TargetsAppend(packageIds[..i], p, m);
      if p in m.byPackageId && m.byPackageId[p].id !in selected {
        ToSetAppend(added, m.byPackageId[p].id);
        selected := selected[m.byPackageId[p].id := m.byPackageId[p]];
        added := added + [m.byPackageId[p].id];
      }
    }
    assert packageIds[..|packageIds|] == packageIds;
  }

  lemma NoTargets(m: Metadata)
    ensures CargoTargets([], m) == {} && ToSet<Name>([]) == {}
  {
  }

  lemma TargetsAppend(packageIds: seq<string>, p: string, m: Metadata)
    ensures CargoTargets(packageIds + [p], m)
         == CargoTargets(packageIds, m) + if p in m.byPackageId then {m.byPackageId[p].id} else {}
  {
    assert p in packageIds + [p];
    forall n | n in CargoTargets(packageIds, m) ensures n in CargoTargets(packageIds + [p], m) {
      var q :| q in packageIds && q in m.byPackageId && m.byPackageId[q].id == n;
      assert q in packageIds + [p];
    }
  }
}

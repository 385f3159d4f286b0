/**
 * planExpectedEvidencePublication of scripts/ci-release-publish.ts: the checks on the
 * evidence records, the plan it returns, and why the order of the records does not matter.
 */
module PublishPlan {
  import opened Lists
  import opened PublicationOrder
  import Versions

  datatype Evidence = Evidence(sri: string, tarballSha512: string, manifestSha256: string)

  datatype Record = Record(
    dir: string,
    name: Name,
    version: string,
    evidence: Evidence,
    dependencies: map<Name, string>)

  /** One publishable package: its directory and the name its definition gives it. */
  datatype Definition = Definition(dir: string, name: Name)

  datatype PlanError =
    | DuplicateRecord
    | DuplicateDeclaration
    | MissingRecord
    | WrongDirectory
    | UnexpectedRecord
    | NoRecords
    | MixedVersions
    | UnsupportedVersion
    | InexactDependency
    | CyclicDependencies(names: seq<Name>)

  // ---- Checks ----

  predicate DistinctNames(records: seq<Record>) {
    forall i, j :: 0 <= i < j < |records| ==> records[i].name != records[j].name
  }

  function ByName(records: seq<Record>): map<Name, Record> {
    if records == [] then map[]
    else ByName(records[..|records| - 1])[records[|records| - 1].name := records[|records| - 1]]
  }

  function DeclaredRecords(byName: map<Name, Record>, declared: seq<Definition>, seen: set<Name>)
    : Result<seq<Record>, PlanError>
  {
    if declared == [] then Ok([])
    else
      var d := declared[0];
      if d.name in seen then Err(DuplicateDeclaration)
      else if d.name !in byName then Err(MissingRecord)
      else if byName[d.name].dir != d.dir then Err(WrongDirectory)
      else
        var rest :- DeclaredRecords(byName, declared[1..], seen + {d.name});
        Ok([byName[d.name]] + rest)
  }

  function NamesOf(records: seq<Record>): (names: seq<Name>)
    ensures |names| == |records|
  {
    seq(|records|, i requires 0 <= i < |records| => records[i].name)
  }

  /** Internal dependencies must name public packages at exactly the release version. */
  predicate ExactDependencies(r: Record, declared: set<Name>) {
    forall d :: d in r.dependencies ==> d in declared && r.dependencies[d] == r.version
  }

  /** The declared records in declaration order, once every check has passed. */
  function Validate(records: seq<Record>, declared: seq<Definition>): Result<seq<Record>, PlanError> {
    if !DistinctNames(records) then Err(DuplicateRecord)
    else
      var ordered :- DeclaredRecords(ByName(records), declared, {});
      var names := ToSet(NamesOf(ordered));
      if exists n :: n in ByName(records) && n !in names then Err(UnexpectedRecord)
      else if ordered == [] then Err(NoRecords)
      else if exists i :: 0 <= i < |ordered| && ordered[i].version != ordered[0].version then Err(MixedVersions)
      else if !Versions.IsRelease(ordered[0].version) then Err(UnsupportedVersion)
      else if exists i :: 0 <= i < |ordered| && !ExactDependencies(ordered[i], names) then Err(InexactDependency)
      else Ok(ordered)
  }

  function GraphOf(records: seq<Record>): Graph {
    Graph(NamesOf(records), map n | n in ByName(records) :: ByName(records)[n].dependencies.Keys)
  }

  lemma {:induction false} ByNameContents(records: seq<Record>)
    requires DistinctNames(records)
    ensures forall i :: 0 <= i < |records| ==> records[i].name in ByName(records) && ByName(records)[records[i].name] == records[i]
    ensures forall n :: n in ByName(records) ==> ByName(records)[n].name == n && ByName(records)[n] in records
  {
    if records != [] {
      ByNameContents(records[..|records| - 1]);
    }
  }

  lemma ByNameKeys(records: seq<Record>)
    requires DistinctNames(records)
    ensures ByName(records).Keys == ToSet(NamesOf(records))
  {
    ByNameContents(records);
    var names := NamesOf(records);
    forall n | n in ByName(records).Keys ensures n in names {
      var i :| 0 <= i < |records| && records[i] == ByName(records)[n];
      assert names[i] == n;
    }
    forall n | n in names ensures n in ByName(records).Keys {
      var i :| 0 <= i < |names| && names[i] == n;
      assert records[i].name == n;
    }
  }

  lemma {:induction false} DeclaredRecordsAreDistinct(byName: map<Name, Record>, declared: seq<Definition>, seen: set<Name>)
    requires forall n :: n in byName ==> byName[n].name == n
    requires DeclaredRecords(byName, declared, seen).Ok?
    ensures var r := DeclaredRecords(byName, declared, seen).value;
            && |r| == |declared|
            && (forall i :: 0 <= i < |r| ==>
                  && r[i].name == declared[i].name && r[i].dir == declared[i].dir
                  && r[i].name in byName && byName[r[i].name] == r[i] && r[i].name !in seen)
            && DistinctNames(r)
  {
    if declared != [] {
      DeclaredRecordsAreDistinct(byName, declared[1..], seen + {declared[0].name});
    }
  }

  /** Validated records are the given ones in declaration order, and form a dependency graph. */
  lemma ValidatedRecords(records: seq<Record>, declared: seq<Definition>)
    requires Validate(records, declared).Ok?
    ensures var r := Validate(records, declared).value;
            && DistinctNames(records) && DistinctNames(r)
            && multiset(r) == multiset(records)
            && |r| == |declared|
            && (forall i :: 0 <= i < |r| ==> r[i].name == declared[i].name && r[i].dir == declared[i].dir)
            && ByName(r) == ByName(records)
            && ValidGraph(GraphOf(r))
  {
    hide DeclaredRecords, ByName;
    var r := Validate(records, declared).value;
    ByNameContents(records);
    DeclaredRecordsAreDistinct(ByName(records), declared, {});
    SameByName(r, records);
    DistinctMultiset(r, records);
    ValidatedGraph(r);
  }

  lemma ValidatedGraph(r: seq<Record>)
    requires DistinctNames(r)
    requires forall i :: 0 <= i < |r| ==> ExactDependencies(r[i], ToSet(NamesOf(r)))
    ensures ValidGraph(GraphOf(r))
  {
    hide ByName;
    ByNameContents(r);
    ByNameKeys(r);
    forall n | n in ByName(r) ensures ByName(r)[n].dependencies.Keys <= ByName(r).Keys {
      var i :| 0 <= i < |r| && r[i] == ByName(r)[n];
      assert ExactDependencies(r[i], ToSet(NamesOf(r)));
    }
  }

  lemma SameByName(r: seq<Record>, records: seq<Record>)
    requires DistinctNames(r) && DistinctNames(records)
    requires forall i :: 0 <= i < |r| ==> r[i].name in ByName(records) && ByName(records)[r[i].name] == r[i]
    requires forall n :: n in ByName(records) ==> n in ToSet(NamesOf(r))
    ensures ByName(r) == ByName(records)
  {
    ByNameContents(r);
    ByNameContents(records);
    ByNameKeys(r);
    ByNameKeys(records);
    forall n | n in ByName(r) ensures n in ByName(records) && ByName(records)[n] == ByName(r)[n] {
      var i :| 0 <= i < |r| && r[i] == ByName(r)[n];
    }
  }

  lemma {:induction false} DistinctCount(records: seq<Record>, x: Record)
    requires DistinctNames(records)
    ensures multiset(records)[x] == if x in records then 1 else 0
  {
    if records != [] {
      var front, last := records[..|records| - 1], records[|records| - 1];
      assert records == front + [last];
      DistinctCount(front, x);
    }
  }

  lemma DistinctMultiset(a: seq<Record>, b: seq<Record>)
    requires DistinctNames(a) && DistinctNames(b) && ByName(a) == ByName(b)
    ensures multiset(a) == multiset(b)
  {
    ByNameContents(a);
    ByNameContents(b);
    forall x: Record ensures multiset(a)[x] == multiset(b)[x] {
      DistinctCount(a, x);
      DistinctCount(b, x);
      if x in a {
        assert ByName(b)[x.name] == x;
      }
      if x in b {
        assert ByName(a)[x.name] == x;
      }
    }
  }

  // ---- The plan ----

  function Lookup(byName: map<Name, Record>, order: seq<Name>): (r: seq<Record>)
    requires ToSet(order) <= byName.Keys
    ensures |r| == |order|
  {
    seq(|order|, i requires 0 <= i < |order| => assert order[i] in ToSet(order); byName[order[i]])
  }

  function Without(names: seq<Name>, placed: set<Name>): seq<Name> {
    if names == [] then []
    else (if names[0] in placed then [] else [names[0]]) + Without(names[1..], placed)
  }

  function PlanRecords(records: seq<Record>, declared: seq<Definition>): Result<seq<Record>, PlanError> {
    var valid :- Validate(records, declared);
    ValidatedRecords(records, declared);
    var g := GraphOf(valid);
    var order := Plan(g);
    if |order| == |valid| then Ok(Lookup(ByName(valid), order))
    else Err(CyclicDependencies(Without(g.names, ToSet(order))))
  }

  /**
   * The plan fails with a cycle exactly when the validated graph has one; otherwise it is a
   * rearrangement of the records in which every dependency comes before its dependents, and
   * no such order is smaller by declaration index.
   */
  lemma PlanIsLeastPublicationOrder(records: seq<Record>, declared: seq<Definition>)
    requires Validate(records, declared).Ok?
    ensures var g := GraphOf(Validate(records, declared).value);
            var r := PlanRecords(records, declared);
            && ValidGraph(g)
            && (r.Err? <==> Cyclic(g))
            && (r.Err? ==> r.error.CyclicDependencies?)
            && (r.Ok? ==>
                  && multiset(r.value) == multiset(records)
                  && PublicationOrderOf(g, NamesOf(r.value))
                  && forall other :: PublicationOrderOf(g, other) ==> NotAfter(g, NamesOf(r.value), other))
  {
    hide Validate, Plan, ByName, ValidGraph, DependenciesFirst, GraphOf, Lookup, NamesOf, NotAfter, Distinct;
    var valid := Validate(records, declared).value;
    ValidatedRecords(records, declared);
    var g := GraphOf(valid);
    GraphSize(valid);
    PlanFailsExactlyOnCycles(g);
    PartialBound(g, Plan(g));
    var r := PlanRecords(records, declared);
    if r.Ok? {
      PlanLookup(records, valid, g);
      forall other | PublicationOrderOf(g, other) ensures NotAfter(g, NamesOf(r.value), other) {
        PlanIsLeast(g, other);
      }
    }
  }

  lemma GraphSize(records: seq<Record>)
    ensures |GraphOf(records).names| == |records|
  {
  }

  lemma PlanLookup(records: seq<Record>, valid: seq<Record>, g: Graph)
    requires DistinctNames(records) && DistinctNames(valid) && ByName(valid) == ByName(records)
    requires g == GraphOf(valid) && ValidGraph(g) && PublicationOrderOf(g, Plan(g))
    ensures ToSet(Plan(g)) <= ByName(valid).Keys
    ensures var r := Lookup(ByName(valid), Plan(g));
            NamesOf(r) == Plan(g) && multiset(r) == multiset(records)
  {
    hide Plan, ByName, ValidGraph, DependenciesFirst;
    ByNameContents(valid);
    var order := Plan(g);
    var r := Lookup(ByName(valid), order);
    forall i | 0 <= i < |r| ensures r[i].name == order[i] {
      assert order[i] in ToSet(order);
    }
    assert NamesOf(r) == order;
    assert DistinctNames(r);
    ByNameKeys(r);
    SameByName(r, valid);
    DistinctMultiset(r, records);
  }

  /** The plan, or the complaint, depends only on which records there are. */
  lemma PlanIgnoresRecordOrder(a: seq<Record>, b: seq<Record>, declared: seq<Definition>)
    requires multiset(a) == multiset(b)
    ensures PlanRecords(a, declared) == PlanRecords(b, declared)
  {
    hide DeclaredRecords, Plan, GraphOf, Lookup, ExactDependencies;
    if DistinctNames(a) {
      SameRecordsSameMap(a, b);
    } else if DistinctNames(b) {
      SameNamesDistinct(b, a);
    }
    assert Validate(a, declared) == Validate(b, declared);
  }

  lemma SameRecordsSameMap(a: seq<Record>, b: seq<Record>)
    requires multiset(a) == multiset(b) && DistinctNames(a)
    ensures DistinctNames(b) && ByName(a) == ByName(b)
  {
    SameNamesDistinct(a, b);
    hide ByName;
    ByNameContents(a);
    ByNameContents(b);
    ByNameKeys(a);
    forall i | 0 <= i < |a| ensures a[i].name in ByName(b) && ByName(b)[a[i].name] == a[i] {
      assert a[i] in multiset(b);
    }
    forall n | n in ByName(b) ensures n in ToSet(NamesOf(a)) {
      assert ByName(b)[n] in multiset(a);
      assert n in ByName(a);
    }
    SameByName(a, b);
  }

  lemma SameNamesDistinct(a: seq<Record>, b: seq<Record>)
    requires multiset(a) == multiset(b) && DistinctNames(a)
    ensures DistinctNames(b)
  {
    forall i, j | 0 <= i < j < |b| ensures b[i].name != b[j].name {
      if b[i].name == b[j].name {
        assert b[i] in multiset(a) && b[j] in multiset(a);
        assert b[i] == b[j];
        DistinctCount(a, b[i]);
        TwiceCounted(b, i, j);
        assert false;
      }
    }
  }
}

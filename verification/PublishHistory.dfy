/**
 * Whole publication runs, the final sweep, and histories of interrupted and resumed runs
 * (publishExpectedEvidencePackages and reobserveExpectedEvidencePackages of
 * scripts/ci-release-publish.ts).
 */
module PublishHistory {
  import opened Lists
  import opened PublicationOrder
  import opened PublishPlan
  import opened PublishKahn
  import opened PublishRun

  type Seen = map<Name, Observation>

  /** Packages in plan order; the first that does not succeed ends the run. */
  function PublishFrom(plan: seq<Record>, channel: Channel, retries: int, script: seq<Turn>, seen: Seen): Run<Seen> {
    if plan == [] then Run(Done(seen), [], script)
    else
      var one := PublishOne(plan[0], channel, retries, script);
      match one.outcome
      case Done(o) =>
        var rest := PublishFrom(plan[1..], channel, retries, one.rest, seen[plan[0].name := o]);
        rest.(log := one.log + rest.log)
      case Failed => Run(Failed, one.log, one.rest)
      case Interrupted => Run(Interrupted, one.log, one.rest)
  }

  function PublishRecords(records: seq<Record>, declared: seq<Definition>, channel: Channel, retries: int, script: seq<Turn>)
    : Run<Seen>
  {
    match PlanRecords(records, declared)
    case Err(_) => Run(Failed, [], script)
    case Ok(plan) => PublishFrom(plan, channel, retries, script, map[])
  }

  function SweepFrom(plan: seq<Record>, channel: Channel, script: seq<Turn>, seen: Seen): Run<Seen> {
    if plan == [] then Run(Done(seen), [], script)
    else if script == [] then Run(Interrupted, [], [])
    else
      var e := Observed(plan[0].name, script[0].observe);
      if script[0].observe.Present? && AssertExact(plan[0], script[0].observe.seen, channel).Ok?
      then After(e, SweepFrom(plan[1..], channel, script[1..], seen[plan[0].name := script[0].observe.seen]))
      else Run(Failed, [e], script[1..])
  }

  /** The sweep plans the records itself, so it fails where planning fails. */
  function SweepRecords(records: seq<Record>, declared: seq<Definition>, channel: Channel, script: seq<Turn>): Run<Seen> {
    match PlanRecords(records, declared)
    case Err(_) => Run(Failed, [], script)
    case Ok(plan) => SweepFrom(plan, channel, script, map[])
  }

  method PublishExpectedEvidencePackages(
    s: Session, records: seq<Record>, declared: seq<Definition>, channel: Channel, retries: int)
    returns (r: Outcome<Seen>)
    modifies s
    ensures Performed(s, old(s.log), PublishRecords(records, declared, channel, retries, old(s.script)), r)
  {
    hide PlanRecords;
    var plan := PlanExpectedEvidencePublication(records, declared);
    if plan.Err? {
      assert s.log + [] == s.log;
      return Failed;
    }
    r := PublishPlanned(s, plan.value, channel, retries);
  }

  method PublishPlanned(s: Session, plan: seq<Record>, channel: Channel, retries: int) returns (r: Outcome<Seen>)
    modifies s
    ensures Performed(s, old(s.log), PublishFrom(plan, channel, retries, old(s.script), map[]), r)
  {
    hide PublishOne, Continues;
    var observations: Seen := map[];
    ghost var done: seq<Event>, whole := [], PublishFrom(plan, channel, retries, s.script, map[]);
    var k := 0;
    assert plan[0..] == plan;
    ContinuesAtStart(whole);
    while k < |plan|
      invariant 0 <= k <= |plan|
      invariant s.log == old(s.log) + done
      invariant Continues(whole, done, PublishFrom(plan[k..], channel, retries, s.script, observations))
    {
      ghost var run := PublishOne(plan[k], channel, retries, s.script);
      var one := PublishRetainedPackage(s, plan[k], channel, retries);
      assert plan[k..][1..] == plan[k + 1..];
      if !one.Done? {
        ContinuesAtEnd(whole, done, Run(if one.Failed? then Failed else Interrupted, run.log, run.rest), old(s.log));
        return if one.Failed? then Failed else Interrupted;
      }
      observations := observations[plan[k].name := one.value];
      ContinueWith(whole, done, run.log, PublishFrom(plan[k + 1..], channel, retries, s.script, observations));
      assert s.log == old(s.log) + (done + run.log);
      done := done + run.log;
      k := k + 1;
    }
    ContinuesAtEnd(whole, done, Run(Done(observations), [], s.script), old(s.log));
    r := Done(observations);
  }

  method ReobserveExpectedEvidencePackages(s: Session, records: seq<Record>, declared: seq<Definition>, channel: Channel)
    returns (r: Outcome<Seen>)
    modifies s
    ensures Performed(s, old(s.log), SweepRecords(records, declared, channel, old(s.script)), r)
  {
    hide PlanRecords;
    var plan := PlanExpectedEvidencePublication(records, declared);
    if plan.Err? {
      assert s.log + [] == s.log;
      return Failed;
    }
    r := ReobservePlanned(s, plan.value, channel);
  }

  method ReobservePlanned(s: Session, plan: seq<Record>, channel: Channel) returns (r: Outcome<Seen>)
    modifies s
    ensures Performed(s, old(s.log), SweepFrom(plan, channel, old(s.script), map[]), r)
  {
    hide AssertExact, Continues;
    var observations: Seen := map[];
    ghost var done: seq<Event>, whole := [], SweepFrom(plan, channel, s.script, map[]);
    var k := 0;
    assert plan[0..] == plan;
    ContinuesAtStart(whole);
    while k < |plan|
      invariant 0 <= k <= |plan|
      invariant s.log == old(s.log) + done
      invariant Continues(whole, done, SweepFrom(plan[k..], channel, s.script, observations))
    {
      var observed := s.Observe(plan[k].name);
      if observed == None {
        ContinuesAtEnd(whole, done, Run(Interrupted, [], []), old(s.log));
        return Interrupted;
      }
      ghost var e := Observed(plan[k].name, observed.value);
      assert s.log == old(s.log) + (done + [e]);
      if !observed.value.Present? || AssertExact(plan[k], observed.value.seen, channel).Err? {
        ContinuesAtEnd(whole, done, Run(Failed, [e], s.script), old(s.log));
        return Failed;
      }
      observations := observations[plan[k].name := observed.value.seen];
      assert plan[k..][1..] == plan[k + 1..];
      ContinueWith(whole, done, [e], SweepFrom(plan[k + 1..], channel, s.script, observations));
      done := done + [e];
      k := k + 1;
    }
    ContinuesAtEnd(whole, done, Run(Done(observations), [], s.script), old(s.log));
    r := Done(observations);
  }

  // ---- The order of publications within a run ----

  ghost predicate ExactlyObserved(log: seq<Event>, record: Record, channel: Channel) {
    exists p :: 0 <= p < |log|
      && log[p].Observed? && log[p].name == record.name && log[p].answer.Present?
      && Exact(record, log[p].answer.seen, channel)
  }

  lemma ExactlyObservedLater(log: seq<Event>, more: seq<Event>, record: Record, channel: Channel)
    requires ExactlyObserved(log, record, channel)
    ensures ExactlyObserved(log + more, record, channel)
  {
    hide Exact;
    var p :| 0 <= p < |log| && log[p].Observed? && log[p].name == record.name && log[p].answer.Present?
      && Exact(record, log[p].answer.seen, channel);
    assert (log + more)[p] == log[p];
  }

  /** Publishing `record` here is justified: it was just seen absent, and `settled` were all seen exact. */
  ghost predicate Justified(before: seq<Event>, log: seq<Event>, i: nat, settled: seq<Record>, channel: Channel)
    requires i < |log|
  {
    && i > 0 && log[i - 1] == Observed(log[i].name, Absent)
    && forall k :: 0 <= k < |settled| ==> ExactlyObserved(before + log[..i], settled[k], channel)
  }

  lemma OnePackageJustified(record: Record, channel: Channel, retries: int, script: seq<Turn>,
                            settled: seq<Record>, before: seq<Event>, i: nat)
    requires forall k :: 0 <= k < |settled| ==> ExactlyObserved(before, settled[k], channel)
    requires i < |PublishOne(record, channel, retries, script).log|
    requires PublishOne(record, channel, retries, script).log[i].Published?
    ensures Justified(before, PublishOne(record, channel, retries, script).log, i, settled, channel)
    ensures PublishOne(record, channel, retries, script).log[i].name == record.name
  {
    PublishOneLog(record, channel, retries, script);
    hide PublishOne, ExactlyObserved;
    var log := PublishOne(record, channel, retries, script).log;
    forall k | 0 <= k < |settled| ensures ExactlyObserved(before + log[..i], settled[k], channel) {
      ExactlyObservedLater(before, log[..i], settled[k], channel);
    }
  }

  lemma SettledGrows(record: Record, channel: Channel, retries: int, script: seq<Turn>,
                     settled: seq<Record>, before: seq<Event>)
    requires forall k :: 0 <= k < |settled| ==> ExactlyObserved(before, settled[k], channel)
    requires PublishOne(record, channel, retries, script).outcome.Done?
    ensures var log := PublishOne(record, channel, retries, script).log;
            forall k :: 0 <= k < |settled + [record]| ==> ExactlyObserved(before + log, (settled + [record])[k], channel)
  {
    PublishOneLog(record, channel, retries, script);
    var log := PublishOne(record, channel, retries, script).log;
    hide PublishOne, Exact;
    assert ExactlyObserved(before + log, record, channel) by {
      assert (before + log)[|before| + |log| - 1] == log[|log| - 1];
    }
    hide ExactlyObserved;
    forall k | 0 <= k < |settled| ensures ExactlyObserved(before + log, settled[k], channel) {
      ExactlyObservedLater(before, log, settled[k], channel);
    }
  }

  /** Every publication of a run is justified by everything planned before its package. */
  lemma {:induction false} RunJustified(plan: seq<Record>, channel: Channel, retries: int, script: seq<Turn>, seen: Seen,
                                        settled: seq<Record>, before: seq<Event>, i: nat) returns (k: nat)
    requires forall j :: 0 <= j < |settled| ==> ExactlyObserved(before, settled[j], channel)
    requires i < |PublishFrom(plan, channel, retries, script, seen).log|
    requires PublishFrom(plan, channel, retries, script, seen).log[i].Published?
    ensures k < |plan| && PublishFrom(plan, channel, retries, script, seen).log[i].name == plan[k].name
    ensures Justified(before, PublishFrom(plan, channel, retries, script, seen).log, i, settled + plan[..k], channel)
  {
    hide PublishOne, ExactlyObserved;
    var one := PublishOne(plan[0], channel, retries, script);
    var log := PublishFrom(plan, channel, retries, script, seen).log;
    if i < |one.log| {
      k := 0;
      OnePackageJustified(plan[0], channel, retries, script, settled, before, i);
      assert log[..i] == one.log[..i] && settled + plan[..0] == settled;
    } else {
      SettledGrows(plan[0], channel, retries, script, settled, before);
      var seen' := seen[plan[0].name := one.outcome.value];
      var rest := PublishFrom(plan[1..], channel, retries, one.rest, seen').log;
      assert log == one.log + rest;
      var j := RunJustified(plan[1..], channel, retries, one.rest, seen', settled + [plan[0]], before + one.log, i - |one.log|);
      k := j + 1;
      assert settled + [plan[0]] + plan[1..][..j] == settled + plan[..k];
      assert before + one.log + rest[..i - |one.log|] == before + log[..i];
    }
  }

  /** Every dependency of a planned record is planned earlier. */
  lemma PlannedDependencies(records: seq<Record>, declared: seq<Definition>, plan: seq<Record>, k: nat, d: Name)
    requires PlanRecords(records, declared) == Ok(plan) && k < |plan| && d in plan[k].dependencies
    ensures exists j :: 0 <= j < k && plan[j].name == d
  {
    var valid := PlanFacts(records, declared, plan);
    hide PlanRecords, GraphOf, ByName;
    OrderGivesDependency(valid, plan, k, d);
  }

  lemma PlanFacts(records: seq<Record>, declared: seq<Definition>, plan: seq<Record>) returns (valid: seq<Record>)
    requires PlanRecords(records, declared) == Ok(plan)
    ensures DistinctNames(plan) && ByName(valid) == ByName(plan)
    ensures PublicationOrderOf(GraphOf(valid), NamesOf(plan))
    ensures forall j :: 0 <= j < |plan| ==> plan[j] in records
  {
    assert Validate(records, declared).Ok?;
    hide PlanRecords, Validate, GraphOf, ByName, ValidGraph, NotAfter, PublicationOrderOf;
    valid := Validate(records, declared).value;
    ValidatedRecords(records, declared);
    PlanIsLeastPublicationOrder(records, declared);
    SameRecordsSameMap(valid, plan);
    forall j | 0 <= j < |plan| ensures plan[j] in records {
      assert plan[j] in multiset(records);
    }
  }

  lemma OrderGivesDependency(valid: seq<Record>, plan: seq<Record>, k: nat, d: Name)
    requires DistinctNames(plan) && ByName(valid) == ByName(plan) && k < |plan| && d in plan[k].dependencies
    requires PublicationOrderOf(GraphOf(valid), NamesOf(plan))
    ensures exists j :: 0 <= j < k && plan[j].name == d
  {
    PlanDependencies(valid, plan, k);
    hide GraphOf, ByName;
    var names := NamesOf(plan);
    assert names[k] == plan[k].name;
    FoundBefore(names, k, plan[k].dependencies.Keys, d);
  }

  lemma FoundBefore(names: seq<Name>, k: nat, found: set<Name>, d: Name)
    requires k < |names| && found <= ToSet(names[..k]) && d in found
    ensures exists j :: 0 <= j < k && names[j] == d
  {
    var j :| 0 <= j < k && names[..k][j] == d;
    assert names[j] == d;
  }

  lemma PlanDependencies(valid: seq<Record>, plan: seq<Record>, k: nat)
    requires DistinctNames(plan) && ByName(valid) == ByName(plan) && k < |plan|
    ensures plan[k].name in GraphOf(valid).deps && GraphOf(valid).deps[plan[k].name] == plan[k].dependencies.Keys
  {
    hide ByName;
    ByNameContents(plan);
  }

  /**
   * In every run, interrupted or not, a package is published only right after it was seen
   * absent and after each of its internal dependencies was seen exact in the same run.
   */
  lemma PublishedAfterDependencies(
    records: seq<Record>, declared: seq<Definition>, channel: Channel, retries: int, script: seq<Turn>, i: nat)
    requires i < |PublishRecords(records, declared, channel, retries, script).log|
    requires PublishRecords(records, declared, channel, retries, script).log[i].Published?
    ensures var log := PublishRecords(records, declared, channel, retries, script).log;
            && i > 0 && log[i - 1] == Observed(log[i].name, Absent)
            && exists r :: r in records && r.name == log[i].name
                 && forall d :: d in r.dependencies ==>
                      exists q :: q in records && q.name == d && ExactlyObserved(log[..i], q, channel)
  {
    var plan := PlanRecords(records, declared).value;
    var log := PublishFrom(plan, channel, retries, script, map[]).log;
    hide PlanRecords, PublishFrom, ExactlyObserved;
    var k := RunJustified(plan, channel, retries, script, map[], [], [], i);
    assert [] + plan[..k] == plan[..k] && [] + log[..i] == log[..i];
    var r := plan[k];
    PlanIsRearrangement(records, declared, plan);
    forall d | d in r.dependencies
      ensures exists q :: q in records && q.name == d && ExactlyObserved(log[..i], q, channel)
    {
      PlannedDependencies(records, declared, plan, k, d);
      var j :| 0 <= j < k && plan[j].name == d;
      assert plan[..k][j] == plan[j];
      assert ExactlyObserved(log[..i], plan[j], channel);
    }
  }

  lemma PlanIsRearrangement(records: seq<Record>, declared: seq<Definition>, plan: seq<Record>)
    requires PlanRecords(records, declared) == Ok(plan)
    ensures DistinctNames(plan) && multiset(plan) == multiset(records)
    ensures forall j :: 0 <= j < |plan| ==> plan[j] in records
  {
    assert Validate(records, declared).Ok?;
    hide PlanRecords, Validate, GraphOf, ByName, ValidGraph, NotAfter, PublicationOrderOf;
    var valid := PlanFacts(records, declared, plan);
    PlanIsLeastPublicationOrder(records, declared);
  }

  // ---- How often each package is observed and published ----

  function ObservationsOf(name: Name, log: seq<Event>): nat {
    if log == [] then 0 else (if log[0].Observed? && log[0].name == name then 1 else 0) + ObservationsOf(name, log[1..])
  }

  function PublicationsOf(name: Name, log: seq<Event>): nat {
    if log == [] then 0 else (if log[0].Published? && log[0].name == name then 1 else 0) + PublicationsOf(name, log[1..])
  }

  lemma {:induction false} CountsConcat(name: Name, a: seq<Event>, b: seq<Event>)
    ensures ObservationsOf(name, a + b) == ObservationsOf(name, a) + ObservationsOf(name, b)
    ensures PublicationsOf(name, a + b) == PublicationsOf(name, a) + PublicationsOf(name, b)
  {
    if a == [] {
      assert a + b == b;
    } else {
      assert (a + b)[1..] == a[1..] + b;
      CountsConcat(name, a[1..], b);
    }
  }

  lemma CountsEmpty(name: Name)
    ensures ObservationsOf(name, []) == 0 && PublicationsOf(name, []) == 0
  {
  }

  lemma {:induction false} CountsAbout(name: Name, subject: Name, log: seq<Event>)
    requires About(subject, log)
    ensures ObservationsOf(name, log) == if name == subject then Observations(log) else 0
    ensures name != subject || NoPublish(log) ==> PublicationsOf(name, log) == 0
  {
    if log != [] {
      CountsAbout(name, subject, log[1..]);
      assert NoPublish(log) ==> NoPublish(log[1..]);
    }
  }

  lemma OnePackageCounts(name: Name, record: Record, channel: Channel, retries: int, script: seq<Turn>)
    ensures var log := PublishOne(record, channel, retries, script).log;
            if name == record.name
            then ObservationsOf(name, log) <= AtLeastZero(retries) + 2 && PublicationsOf(name, log) <= 1
            else ObservationsOf(name, log) == 0 && PublicationsOf(name, log) == 0
  {
    PublishOneLog(record, channel, retries, script);
    hide PublishOne;
    var log := PublishOne(record, channel, retries, script).log;
    CountsAbout(name, record.name, log);
    if name == record.name && |log| > 2 {
      assert log == log[..2] + ([log[2]] + log[3..]);
      CountsConcat(name, log[..2], [log[2]] + log[3..]);
      CountsConcat(name, [log[2]], log[3..]);
      CountsAbout(name, name, log[..2]);
      CountsAbout(name, name, log[3..]);
      assert [log[2]][1..] == [];
    } else {
      CountsAbout(name, record.name, log);
    }
  }

  /** Each package is published at most once per run and looked at most retries + 2 times. */
  lemma {:induction false} RunCounts(
    name: Name, plan: seq<Record>, channel: Channel, retries: int, script: seq<Turn>, seen: Seen)
    requires DistinctNames(plan)
    ensures var log := PublishFrom(plan, channel, retries, script, seen).log;
            && ObservationsOf(name, log) <= AtLeastZero(retries) + 2 && PublicationsOf(name, log) <= 1
            && (name !in NamesOf(plan) ==> ObservationsOf(name, log) == 0 && PublicationsOf(name, log) == 0)
  {
    hide PublishOne, ObservationsOf, PublicationsOf;
    if plan == [] {
      CountsEmpty(name);
    } else {
      OnePackageCounts(name, plan[0], channel, retries, script);
      var one := PublishOne(plan[0], channel, retries, script);
      assert NamesOf(plan)[0] == plan[0].name;
      if one.outcome.Done? {
        var seen' := seen[plan[0].name := one.outcome.value];
        RunCounts(name, plan[1..], channel, retries, one.rest, seen');
        CountsConcat(name, one.log, PublishFrom(plan[1..], channel, retries, one.rest, seen').log);
        TailNames(plan);
      }
    }
  }

  lemma TailNames(plan: seq<Record>)
    requires plan != [] && DistinctNames(plan)
    ensures plan[0].name !in NamesOf(plan[1..])
    ensures forall n :: n in NamesOf(plan[1..]) ==> n in NamesOf(plan)
  {
    forall n | n in NamesOf(plan[1..]) ensures n in NamesOf(plan) && n != plan[0].name {
      var i :| 0 <= i < |plan| - 1 && NamesOf(plan[1..])[i] == n;
      assert NamesOf(plan)[i + 1] == n;
    }
  }

  // ---- The final sweep ----

  /** The answers of a sweep are exact for each record in turn. */
  predicate AllExact(plan: seq<Record>, channel: Channel, script: seq<Turn>) {
    && |plan| <= |script|
    && forall k :: 0 <= k < |plan| ==>
         script[k].observe.Present? && Exact(plan[k], script[k].observe.seen, channel)
  }

  function Collected(plan: seq<Record>, script: seq<Turn>, seen: Seen): Seen
    requires |plan| <= |script| && forall k :: 0 <= k < |plan| ==> script[k].observe.Present?
  {
    if plan == [] then seen
    else Collected(plan[1..], script[1..], seen[plan[0].name := script[0].observe.seen])
  }

  /** The sweep of a plan succeeds if and only if every answer is exact, and then returns those answers. */
  lemma {:induction false} PlannedSweepIsExact(plan: seq<Record>, channel: Channel, script: seq<Turn>, seen: Seen)
    ensures SweepFrom(plan, channel, script, seen).outcome.Done? <==> AllExact(plan, channel, script)
    ensures AllExact(plan, channel, script) ==>
              SweepFrom(plan, channel, script, seen).outcome == Done(Collected(plan, script, seen))
  {
    hide AssertExact, Exact;
    if plan != [] && script != [] {
      var first := script[0].observe;
      if first.Present? {
        AssertExactMeansExact(plan[0], first.seen, channel);
      }
      if first.Present? && Exact(plan[0], first.seen, channel) {
        PlannedSweepIsExact(plan[1..], channel, script[1..], seen[plan[0].name := first.seen]);
        SweepTail(plan, channel, script);
      }
    }
  }

  lemma SweepTail(plan: seq<Record>, channel: Channel, script: seq<Turn>)
    requires plan != [] && script != []
    requires script[0].observe.Present? && Exact(plan[0], script[0].observe.seen, channel)
    ensures AllExact(plan, channel, script) <==> AllExact(plan[1..], channel, script[1..])
  {
    hide Exact;
    if AllExact(plan[1..], channel, script[1..]) {
      forall k | 0 <= k < |plan| ensures script[k].observe.Present? && Exact(plan[k], script[k].observe.seen, channel) {
        if k > 0 {
          assert plan[1..][k - 1] == plan[k] && script[1..][k - 1] == script[k];
        }
      }
    }
    if AllExact(plan, channel, script) {
      forall k | 0 <= k < |plan| - 1
        ensures script[1..][k].observe.Present? && Exact(plan[1..][k], script[1..][k].observe.seen, channel)
      {
        assert plan[1..][k] == plan[k + 1] && script[1..][k] == script[k + 1];
      }
    }
  }

  /** What was collected under a name is the answer given for it, names being distinct. */
  lemma {:induction false} CollectedAt(plan: seq<Record>, script: seq<Turn>, seen: Seen)
    requires DistinctNames(plan) && |plan| <= |script| && forall k :: 0 <= k < |plan| ==> script[k].observe.Present?
    ensures var c := Collected(plan, script, seen);
            && c.Keys == seen.Keys + ToSet(NamesOf(plan))
            && (forall n :: n in seen && n !in NamesOf(plan) ==> c[n] == seen[n])
            && forall k :: 0 <= k < |plan| ==> plan[k].name in c && c[plan[k].name] == script[k].observe.seen
  {
    if plan != [] {
      var first, rest := plan[0], plan[1..];
      CollectedAt(rest, script[1..], seen[first.name := script[0].observe.seen]);
      assert NamesOf(plan) == [first.name] + NamesOf(rest);
      var c := Collected(plan, script, seen);
      TailNames(plan);
      forall k | 0 <= k < |plan| ensures plan[k].name in c && c[plan[k].name] == script[k].observe.seen {
        if k > 0 {
          assert rest[k - 1] == plan[k] && script[1..][k - 1] == script[k];
        }
      }
    }
  }

  lemma PlanNames(records: seq<Record>, declared: seq<Definition>)
    requires PlanRecords(records, declared).Ok?
    ensures var plan := PlanRecords(records, declared).value;
            DistinctNames(plan) && multiset(plan) == multiset(records) && ToSet(NamesOf(plan)) == ToSet(NamesOf(records))
  {
    hide PlanRecords;
    var plan := PlanRecords(records, declared).value;
    PlanIsRearrangement(records, declared, plan);
    SameNames(plan, records);
    SameNames(records, plan);
  }

  lemma SameNames(a: seq<Record>, b: seq<Record>)
    requires multiset(a) == multiset(b)
    ensures ToSet(NamesOf(a)) <= ToSet(NamesOf(b))
  {
    forall n | n in ToSet(NamesOf(a)) ensures n in ToSet(NamesOf(b)) {
      var i :| 0 <= i < |NamesOf(a)| && NamesOf(a)[i] == n;
      assert a[i] in multiset(b);
      var j :| 0 <= j < |b| && b[j] == a[i];
      assert NamesOf(b)[j] == n;
    }
  }

  /**
   * The sweep of any records succeeds if and only if they can be planned and every answer is exact;
   * it then returns one observation for every record and no other, each exact.
   */
  lemma SweepSucceedsOnlyOnExact(records: seq<Record>, declared: seq<Definition>, channel: Channel, script: seq<Turn>)
    ensures SweepRecords(records, declared, channel, script).outcome.Done? <==>
              PlanRecords(records, declared).Ok? && AllExact(PlanRecords(records, declared).value, channel, script)
    ensures var r := SweepRecords(records, declared, channel, script).outcome;
            r.Done? ==>
              && r.value.Keys == ToSet(NamesOf(records))
              && forall record :: record in records ==> record.name in r.value && Exact(record, r.value[record.name], channel)
  {
    hide PlanRecords, SweepFrom, Exact;
    if PlanRecords(records, declared).Ok? {
      var plan := PlanRecords(records, declared).value;
      PlannedSweepIsExact(plan, channel, script, map[]);
      PlanNames(records, declared);
      if AllExact(plan, channel, script) {
        CollectedAt(plan, script, map[]);
        forall record | record in records
          ensures record.name in Collected(plan, script, map[]) && Exact(record, Collected(plan, script, map[])[record.name], channel)
        {
          assert record in multiset(records);
          var k :| 0 <= k < |plan| && plan[k] == record;
        }
      }
    }
  }

  // ---- A run with nothing left to do ----

  /** Every package's tarball is good and its first look at the registry is exact. */
  predicate AllSettled(plan: seq<Record>, channel: Channel, script: seq<Turn>) {
    && 2 * |plan| <= |script|
    && forall k :: 0 <= k < |plan| ==>
         script[2 * k].tarball && script[2 * k + 1].observe.Present? && Exact(plan[k], script[2 * k + 1].observe.seen, channel)
  }

  lemma SettledTail(plan: seq<Record>, channel: Channel, script: seq<Turn>)
    requires plan != [] && AllSettled(plan, channel, script)
    ensures AllSettled(plan[1..], channel, script[2..])
    ensures script[0].tarball && script[1].observe.Present? && Exact(plan[0], script[1].observe.seen, channel)
  {
    hide Exact;
    assert script[2 * 0] == script[0] && script[2 * 0 + 1] == script[1];
    forall k | 0 <= k < |plan[1..]|
      ensures script[2..][2 * k].tarball && script[2..][2 * k + 1].observe.Present?
              && Exact(plan[1..][k], script[2..][2 * k + 1].observe.seen, channel)
    {
      assert plan[1..][k] == plan[k + 1];
      assert script[2..][2 * k] == script[2 * (k + 1)] && script[2..][2 * k + 1] == script[2 * (k + 1) + 1];
    }
  }

  /** The first looks: every other turn. */
  function Looks(script: seq<Turn>, n: nat): (looks: seq<Turn>)
    requires 2 * n <= |script|
    ensures |looks| == n && forall k :: 0 <= k < n ==> looks[k] == script[2 * k + 1]
  {
    seq(n, k requires 0 <= k < n => script[2 * k + 1])
  }

  lemma LooksTail(script: seq<Turn>, n: nat)
    requires 0 < n && 2 * n <= |script|
    ensures Looks(script[2..], n - 1) == Looks(script, n)[1..]
  {
    forall k | 0 <= k < n - 1 ensures script[2..][2 * k + 1] == script[2 * (k + 1) + 1] {
    }
  }

  lemma {:induction false} SettledPlanPublishesNothing(
    plan: seq<Record>, channel: Channel, retries: int, script: seq<Turn>, seen: Seen)
    requires AllSettled(plan, channel, script)
    ensures forall k :: 0 <= k < |plan| ==> Looks(script, |plan|)[k].observe.Present?
    ensures var run := PublishFrom(plan, channel, retries, script, seen);
            run.outcome == Done(Collected(plan, Looks(script, |plan|), seen)) && NoPublish(run.log)
  {
    hide PublishOne, Exact, Looks;
    if plan != [] {
      var first, rest, looks := plan[0], plan[1..], Looks(script, |plan|);
      SettledTail(plan, channel, script);
      ExactIsSkipped(first, channel, retries, script);
      LooksTail(script, |plan|);
      var o := script[1].observe.seen;
      assert looks[0] == script[2 * 0 + 1];
      SettledPlanPublishesNothing(rest, channel, retries, script[2..], seen[first.name := o]);
      assert |rest| == |plan| - 1;
    }
  }

  /**
   * Resuming a finished release: if every package's first look is exact, the run publishes nothing,
   * ends well, and returns exactly those observations.
   */
  lemma SettledRunPublishesNothing(
    records: seq<Record>, declared: seq<Definition>, channel: Channel, retries: int, script: seq<Turn>)
    requires PlanRecords(records, declared).Ok? && AllSettled(PlanRecords(records, declared).value, channel, script)
    ensures var run, plan := PublishRecords(records, declared, channel, retries, script), PlanRecords(records, declared).value;
            && run.outcome.Done? && NoPublish(run.log)
            && run.outcome.value.Keys == ToSet(NamesOf(records))
            && forall k :: 0 <= k < |plan| ==>
                 plan[k].name in run.outcome.value && run.outcome.value[plan[k].name] == script[2 * k + 1].observe.seen
  {
    hide PlanRecords, PublishFrom, Exact;
    var plan := PlanRecords(records, declared).value;
    PlanNames(records, declared);
    SettledPlanPublishesNothing(plan, channel, retries, script, map[]);
    CollectedAt(plan, Looks(script, |plan|), map[]);
  }

  // ---- Interrupted and resumed runs ----

  /** The calls of one run after another, each against its own answers. */
  function History(
    records: seq<Record>, declared: seq<Definition>, channel: Channel, retries: int, scripts: seq<seq<Turn>>): seq<Event>
  {
    if scripts == [] then []
    else
      var earlier := History(records, declared, channel, retries, scripts[..|scripts| - 1]);
      earlier + PublishRecords(records, declared, channel, retries, scripts[|scripts| - 1]).log
  }

  /**
   * Over any sequence of interrupted and resumed runs, every publication comes right after
   * the package was seen absent and after each of its internal dependencies was seen exact.
   */
  lemma {:induction false} HistoryPublishesAfterDependencies(
    records: seq<Record>, declared: seq<Definition>, channel: Channel, retries: int, scripts: seq<seq<Turn>>, i: nat)
    requires i < |History(records, declared, channel, retries, scripts)|
    requires History(records, declared, channel, retries, scripts)[i].Published?
    ensures var h := History(records, declared, channel, retries, scripts);
            && i > 0 && h[i - 1] == Observed(h[i].name, Absent)
            && exists r :: r in records && r.name == h[i].name
                 && forall d :: d in r.dependencies ==>
                      exists q :: q in records && q.name == d && ExactlyObserved(h[..i], q, channel)
    decreases |scripts|
  {
    hide PublishRecords, ExactlyObserved;
    var h := History(records, declared, channel, retries, scripts);
    var earlier := History(records, declared, channel, retries, scripts[..|scripts| - 1]);
    var script := scripts[|scripts| - 1];
    var log := PublishRecords(records, declared, channel, retries, script).log;
    assert h == earlier + log;
    if i < |earlier| {
      HistoryPublishesAfterDependencies(records, declared, channel, retries, scripts[..|scripts| - 1], i);
      assert h[..i] == earlier[..i];
    } else {
      var j := i - |earlier|;
      PublishedAfterDependencies(records, declared, channel, retries, script, j);
      assert h[..i] == earlier + log[..j];
      var r :| r in records && r.name == log[j].name
        && forall d :: d in r.dependencies ==>
             exists q :: q in records && q.name == d && ExactlyObserved(log[..j], q, channel);
      forall d | d in r.dependencies
        ensures exists q :: q in records && q.name == d && ExactlyObserved(h[..i], q, channel)
      {
        var q :| q in records && q.name == d && ExactlyObserved(log[..j], q, channel);
        ExactlyObservedBefore(earlier, log[..j], q, channel);
      }
    }
  }

  lemma ExactlyObservedBefore(earlier: seq<Event>, log: seq<Event>, record: Record, channel: Channel)
    requires ExactlyObserved(log, record, channel)
    ensures ExactlyObserved(earlier + log, record, channel)
  {
    hide Exact;
    var p :| 0 <= p < |log| && log[p].Observed? && log[p].name == record.name && log[p].answer.Present?
      && Exact(record, log[p].answer.seen, channel);
    assert (earlier + log)[|earlier| + p] == log[p];
  }

  /** Within each run of a history a package is published at most once and looked at most retries + 2 times. */
  lemma EachRunCounts(
    name: Name, records: seq<Record>, declared: seq<Definition>, channel: Channel, retries: int, script: seq<Turn>)
    ensures var log := PublishRecords(records, declared, channel, retries, script).log;
            ObservationsOf(name, log) <= AtLeastZero(retries) + 2 && PublicationsOf(name, log) <= 1
  {
    hide PlanRecords, PublishFrom;
    match PlanRecords(records, declared)
    case Err(_) =>
    case Ok(plan) =>
      PlanIsRearrangement(records, declared, plan);
      RunCounts(name, plan, channel, retries, script, map[]);
  }
}

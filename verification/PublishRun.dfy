/**
 * Publishing against a registry that answers as it likes: publishRetainedPackage of
 * scripts/ci-release-publish.ts, and what the log of one package may look like.
 *
 * The registry is a script of answers, one per call. A run that reaches the end of its
 * script was interrupted there. What a run did is the log of its calls and their answers.
 */
module PublishRun {
  import opened Lists
  import opened PublicationOrder
  import opened PublishPlan

  datatype Observation = Observation(
    evidence: Evidence,
    dependencies: map<Name, string>,
    taggedVersion: Option<string>)

  datatype Channel = Stable | Nightly

  // ---- Judging an observation ----

  datatype Verdict = Publish | Skip | Conflict

  function Classify(record: Record, seen: Option<Observation>): Verdict {
    match seen
    case None => Publish
    case Some(o) => if o.evidence == record.evidence && o.dependencies == record.dependencies then Skip else Conflict
  }

  datatype ObservationError = TagMissing | NotComparable | TagRegressed | Conflicting

  /** assertExactRegistryObservation. */
  function AssertExact(record: Record, o: Observation, channel: Channel): Result<(), ObservationError> {
    if o.taggedVersion == None then Err(TagMissing)
    else
      var tagged := o.taggedVersion.value;
      var order := Versions.CompareStable(tagged, record.version);
      if channel == Stable && order.Err? then Err(NotComparable)
      else if channel == Stable && order.value < 0 then Err(TagRegressed)
      else if tagged != record.version || Classify(record, Some(o)) != Skip then Err(Conflicting)
      else Ok(())
  }

  /** The registry shows exactly the expected bytes, manifest and dependencies under the selected tag. */
  predicate Exact(record: Record, o: Observation, channel: Channel) {
    && o.evidence == record.evidence
    && o.dependencies == record.dependencies
    && o.taggedVersion == Some(record.version)
    && (channel == Stable ==> Versions.IsStable(record.version))
  }

  lemma AssertExactMeansExact(record: Record, o: Observation, channel: Channel)
    ensures AssertExact(record, o, channel).Ok? <==> Exact(record, o, channel)
  {
    if o.taggedVersion == Some(record.version) && Versions.IsStable(record.version) {
      Versions.CompareStableIsPrecedence(record.version, record.version);
    }
  }

  // ---- The registry ----

  datatype Answer = Absent | Present(seen: Observation) | Throws(transient: bool)

  /** What the world would answer to the next call, whichever call that is. */
  datatype Turn = Turn(tarball: bool, observe: Answer, published: bool)

  datatype Event =
    | ReadTarball(name: Name, ok: bool)
    | Observed(name: Name, answer: Answer)
    | Published(name: Name, ok: bool)

  datatype Outcome<+T> = Done(value: T) | Failed | Interrupted

  datatype Run<+T> = Run(outcome: Outcome<T>, log: seq<Event>, rest: seq<Turn>)

  function After<T>(e: Event, run: Run<T>): Run<T> {
    run.(log := [e] + run.log)
  }

  // ---- One package ----

  function Accept(record: Record, o: Observation, channel: Channel): Outcome<Observation> {
    if AssertExact(record, o, channel).Ok? then Done(o) else Failed
  }

  /** Waiting for a publication to become visible: attempt after attempt, at most `retries` more. */
  function AwaitVisible(record: Record, channel: Channel, retries: int, attempt: nat, script: seq<Turn>): Run<Observation>
    decreases |script|
  {
    if script == [] then Run(Interrupted, [], [])
    else
      var answer := script[0].observe;
      var e := Observed(record.name, answer);
      match answer
      case Present(o) => Run(Accept(record, o, channel), [e], script[1..])
      case Throws(transient) =>
        if attempt < retries && transient
        then After(e, AwaitVisible(record, channel, retries, attempt + 1, script[1..]))
        else Run(Failed, [e], script[1..])
      case Absent =>
        if attempt >= retries then Run(Failed, [e], script[1..])
        else After(e, AwaitVisible(record, channel, retries, attempt + 1, script[1..]))
  }

  /** A failed publish may have lost a race: one more look decides. */
  function AfterFailedPublish(record: Record, channel: Channel, script: seq<Turn>): Run<Observation> {
    if script == [] then Run(Interrupted, [], [])
    else
      var e := Observed(record.name, script[0].observe);
      match script[0].observe
      case Present(o) => Run(Accept(record, o, channel), [e], script[1..])
      case _ => Run(Failed, [e], script[1..])
  }

  function PublishAbsent(record: Record, channel: Channel, retries: int, script: seq<Turn>): Run<Observation> {
    if script == [] then Run(Interrupted, [], [])
    else
      After(Published(record.name, script[0].published),
            if script[0].published then AwaitVisible(record, channel, retries, 0, script[1..])
            else AfterFailedPublish(record, channel, script[1..]))
  }

  function PublishTarball(record: Record, channel: Channel, retries: int, script: seq<Turn>): Run<Observation> {
    if script == [] then Run(Interrupted, [], [])
    else
      var e := Observed(record.name, script[0].observe);
      match script[0].observe
      case Present(o) => Run(Accept(record, o, channel), [e], script[1..])
      case Throws(_) => Run(Failed, [e], script[1..])
      case Absent => After(e, PublishAbsent(record, channel, retries, script[1..]))
  }

  function PublishOne(record: Record, channel: Channel, retries: int, script: seq<Turn>): Run<Observation> {
    if script == [] then Run(Interrupted, [], [])
    else
      var e := ReadTarball(record.name, script[0].tarball);
      if script[0].tarball then After(e, PublishTarball(record, channel, retries, script[1..]))
      else Run(Failed, [e], script[1..])
  }

  class Session {
    var script: seq<Turn>
    var log: seq<Event>

    constructor (turns: seq<Turn>)
      ensures script == turns && log == []
    {
      script, log := turns, [];
    }

    method Read(name: Name) returns (r: Option<bool>)
      modifies this
      ensures old(script) == [] ==> r == None && script == old(script) && log == old(log)
      ensures old(script) != [] ==>
                r == Some(old(script)[0].tarball) && script == old(script)[1..]
                && log == old(log) + [ReadTarball(name, old(script)[0].tarball)]
    {
      if script == [] {
        return None;
      }
      r := Some(script[0].tarball);
      log, script := log + [ReadTarball(name, script[0].tarball)], script[1..];
    }

    method Observe(name: Name) returns (r: Option<Answer>)
      modifies this
      ensures old(script) == [] ==> r == None && script == old(script) && log == old(log)
      ensures old(script) != [] ==>
                r == Some(old(script)[0].observe) && script == old(script)[1..]
                && log == old(log) + [Observed(name, old(script)[0].observe)]
    {
      if script == [] {
        return None;
      }
      r := Some(script[0].observe);
      log, script := log + [Observed(name, script[0].observe)], script[1..];
    }

    method Publish(name: Name) returns (r: Option<bool>)
      modifies this
      ensures old(script) == [] ==> r == None && script == old(script) && log == old(log)
      ensures old(script) != [] ==>
                r == Some(old(script)[0].published) && script == old(script)[1..]
                && log == old(log) + [Published(name, old(script)[0].published)]
    {
      if script == [] {
        return None;
      }
      r := Some(script[0].published);
      log, script := log + [Published(name, script[0].published)], script[1..];
    }
  }

  /** The session has gone through exactly this run since `log` and left the rest of the script. */
  ghost predicate Performed<T>(s: Session, log: seq<Event>, run: Run<T>, outcome: Outcome<T>)
    reads s
  {
    s.log == log + run.log && s.script == run.rest && outcome == run.outcome
  }

  /** What is done so far, followed by the run that is left, is the whole run. */
  ghost predicate Continues<T>(whole: Run<T>, done: seq<Event>, left: Run<T>) {
    whole == left.(log := done + left.log)
  }

  lemma ContinuesAtStart<T>(whole: Run<T>)
    ensures Continues(whole, [], whole)
  {
    assert [] + whole.log == whole.log;
  }

  lemma ContinueWith<T>(whole: Run<T>, done: seq<Event>, events: seq<Event>, left: Run<T>)
    requires Continues(whole, done, left.(log := events + left.log))
    ensures Continues(whole, done + events, left)
  {
    assert done + (events + left.log) == (done + events) + left.log;
  }

  lemma ContinuesAtEnd<T>(whole: Run<T>, done: seq<Event>, last: Run<T>, log: seq<Event>)
    requires Continues(whole, done, last)
    ensures whole.outcome == last.outcome && whole.rest == last.rest && log + whole.log == log + done + last.log
  {
    assert log + (done + last.log) == log + done + last.log;
  }

  method WaitUntilVisible(s: Session, record: Record, channel: Channel, retries: int)
    returns (r: Outcome<Observation>)
    modifies s
    ensures Performed(s, old(s.log), AwaitVisible(record, channel, retries, 0, old(s.script)), r)
  {
    hide Accept, Continues;
    var attempt := 0;
    ghost var done: seq<Event>, whole := [], AwaitVisible(record, channel, retries, 0, s.script);
    ContinuesAtStart(whole);
    while true
      invariant s.log == old(s.log) + done
      invariant Continues(whole, done, AwaitVisible(record, channel, retries, attempt, s.script))
      decreases |s.script|
    {
      var observed := s.Observe(record.name);
      if observed == None {
        ContinuesAtEnd(whole, done, Run(Interrupted, [], []), old(s.log));
        return Interrupted;
      }
      ghost var e := Observed(record.name, observed.value);
      match observed.value {
        case Throws(transient) =>
          if !(attempt < retries && transient) {
            ContinuesAtEnd(whole, done, Run(Failed, [e], s.script), old(s.log));
            return Failed;
          }
        case Present(o) =>
          ContinuesAtEnd(whole, done, Run(Accept(record, o, channel), [e], s.script), old(s.log));
          return Accept(record, o, channel);
        case Absent =>
          if attempt >= retries {
            ContinuesAtEnd(whole, done, Run(Failed, [e], s.script), old(s.log));
            return Failed;
          }
      }
      ContinueWith(whole, done, [e], AwaitVisible(record, channel, retries, attempt + 1, s.script));
      assert s.log == old(s.log) + (done + [e]);
      done := done + [e];
      attempt := attempt + 1;
    }
  }

  /** The second half of publishRetainedPackage, from the publish on. */
  method PublishMissingPackage(s: Session, record: Record, channel: Channel, retries: int)
    returns (r: Outcome<Observation>)
    modifies s
    ensures Performed(s, old(s.log), PublishAbsent(record, channel, retries, old(s.script)), r)
  {
    hide Accept, AwaitVisible, AssertExact;
    var publish := s.Publish(record.name);
    if publish == None {
      return Interrupted;
    }
    if !publish.value {
      var raced := s.Observe(record.name);
      if raced == None {
        return Interrupted;
      }
      return if raced.value.Present? then Accept(record, raced.value.seen, channel) else Failed;
    }
    r := WaitUntilVisible(s, record, channel, retries);
  }

  method PublishRetainedPackage(s: Session, record: Record, channel: Channel, retries: int)
    returns (r: Outcome<Observation>)
    modifies s
    ensures Performed(s, old(s.log), PublishOne(record, channel, retries, old(s.script)), r)
  {
    hide Accept, PublishAbsent;
    var tarball := s.Read(record.name);
    if tarball == None {
      return Interrupted;
    }
    if !tarball.value {
      return Failed;
    }
    var existing := s.Observe(record.name);
    if existing == None {
      return Interrupted;
    }
    match existing.value {
      case Throws(_) => return Failed;
      case Present(o) => return Accept(record, o, channel);
      case Absent => r := PublishMissingPackage(s, record, channel, retries);
    }
  }

  // ---- What one package's calls look like ----

  predicate About(name: Name, log: seq<Event>) {
    forall i :: 0 <= i < |log| ==> log[i].name == name
  }

  function Observations(log: seq<Event>): nat {
    if log == [] then 0 else (if log[0].Observed? then 1 else 0) + Observations(log[1..])
  }

  predicate NoPublish(log: seq<Event>) {
    forall i :: 0 <= i < |log| ==> !log[i].Published?
  }

  /** The run ended well because its last look at the registry was exact. */
  predicate EndsExact(record: Record, channel: Channel, run: Run<Observation>) {
    run.outcome.Done? ==>
      && run.log != []
      && run.log[|run.log| - 1] == Observed(record.name, Present(run.outcome.value))
      && Exact(record, run.outcome.value, channel)
  }

  lemma AfterLook(record: Record, channel: Channel, e: Event, run: Run<Observation>)
    requires About(record.name, run.log) && e.name == record.name && EndsExact(record, channel, run)
    ensures About(record.name, After(e, run).log) && EndsExact(record, channel, After(e, run))
    ensures Observations(After(e, run).log) == Observations(run.log) + if e.Observed? then 1 else 0
    ensures NoPublish(After(e, run).log) <==> !e.Published? && NoPublish(run.log)
  {
    assert ([e] + run.log)[1..] == run.log;
    if NoPublish(After(e, run).log) {
      forall i | 0 <= i < |run.log| ensures !run.log[i].Published? {
        assert After(e, run).log[i + 1] == run.log[i];
      }
    }
  }

  function AtLeastZero(n: int): nat {
    if n < 0 then 0 else n
  }

  lemma {:induction false} AwaitVisibleLog(record: Record, channel: Channel, retries: int, attempt: nat, script: seq<Turn>)
    requires attempt <= AtLeastZero(retries)
    ensures var run := AwaitVisible(record, channel, retries, attempt, script);
            && About(record.name, run.log) && NoPublish(run.log) && EndsExact(record, channel, run)
            && Observations(run.log) <= AtLeastZero(retries) - attempt + 1
    decreases |script|
  {
    hide AssertExact;
    if script != [] {
      var answer := script[0].observe;
      var e := Observed(record.name, answer);
      assert [e][1..] == [];
      if answer.Present? {
        AssertExactMeansExact(record, answer.seen, channel);
      } else if attempt < retries && (answer.Absent? || answer.transient) {
        AwaitVisibleLog(record, channel, retries, attempt + 1, script[1..]);
        AfterLook(record, channel, e, AwaitVisible(record, channel, retries, attempt + 1, script[1..]));
      }
    }
  }

  lemma AfterFailedPublishLog(record: Record, channel: Channel, script: seq<Turn>)
    ensures var run := AfterFailedPublish(record, channel, script);
            && About(record.name, run.log) && NoPublish(run.log) && EndsExact(record, channel, run)
            && Observations(run.log) <= 1
  {
    hide AssertExact;
    if script != [] {
      assert [Observed(record.name, script[0].observe)][1..] == [];
      if script[0].observe.Present? {
        AssertExactMeansExact(record, script[0].observe.seen, channel);
      }
    }
  }

  /** Publishing happens at most once, and then as the third call, right after the registry showed absence. */
  predicate PublishesOnce(record: Record, log: seq<Event>) {
    forall i :: 0 <= i < |log| && log[i].Published? ==>
      i == 2 && log[0] == ReadTarball(record.name, true) && log[1] == Observed(record.name, Absent)
  }

  lemma PublishAbsentLog(record: Record, channel: Channel, retries: int, script: seq<Turn>)
    ensures var run := PublishAbsent(record, channel, retries, script);
            && About(record.name, run.log) && EndsExact(record, channel, run)
            && (run.log != [] ==> NoPublish(run.log[1..]))
            && Observations(run.log) <= AtLeastZero(retries) + 1
  {
    hide AwaitVisible, AfterFailedPublish, Exact;
    if script != [] {
      var e := Published(record.name, script[0].published);
      var tail := if script[0].published then AwaitVisible(record, channel, retries, 0, script[1..])
                  else AfterFailedPublish(record, channel, script[1..]);
      if script[0].published {
        AwaitVisibleLog(record, channel, retries, 0, script[1..]);
      } else {
        AfterFailedPublishLog(record, channel, script[1..]);
      }
      AfterLook(record, channel, e, tail);
      assert ([e] + tail.log)[1..] == tail.log;
    }
  }

  /** Publishing happens at most once, and then as the second call, right after absence was seen. */
  predicate PublishesSecond(record: Record, log: seq<Event>) {
    forall i :: 0 <= i < |log| && log[i].Published? ==> i == 1 && log[0] == Observed(record.name, Absent)
  }

  lemma SecondPosition(record: Record, log: seq<Event>)
    requires log != [] ==> NoPublish(log[1..])
    ensures PublishesSecond(record, [Observed(record.name, Absent)] + log)
  {
    var whole := [Observed(record.name, Absent)] + log;
    assert forall i :: 2 <= i < |whole| ==> whole[i] == log[1..][i - 2];
  }

  lemma ThirdPosition(record: Record, log: seq<Event>)
    requires PublishesSecond(record, log)
    ensures PublishesOnce(record, [ReadTarball(record.name, true)] + log)
  {
    var whole := [ReadTarball(record.name, true)] + log;
    assert forall i :: 1 <= i < |whole| ==> whole[i] == log[i - 1];
  }

  lemma PublishTarballLog(record: Record, channel: Channel, retries: int, script: seq<Turn>)
    ensures var run := PublishTarball(record, channel, retries, script);
            && About(record.name, run.log) && PublishesSecond(record, run.log) && EndsExact(record, channel, run)
            && Observations(run.log) <= AtLeastZero(retries) + 2
  {
    hide PublishAbsent, AssertExact, Exact;
    if script != [] {
      var look := Observed(record.name, script[0].observe);
      if script[0].observe.Absent? {
        hide PublishesSecond;
        PublishAbsentLog(record, channel, retries, script[1..]);
        var published := PublishAbsent(record, channel, retries, script[1..]);
        AfterLook(record, channel, look, published);
        SecondPosition(record, published.log);
      } else {
        assert [look][1..] == [];
        if script[0].observe.Present? {
          AssertExactMeansExact(record, script[0].observe.seen, channel);
        }
      }
    }
  }

  /**
   * The calls of one package: all concern that package, publish at most once and only right
   * after an observation of absence, look at most retries + 2 times, and end in success only
   * on an exact observation.
   */
  lemma PublishOneLog(record: Record, channel: Channel, retries: int, script: seq<Turn>)
    ensures var run := PublishOne(record, channel, retries, script);
            && About(record.name, run.log) && PublishesOnce(record, run.log) && EndsExact(record, channel, run)
            && Observations(run.log) <= AtLeastZero(retries) + 2
  {
    hide PublishTarball, Exact;
    if script != [] && script[0].tarball {
      hide PublishesOnce;
      PublishTarballLog(record, channel, retries, script[1..]);
      var rest := PublishTarball(record, channel, retries, script[1..]);
      AfterLook(record, channel, ReadTarball(record.name, true), rest);
      ThirdPosition(record, rest.log);
    }
  }

  // ---- When one package succeeds ----

  predicate Transient(a: Answer) {
    a.Absent? || (a.Throws? && a.transient)
  }

  /** The wait ends at the first answer that is not transient, or after retries + 1 transient ones. */
  lemma {:induction false} AwaitVisibleOutcome(
    record: Record, channel: Channel, retries: int, attempt: nat, script: seq<Turn>, k: nat)
    requires k < |script| && attempt + k <= AtLeastZero(retries)
    requires forall j :: 0 <= j < k ==> Transient(script[j].observe)
    requires attempt + k == AtLeastZero(retries) || !Transient(script[k].observe)
    ensures var run := AwaitVisible(record, channel, retries, attempt, script);
            && |run.log| == k + 1 && run.rest == script[k + 1..]
            && (run.outcome.Done? <==>
                  script[k].observe.Present? && Exact(record, script[k].observe.seen, channel))
    decreases k
  {
    hide AssertExact, Exact;
    if k == 0 {
      if script[0].observe.Present? {
        AssertExactMeansExact(record, script[0].observe.seen, channel);
      }
    } else {
      assert Transient(script[0].observe);
      AwaitVisibleOutcome(record, channel, retries, attempt + 1, script[1..], k - 1);
      assert script[1..][k - 1] == script[k] && script[1..][k..] == script[k + 1..];
    }
  }

  /** A package that is already exact is skipped: two calls, no publication. */
  lemma ExactIsSkipped(record: Record, channel: Channel, retries: int, script: seq<Turn>)
    requires |script| >= 2 && script[0].tarball && script[1].observe.Present?
    requires Exact(record, script[1].observe.seen, channel)
    ensures PublishOne(record, channel, retries, script)
         == Run(Done(script[1].observe.seen),
                [ReadTarball(record.name, true), Observed(record.name, script[1].observe)], script[2..])
  {
    hide AssertExact;
    AssertExactMeansExact(record, script[1].observe.seen, channel);
    assert script[1..][0] == script[1] && script[1..][1..] == script[2..];
  }
}

/**
 * restartSdkBroker of scripts/restart-sdk-broker-core.ts, as a run against scripted answers: what
 * discovery, shutdown, the hosts and the clock may say, in the order they are asked.
 */
module BrokerRestart {
  import opened Lists

  datatype Discovery = Discovery(pid: int, incarnation: string)

  /** A failure with its reason; `unknownOperation` is the answer of brokers that predate shutdown. */
  datatype Error = Error(unknownOperation: bool, reason: string)

  datatype Failure = InvalidTimeout | Rejected(error: Error) | StillPublished | SameIdentity

  datatype Event =
    | Read(answer: Result<Option<Discovery>, Error>)
    | List(hosts: Result<seq<string>, Error>)
    | Close(sessionId: string, failure: Option<Error>)
    | Shutdown(failure: Option<Error>)
    | Signal(failure: Option<Error>)
    | Sleep
    | Ensure(replacement: Result<Discovery, Error>)

  /**
   * Everything the outside answers. Reads and closes are numbered by call; `clock` holds the
   * readings of the polling loop, and a clock past its last reading is past every deadline.
   */
  datatype Script = Script(
    discoveries: nat -> Result<Option<Discovery>, Error>,
    list: Result<seq<string>, Error>,
    closes: nat -> Option<Error>,
    shutdown: Option<Error>,
    signal: Option<Error>,
    start: int,
    clock: seq<int>,
    ensured: Result<Discovery, Error>)

  datatype Unclosed = Unclosed(sessionId: string, reason: string)

  datatype Restarted = Restarted(
    previousPid: Option<int>,
    pid: int,
    closedSessionIds: Option<seq<string>>,
    sessionHostDiscoveryError: Option<string>,
    unclosedSessionHosts: Option<seq<Unclosed>>)

  const DEFAULT_TIMEOUT := 5000

  /** Is the identity still the published one? */
  predicate Shows(answer: Option<Discovery>, previous: Discovery) {
    answer.Some? && answer.value.pid == previous.pid && answer.value.incarnation == previous.incarnation
  }

  // ---- Closing the session hosts ----

  function CloseEvents(ids: seq<string>, closes: nat -> Option<Error>): seq<Event> {
    seq(|ids|, i requires 0 <= i < |ids| => Close(ids[i], closes(i)))
  }

  function Closed(ids: seq<string>, closes: nat -> Option<Error>): seq<string> {
    if ids == [] then []
    else
      var n := |ids| - 1;
      Closed(ids[..n], closes) + if closes(n).None? then [ids[n]] else []
  }

  function NotClosed(ids: seq<string>, closes: nat -> Option<Error>): seq<Unclosed> {
    if ids == [] then []
    else
      var n := |ids| - 1;
      NotClosed(ids[..n], closes) + match closes(n) { case None => [] case Some(e) => [Unclosed(ids[n], e.reason)] }
  }

  function Ids(unclosed: seq<Unclosed>): seq<string> {
    seq(|unclosed|, i requires 0 <= i < |unclosed| => unclosed[i].sessionId)
  }

  predicate Increasing(places: seq<nat>) {
    forall i, j :: 0 <= i < j < |places| ==> places[i] < places[j]
  }

  lemma {:induction false} ClosedPlaces(ids: seq<string>, closes: nat -> Option<Error>) returns (f: seq<nat>)
    ensures Increasing(f) && |f| == |Closed(ids, closes)|
    ensures forall k :: 0 <= k < |f| ==> f[k] < |ids| && closes(f[k]).None? && Closed(ids, closes)[k] == ids[f[k]]
    ensures forall i :: 0 <= i < |ids| ==> (i in f <==> closes(i).None?)
  {
    f := [];
    if ids != [] {
      var n := |ids| - 1;
      f := ClosedPlaces(ids[..n], closes);
      if closes(n).None? {
        f := f + [n];
      } else {
        assert Closed(ids, closes) == Closed(ids[..n], closes);
      }
    }
  }

  /** The listed places of the hosts that were not closed. */
  predicate UnclosedAt(ids: seq<string>, closes: nat -> Option<Error>, unclosed: seq<Unclosed>, g: seq<nat>) {
    && Increasing(g) && |g| == |unclosed|
    && (forall k :: 0 <= k < |g| ==>
          g[k] < |ids| && closes(g[k]).Some? && unclosed[k] == Unclosed(ids[g[k]], closes(g[k]).value.reason))
    && forall i :: 0 <= i < |ids| ==> (i in g <==> closes(i).Some?)
  }

  lemma UnclosedStep(ids: seq<string>, id: string, closes: nat -> Option<Error>, unclosed: seq<Unclosed>, g: seq<nat>)
    requires UnclosedAt(ids, closes, unclosed, g)
    ensures closes(|ids|).None? ==> UnclosedAt(ids + [id], closes, unclosed, g)
    ensures closes(|ids|).Some? ==>
              UnclosedAt(ids + [id], closes, unclosed + [Unclosed(id, closes(|ids|).value.reason)], g + [|ids|])
  {
  }

  lemma {:induction false} UnclosedPlaces(ids: seq<string>, closes: nat -> Option<Error>) returns (g: seq<nat>)
    ensures UnclosedAt(ids, closes, NotClosed(ids, closes), g)
  {
    g := [];
    if ids != [] {
      hide UnclosedAt;
      var n := |ids| - 1;
      g := UnclosedPlaces(ids[..n], closes);
      assert ids == ids[..n] + [ids[n]];
      UnclosedStep(ids[..n], ids[n], closes, NotClosed(ids[..n], closes), g);
      if closes(n).Some? {
        g := g + [n];
      } else {
        assert NotClosed(ids, closes) == NotClosed(ids[..n], closes);
      }
    }
  }

  /**
   * The closed and the unclosed hosts are two subsequences of the listing, at increasing places that
   * together are all places: the places whose close succeeded and the places whose close failed.
   */
  lemma HostsAreSplit(ids: seq<string>, closes: nat -> Option<Error>) returns (f: seq<nat>, g: seq<nat>)
    ensures Increasing(f) && |f| == |Closed(ids, closes)|
    ensures Increasing(g) && |g| == |NotClosed(ids, closes)|
    ensures forall k :: 0 <= k < |f| ==> f[k] < |ids| && closes(f[k]).None? && Closed(ids, closes)[k] == ids[f[k]]
    ensures forall k :: 0 <= k < |g| ==>
              g[k] < |ids| && closes(g[k]).Some? && NotClosed(ids, closes)[k] == Unclosed(ids[g[k]], closes(g[k]).value.reason)
    ensures forall i :: 0 <= i < |ids| ==> (i in f <==> closes(i).None?) && (i in g <==> closes(i).Some?)
  {
    hide Closed, NotClosed;
    f := ClosedPlaces(ids, closes);
    g := UnclosedPlaces(ids, closes);
  }

  lemma IdsAppend(unclosed: seq<Unclosed>, one: Unclosed)
    ensures Ids(unclosed + [one]) == Ids(unclosed) + [one.sessionId]
  {
  }

  /** No host is lost and none is in both lists more often than it was listed. */
  lemma {:induction false} HostsAreConserved(ids: seq<string>, closes: nat -> Option<Error>)
    ensures multiset(Closed(ids, closes)) + multiset(Ids(NotClosed(ids, closes))) == multiset(ids)
  {
    hide Ids;
    if ids == [] {
      assert Ids([]) == [] by { NoIds(); }
    } else {
      var n := |ids| - 1;
      HostsAreConserved(ids[..n], closes);
      assert ids == ids[..n] + [ids[n]];
      match closes(n)
      case None =>
        assert NotClosed(ids, closes) == NotClosed(ids[..n], closes);
        assert Closed(ids, closes) == Closed(ids[..n], closes) + [ids[n]];
      case Some(error) =>
        assert Closed(ids, closes) == Closed(ids[..n], closes);
        assert NotClosed(ids, closes) == NotClosed(ids[..n], closes) + [Unclosed(ids[n], error.reason)];
        IdsAppend(NotClosed(ids[..n], closes), Unclosed(ids[n], error.reason));
    }
  }

  lemma NoIds()
    ensures Ids([]) == []
  {
  }

  // ---- Stopping the previous broker and waiting for it ----

  /** What a stage did and whether it threw; `asked` counts the discovery calls made so far. */
  datatype Stage = Stage(events: seq<Event>, asked: nat, failure: Option<Failure>)

  function Stop(script: Script, previous: Discovery, asked: nat): Stage {
    match script.shutdown
    case None => Stage([Shutdown(None)], asked, None)
    case Some(error) =>
      if error.unknownOperation then
        Stage([Shutdown(Some(error)), Signal(script.signal)], asked,
              match script.signal { case None => None case Some(e) => Some(Rejected(e)) })
      else
        var answer := script.discoveries(asked);
        Stage([Shutdown(Some(error)), Read(answer)], asked + 1,
              match answer {
                case Err(e) => Some(Rejected(e))
                case Ok(current) => if Shows(current, previous) then Some(Rejected(error)) else None
              })
  }

  /** Polling from the `tick`-th clock reading on. */
  function Poll(script: Script, previous: Discovery, deadline: int, tick: nat, asked: nat): Stage
    decreases |script.clock| - tick
  {
    if tick >= |script.clock| || script.clock[tick] >= deadline then Stage([], asked, None)
    else
      var answer := script.discoveries(asked);
      match answer
      case Err(e) => Stage([Read(answer)], asked + 1, Some(Rejected(e)))
      case Ok(current) =>
        if !Shows(current, previous) then Stage([Read(answer)], asked + 1, None)
        else
          var rest := Poll(script, previous, deadline, tick + 1, asked + 1);
          Stage([Read(answer), Sleep] + rest.events, rest.asked, rest.failure)
  }

  /** The read that decides: after it the old identity must be gone. */
  function Confirm(script: Script, previous: Discovery, asked: nat): Stage {
    var answer := script.discoveries(asked);
    Stage([Read(answer)], asked + 1,
          match answer {
            case Err(e) => Some(Rejected(e))
            case Ok(current) => if Shows(current, previous) then Some(StillPublished) else None
          })
  }

  function Then(first: Stage, second: Stage): Stage {
    if first.failure.Some? then first else Stage(first.events + second.events, second.asked, second.failure)
  }

  function Retire(script: Script, timeout: int, previous: Discovery): Stage {
    var stopped := Stop(script, previous, 1);
    var polled := Poll(script, previous, script.start + timeout, 0, stopped.asked);
    var confirmed := Confirm(script, previous, polled.asked);
    Then(Then(stopped, polled), confirmed)
  }

  // ---- The whole restart ----

  datatype Hosts = Hosts(
    events: seq<Event>, closed: Option<seq<string>>, error: Option<string>, unclosed: Option<seq<Unclosed>>)

  function CloseHosts(script: Script, wanted: bool): Hosts {
    if !wanted then Hosts([], None, None, None)
    else
      match script.list
      case Err(e) => Hosts([List(script.list)], None, if e.reason == "" then None else Some(e.reason), None)
      case Ok(ids) =>
        var unclosed := NotClosed(ids, script.closes);
        Hosts([List(script.list)] + CloseEvents(ids, script.closes), Some(Closed(ids, script.closes)), None,
              if unclosed == [] then None else Some(unclosed))
  }

  datatype Run = Run(events: seq<Event>, result: Result<Restarted, Failure>)

  function Replace(script: Script, before: seq<Event>, previous: Option<Discovery>, hosts: Hosts): Run {
    var events := before + [Ensure(script.ensured)];
    match script.ensured
    case Err(e) => Run(events, Err(Rejected(e)))
    case Ok(replacement) =>
      if previous.Some? && Shows(Some(replacement), previous.value) then Run(events, Err(SameIdentity))
      else
        Run(events, Ok(Restarted(
              if previous.Some? then Some(previous.value.pid) else None,
              replacement.pid, hosts.closed, hosts.error, hosts.unclosed)))
  }

  function Restart(script: Script, timeout: Option<int>, closeHosts: bool): Run {
    var limit := if timeout.None? then DEFAULT_TIMEOUT else timeout.value;
    if limit <= 0 || limit > MAX_SAFE_INTEGER then Run([], Err(InvalidTimeout))
    else
      var first := script.discoveries(0);
      match first
      case Err(e) => Run([Read(first)], Err(Rejected(e)))
      case Ok(None) => Replace(script, [Read(first)], None, Hosts([], None, None, None))
      case Ok(Some(previous)) =>
        var hosts := CloseHosts(script, closeHosts);
        var retired := Retire(script, limit, previous);
        var before := [Read(first)] + hosts.events + retired.events;
        if retired.failure.Some? then Run(before, Err(retired.failure.value))
        else Replace(script, before, Some(previous), hosts)
  }

  // ---- The restart as the source runs it ----

  /** The dependencies: every call takes the next scripted answer and is recorded. */
  class Dependencies {
    const script: Script
    var log: seq<Event>
    var asked: nat
    var closes: nat

    constructor (script: Script)
      ensures this.script == script && log == [] && asked == 0 && closes == 0
    {
      this.script := script;
      log, asked, closes := [], 0, 0;
    }

    method ReadDiscovery() returns (answer: Result<Option<Discovery>, Error>)
      modifies this
      ensures answer == script.discoveries(old(asked)) && asked == old(asked) + 1 && closes == old(closes)
      ensures log == old(log) + [Read(answer)]
    {
      answer := script.discoveries(asked);
      asked, log := asked + 1, log + [Read(answer)];
    }

    method CloseSession(sessionId: string) returns (failure: Option<Error>)
      modifies this
      ensures failure == script.closes(old(closes)) && closes == old(closes) + 1 && asked == old(asked)
      ensures log == old(log) + [Close(sessionId, failure)]
    {
      failure := script.closes(closes);
      closes, log := closes + 1, log + [Close(sessionId, failure)];
    }

    method Record(event: Event)
      modifies this`log
      ensures log == old(log) + [event]
    {
      log := log + [event];
    }
  }

  /** closeSessionHosts: every listed host is attempted once, whatever the earlier ones answered. */
  method CloseSessionHosts(deps: Dependencies) returns (r: Result<(seq<string>, seq<Unclosed>), Error>)
    requires deps.closes == 0
    modifies deps
    ensures deps.asked == old(deps.asked)
    ensures r == match deps.script.list {
                   case Err(e) => Err(e)
                   case Ok(ids) => Ok((Closed(ids, deps.script.closes), NotClosed(ids, deps.script.closes)))
                 }
    ensures deps.log == old(deps.log) + CloseHosts(deps.script, true).events
  {
    var list := deps.script.list;
    deps.Record(List(list));
    if list.Err? {
      return Err(list.error);
    }
    var ids := list.value;
    ghost var log := deps.log;
    var closed: seq<string>, unclosed: seq<Unclosed> := [], [];
    for i := 0 to |ids|
      invariant deps.closes == i && deps.asked == old(deps.asked)
      invariant closed == Closed(ids[..i], deps.script.closes) && unclosed == NotClosed(ids[..i], deps.script.closes)
      invariant deps.log == log + CloseEvents(ids[..i], deps.script.closes)
    {
      assert ids[..i + 1][..i] == ids[..i];
      var failure := deps.CloseSession(ids[i]);
      match failure
      case None => closed := closed + [ids[i]];
      case Some(error) => unclosed := unclosed + [Unclosed(ids[i], error.reason)];
      assert CloseEvents(ids[..i + 1], deps.script.closes)
          == CloseEvents(ids[..i], deps.script.closes) + [Close(ids[i], failure)];
    }
    assert ids[..|ids|] == ids;
    r := Ok((closed, unclosed));
  }

  /** stopPreviousBroker. */
  method StopPreviousBroker(deps: Dependencies, previous: Discovery) returns (failure: Option<Failure>)
    modifies deps
    ensures var stage := Stop(deps.script, previous, old(deps.asked));
            failure == stage.failure && deps.asked == stage.asked && deps.log == old(deps.log) + stage.events
  {
    deps.Record(Shutdown(deps.script.shutdown));
    if deps.script.shutdown.None? {
      return None;
    }
    var error := deps.script.shutdown.value;
    if error.unknownOperation {
      deps.Record(Signal(deps.script.signal));
      return if deps.script.signal.Some? then Some(Rejected(deps.script.signal.value)) else None;
    }
    var answer := deps.ReadDiscovery();
    if answer.Err? {
      return Some(Rejected(answer.error));
    }
    failure := if Shows(answer.value, previous) then Some(Rejected(error)) else None;
  }

  lemma PollContinues(script: Script, previous: Discovery, deadline: int, tick: nat, asked: nat)
    requires tick < |script.clock| && script.clock[tick] < deadline
    requires script.discoveries(asked).Ok? && Shows(script.discoveries(asked).value, previous)
    ensures var next := Poll(script, previous, deadline, tick + 1, asked + 1);
            Poll(script, previous, deadline, tick, asked)
            == Stage([Read(script.discoveries(asked)), Sleep] + next.events, next.asked, next.failure)
  {
  }

  lemma PollEnds(script: Script, previous: Discovery, deadline: int, tick: nat, asked: nat)
    ensures tick >= |script.clock| || script.clock[tick] >= deadline ==>
              Poll(script, previous, deadline, tick, asked) == Stage([], asked, None)
    ensures tick < |script.clock| && script.clock[tick] < deadline ==>
              var answer := script.discoveries(asked);
              && (answer.Err? ==> Poll(script, previous, deadline, tick, asked)
                                  == Stage([Read(answer)], asked + 1, Some(Rejected(answer.error))))
              && (answer.Ok? && !Shows(answer.value, previous) ==>
                    Poll(script, previous, deadline, tick, asked) == Stage([Read(answer)], asked + 1, None))
  {
  }

  /** The polling loop. */
  method WaitForRetirement(deps: Dependencies, previous: Discovery, deadline: int) returns (failure: Option<Failure>)
    modifies deps
    ensures var stage := Poll(deps.script, previous, deadline, 0, old(deps.asked));
            failure == stage.failure && deps.asked == stage.asked && deps.log == old(deps.log) + stage.events
  {
    hide Poll, Shows;
    var clock := deps.script.clock;
    ghost var whole := Poll(deps.script, previous, deadline, 0, deps.asked);
    ghost var done: seq<Event> := [];
    var tick := 0;
    while tick < |clock| && clock[tick] < deadline
      invariant tick <= |clock| && deps.log == old(deps.log) + done
      invariant var rest := Poll(deps.script, previous, deadline, tick, deps.asked);
                whole == Stage(done + rest.events, rest.asked, rest.failure)
    {
      ghost var rest := Poll(deps.script, previous, deadline, tick, deps.asked);
      PollEnds(deps.script, previous, deadline, tick, deps.asked);
      ghost var asked := deps.asked;
      var answer := deps.ReadDiscovery();
      if answer.Err? {
        return Some(Rejected(answer.error));
      }
      if !Shows(answer.value, previous) {
        return None;
      }
      deps.Record(Sleep);
      PollContinues(deps.script, previous, deadline, tick, asked);
      tick := tick + 1;
      ghost var next := Poll(deps.script, previous, deadline, tick, deps.asked);
      assert done + rest.events == (done + [Read(answer), Sleep]) + next.events;
      done := done + [Read(answer), Sleep];
    }
    PollEnds(deps.script, previous, deadline, tick, deps.asked);
    failure := None;
  }

  /** restartSdkBroker. */
  method RestartSdkBroker(deps: Dependencies, timeout: Option<int>, closeHosts: bool) returns (r: Result<Restarted, Failure>)
    requires deps.log == [] && deps.asked == 0 && deps.closes == 0
    modifies deps
    ensures Run(deps.log, r) == Restart(deps.script, timeout, closeHosts)
  {
    hide Poll, Stop, CloseEvents, Closed, NotClosed;
    var limit := if timeout.None? then DEFAULT_TIMEOUT else timeout.value;
    if limit <= 0 || limit > MAX_SAFE_INTEGER {
      return Err(InvalidTimeout);
    }
    var first := deps.ReadDiscovery();
    if first.Err? {
      return Err(Rejected(first.error));
    }
    var closed: Option<seq<string>>, discoveryError: Option<string>, unclosed: Option<seq<Unclosed>> := None, None, None;
    if first.value.Some? {
      var previous := first.value.value;
      if closeHosts {
        var outcome := CloseSessionHosts(deps);
        if outcome.Ok? {
          closed := Some(outcome.value.0);
          if outcome.value.1 != [] {
            unclosed := Some(outcome.value.1);
          }
        } else if outcome.error.reason != "" {
          discoveryError := Some(outcome.error.reason);
        }
      }
      ghost var hosts := CloseHosts(deps.script, closeHosts);
      assert deps.log == [Read(first)] + hosts.events;
      assert closed == hosts.closed && discoveryError == hosts.error && unclosed == hosts.unclosed;
      var failure := RetirePrevious(deps, limit, previous);
      if failure.Some? {
        return Err(failure.value);
      }
    }
    deps.Record(Ensure(deps.script.ensured));
    if deps.script.ensured.Err? {
      return Err(Rejected(deps.script.ensured.error));
    }
    var replacement := deps.script.ensured.value;
    if first.value.Some? && Shows(Some(replacement), first.value.value) {
      return Err(SameIdentity);
    }
    r := Ok(Restarted(
              if first.value.Some? then Some(first.value.value.pid) else None,
              replacement.pid, closed, discoveryError, unclosed));
  }

  method RetirePrevious(deps: Dependencies, limit: int, previous: Discovery) returns (failure: Option<Failure>)
    requires deps.asked == 1
    modifies deps
    ensures var stage := Retire(deps.script, limit, previous);
            failure == stage.failure && deps.log == old(deps.log) + stage.events
  {
    hide Poll, Stop;
    failure := StopPreviousBroker(deps, previous);
    if failure.Some? {
      return;
    }
    failure := WaitForRetirement(deps, previous, deps.script.start + limit);
    if failure.Some? {
      return;
    }
    var current := deps.ReadDiscovery();
    if current.Err? {
      return Some(Rejected(current.error));
    }
    failure := if Shows(current.value, previous) then Some(StillPublished) else None;
  }

  // ---- What holds of every restart ----

  predicate IsGone(event: Event, previous: Discovery) {
    event.Read? && event.answer.Ok? && !Shows(event.answer.value, previous)
  }

  lemma RetiredEndsGone(script: Script, timeout: int, previous: Discovery)
    requires Retire(script, timeout, previous).failure.None?
    ensures var events := Retire(script, timeout, previous).events;
            events != [] && IsGone(events[|events| - 1], previous)
  {
    hide Poll, Stop;
  }

  predicate Before(run: Run, k: nat, previous: Discovery) {
    0 < k < |run.events| && IsGone(run.events[k - 1], previous)
  }

  predicate IsEnsure(event: Event) {
    event.Ensure?
  }

  lemma {:induction false} PollNeverEnsures(script: Script, previous: Discovery, deadline: int, tick: nat, asked: nat)
    ensures forall e :: e in Poll(script, previous, deadline, tick, asked).events ==> !IsEnsure(e)
    decreases |script.clock| - tick
  {
    if tick < |script.clock| && script.clock[tick] < deadline {
      PollNeverEnsures(script, previous, deadline, tick + 1, asked + 1);
    }
  }

  lemma RetireNeverEnsures(script: Script, timeout: int, previous: Discovery)
    ensures forall e :: e in Retire(script, timeout, previous).events ==> !IsEnsure(e)
  {
    hide Poll;
    var stopped := Stop(script, previous, 1);
    PollNeverEnsures(script, previous, script.start + timeout, 0, stopped.asked);
  }

  lemma HostsNeverEnsure(script: Script, wanted: bool)
    ensures forall e :: e in CloseHosts(script, wanted).events ==> !IsEnsure(e)
  {
  }

  /**
   * A replacement is asked for at most once, last of all, and where a previous broker was published
   * only right after a discovery read that no longer shows its identity.
   */
  lemma ReplacementFollowsRetirement(script: Script, timeout: Option<int>, closeHosts: bool, k: nat)
    requires k < |Restart(script, timeout, closeHosts).events| && IsEnsure(Restart(script, timeout, closeHosts).events[k])
    ensures k == |Restart(script, timeout, closeHosts).events| - 1
    ensures script.discoveries(0).Ok?
    ensures script.discoveries(0).value.Some? ==>
              Before(Restart(script, timeout, closeHosts), k, script.discoveries(0).value.value)
  {
    hide Poll, Stop, CloseHosts, Retire, IsGone;
    var limit := if timeout.None? then DEFAULT_TIMEOUT else timeout.value;
    var run, first := Restart(script, timeout, closeHosts), script.discoveries(0);
    if first.Ok? && first.value.Some? {
      var previous := first.value.value;
      var hosts, retired := CloseHosts(script, closeHosts), Retire(script, limit, previous);
      var before := [Read(first)] + hosts.events + retired.events;
      HostsNeverEnsure(script, closeHosts);
      RetireNeverEnsures(script, limit, previous);
      forall i | 0 <= i < |before| ensures !IsEnsure(before[i]) {
        if 1 <= i < 1 + |hosts.events| {
          assert before[i] in hosts.events;
        } else if i >= 1 + |hosts.events| {
          assert before[i] in retired.events;
        }
      }
      if retired.failure.None? {
        RetiredEndsGone(script, limit, previous);
        assert before[|before| - 1] == retired.events[|retired.events| - 1];
      }
    }
  }

  /** A restart that succeeds never carries the identity it replaced. */
  lemma SuccessIsANewIdentity(script: Script, timeout: Option<int>, closeHosts: bool)
    requires Restart(script, timeout, closeHosts).result.Ok?
    ensures script.ensured.Ok? && script.discoveries(0).Ok?
    ensures Restart(script, timeout, closeHosts).result.value.pid == script.ensured.value.pid
    ensures script.discoveries(0).value.Some? ==>
              !Shows(Some(script.ensured.value), script.discoveries(0).value.value)
              && Restart(script, timeout, closeHosts).result.value.previousPid == Some(script.discoveries(0).value.value.pid)
  {
    hide Poll, Stop, CloseHosts, Retire;
  }

  /** A restart that closed hosts reports every listed one: closed ones as closed, and the others with their reasons. */
  lemma SuccessReportsHosts(script: Script, timeout: Option<int>, ids: seq<string>)
    requires Restart(script, timeout, true).result.Ok? && script.list == Ok(ids)
    requires script.discoveries(0).Ok? && script.discoveries(0).value.Some?
    ensures var r := Restart(script, timeout, true).result.value;
            && r.sessionHostDiscoveryError == None && r.closedSessionIds.Some?
            && (r.unclosedSessionHosts.None? <==> forall i :: 0 <= i < |ids| ==> script.closes(i).None?)
            && multiset(r.closedSessionIds.value)
               + multiset(if r.unclosedSessionHosts.Some? then Ids(r.unclosedSessionHosts.value) else [])
               == multiset(ids)
  {
    hide Poll, Stop, Retire, Closed, CloseEvents;
    HostsAreConserved(ids, script.closes);
    NothingUnclosed(ids, script.closes);
    NoIds();
  }

  lemma {:induction false} NothingUnclosed(ids: seq<string>, closes: nat -> Option<Error>)
    ensures NotClosed(ids, closes) == [] <==> forall i :: 0 <= i < |ids| ==> closes(i).None?
  {
    if ids != [] {
      NothingUnclosed(ids[..|ids| - 1], closes);
    }
  }

  // ---- Close calls of a run ----

  function CloseCalls(events: seq<Event>): seq<Event> {
    if events == [] then []
    else CloseCalls(events[..|events| - 1]) + if events[|events| - 1].Close? then [events[|events| - 1]] else []
  }

  lemma {:induction false} CloseCallsConcat(a: seq<Event>, b: seq<Event>)
    ensures CloseCalls(a + b) == CloseCalls(a) + CloseCalls(b)
  {
    if b == [] {
      assert a + b == a;
    } else {
      assert (a + b)[..|a + b| - 1] == a + b[..|b| - 1];
      CloseCallsConcat(a, b[..|b| - 1]);
    }
  }

  lemma {:induction false} AllClose(events: seq<Event>)
    requires forall i :: 0 <= i < |events| ==> events[i].Close?
    ensures CloseCalls(events) == events
  {
    if events != [] {
      AllClose(events[..|events| - 1]);
    }
  }

  lemma {:induction false} NoneClose(events: seq<Event>)
    requires forall i :: 0 <= i < |events| ==> !events[i].Close?
    ensures CloseCalls(events) == []
  {
    if events != [] {
      NoneClose(events[..|events| - 1]);
    }
  }

  lemma {:induction false} PollNeverCloses(script: Script, previous: Discovery, deadline: int, tick: nat, asked: nat)
    ensures forall i :: 0 <= i < |Poll(script, previous, deadline, tick, asked).events| ==>
              var e := Poll(script, previous, deadline, tick, asked).events[i];
              !e.Close? && !e.Shutdown?
    decreases |script.clock| - tick
  {
    if tick < |script.clock| && script.clock[tick] < deadline {
      PollNeverCloses(script, previous, deadline, tick + 1, asked + 1);
    }
  }

  /** Retiring begins with the shutdown request, makes no other one and closes no host. */
  lemma RetireBeginsWithShutdown(script: Script, timeout: int, previous: Discovery)
    ensures var events := Retire(script, timeout, previous).events;
            && events != [] && events[0] == Shutdown(script.shutdown)
            && forall i :: 0 <= i < |events| ==> !events[i].Close? && (events[i].Shutdown? ==> i == 0)
  {
    hide Poll;
    var stopped := Stop(script, previous, 1);
    PollNeverCloses(script, previous, script.start + timeout, 0, stopped.asked);
  }

  function HostsListed(script: Script, closeHosts: bool): seq<string> {
    if closeHosts && script.discoveries(0).Ok? && script.discoveries(0).value.Some? && script.list.Ok? then script.list.value else []
  }

  /** In every run with a valid timeout the close calls are one for every listed host, in listing order. */
  lemma EachHostIsAttemptedOnce(script: Script, timeout: Option<int>, closeHosts: bool)
    requires Restart(script, timeout, closeHosts).events != []
    ensures CloseCalls(Restart(script, timeout, closeHosts).events)
         == CloseEvents(HostsListed(script, closeHosts), script.closes)
  {
    hide Poll, Stop, Retire, CloseCalls, Closed, NotClosed;
    var limit := if timeout.None? then DEFAULT_TIMEOUT else timeout.value;
    var run, first := Restart(script, timeout, closeHosts), script.discoveries(0);
    var tail := [Ensure(script.ensured)];
    NoneClose([Read(first)]);
    NoneClose(tail);
    if first.Ok? && first.value.Some? {
      var hosts, retired := CloseHosts(script, closeHosts), Retire(script, limit, first.value.value);
      var before := [Read(first)] + hosts.events;
      RetireBeginsWithShutdown(script, limit, first.value.value);
      NoneClose(retired.events);
      HostCloseCalls(script, closeHosts);
      CloseCallsConcat([Read(first)], hosts.events);
      CloseCallsConcat(before, retired.events);
      CloseCallsConcat(before + retired.events, tail);
    } else {
      CloseCallsConcat([Read(first)], tail);
    }
  }

  lemma HostCloseCalls(script: Script, wanted: bool)
    ensures CloseCalls(CloseHosts(script, wanted).events)
         == if wanted && script.list.Ok? then CloseEvents(script.list.value, script.closes) else []
  {
    hide CloseCalls, Closed, NotClosed;
    NoneClose([]);
    NoneClose([List(script.list)]);
    if wanted && script.list.Ok? {
      var calls := CloseEvents(script.list.value, script.closes);
      AllClose(calls);
      CloseCallsConcat([List(script.list)], calls);
    }
  }

  /**
   * A successful restart that closed hosts reports its own close calls: the closed hosts are the
   * calls that succeeded and the unclosed ones the calls that failed, each in calling order.
   */
  lemma ReportFollowsCalls(script: Script, timeout: Option<int>) returns (f: seq<nat>, g: seq<nat>)
    requires Restart(script, timeout, true).result.Ok? && script.list.Ok?
    requires script.discoveries(0).Ok? && script.discoveries(0).value.Some?
    ensures var calls, r := CloseCalls(Restart(script, timeout, true).events), Restart(script, timeout, true).result.value;
            var unclosed := if r.unclosedSessionHosts.Some? then r.unclosedSessionHosts.value else [];
            && r.closedSessionIds.Some? && |r.closedSessionIds.value| == |f| && |unclosed| == |g|
            && Increasing(f) && Increasing(g)
            && (forall k :: 0 <= k < |f| ==> f[k] < |calls| && calls[f[k]] == Close(r.closedSessionIds.value[k], None))
            && (forall k :: 0 <= k < |g| ==>
                  g[k] < |calls| && calls[g[k]].Close? && calls[g[k]].failure.Some?
                  && unclosed[k] == Unclosed(calls[g[k]].sessionId, calls[g[k]].failure.value.reason))
            && forall i :: 0 <= i < |calls| ==> (i in f <==> i !in g)
  {
    hide Poll, Stop, Retire, CloseCalls, Closed, NotClosed;
    f, g := HostsAreSplit(script.list.value, script.closes);
    EachHostIsAttemptedOnce(script, timeout, true);
  }

  // ---- A shutdown that fails ----

  lemma FailedStop(script: Script, timeout: int, previous: Discovery, error: Error)
    requires script.shutdown == Some(error) && !error.unknownOperation
    ensures var retired := Retire(script, timeout, previous);
            && |retired.events| >= 2 && retired.events[1] == Read(script.discoveries(1))
            && (!IsGone(retired.events[1], previous) ==> |retired.events| == 2 && retired.failure.Some?)
            && (retired.events[1].answer.Ok? && !IsGone(retired.events[1], previous) ==> retired.failure == Some(Rejected(error)))
  {
    hide Poll;
  }

  lemma ShutdownPlace(script: Script, timeout: Option<int>, closeHosts: bool, k: nat)
    requires k < |Restart(script, timeout, closeHosts).events| && Restart(script, timeout, closeHosts).events[k].Shutdown?
    ensures script.discoveries(0).Ok? && script.discoveries(0).value.Some?
    ensures k == 1 + |CloseHosts(script, closeHosts).events|
  {
    hide Poll, Stop, Retire, Closed, NotClosed;
    var limit := if timeout.None? then DEFAULT_TIMEOUT else timeout.value;
    var first := script.discoveries(0);
    if first.Ok? && first.value.Some? {
      RetireBeginsWithShutdown(script, limit, first.value.value);
    }
  }

  /**
   * In every run a shutdown that failed for any reason but an unknown operation is followed by a
   * discovery read. Unless that read shows the identity gone, it is the last call; and if it still
   * shows the identity, the failure thrown is the shutdown's own.
   */
  lemma FailureIsForgivenOnlyIfGone(script: Script, timeout: Option<int>, closeHosts: bool, k: nat, error: Error)
    requires k < |Restart(script, timeout, closeHosts).events|
    requires Restart(script, timeout, closeHosts).events[k] == Shutdown(Some(error)) && !error.unknownOperation
    ensures script.discoveries(0).Ok? && script.discoveries(0).value.Some?
    ensures var run, previous := Restart(script, timeout, closeHosts), script.discoveries(0).value.value;
            && k + 1 < |run.events| && run.events[k + 1].Read?
            && (k + 2 < |run.events| ==> IsGone(run.events[k + 1], previous))
            && (!IsGone(run.events[k + 1], previous) ==> run.result.Err?)
            && (run.events[k + 1].answer.Ok? && Shows(run.events[k + 1].answer.value, previous) ==>
                  run.result == Err(Rejected(error)))
  {
    hide Poll, Stop, Retire, Closed, NotClosed, CloseHosts;
    ShutdownPlace(script, timeout, closeHosts, k);
    var limit := if timeout.None? then DEFAULT_TIMEOUT else timeout.value;
    var previous := script.discoveries(0).value.value;
    RetireBeginsWithShutdown(script, limit, previous);
    FailedStop(script, limit, previous, error);
    var retired := Retire(script, limit, previous);
    assert Restart(script, timeout, closeHosts).events[k] == retired.events[0];
    assert Restart(script, timeout, closeHosts).events[k + 1] == retired.events[1];
  }

  predicate AllSleepOnShown(events: seq<Event>, previous: Discovery) {
    forall i :: 0 <= i < |events| && events[i] == Sleep ==>
      i > 0 && events[i - 1].Read? && events[i - 1].answer.Ok? && Shows(events[i - 1].answer.value, previous)
  }

  /** Polling waits only while the old identity is still shown. */
  lemma {:induction false} PollWaitsWhileShown(script: Script, previous: Discovery, deadline: int, tick: nat, asked: nat)
    ensures AllSleepOnShown(Poll(script, previous, deadline, tick, asked).events, previous)
    decreases |script.clock| - tick
  {
    if tick < |script.clock| && script.clock[tick] < deadline {
      PollWaitsWhileShown(script, previous, deadline, tick + 1, asked + 1);
      var rest := Poll(script, previous, deadline, tick + 1, asked + 1);
      var events := Poll(script, previous, deadline, tick, asked).events;
      forall i | 0 <= i < |events| && events[i] == Sleep
        ensures i > 0 && events[i - 1].Read? && events[i - 1].answer.Ok? && Shows(events[i - 1].answer.value, previous)
      {
        if i >= 2 {
          assert events[i] == rest.events[i - 2];
          assert i > 2 ==> events[i - 1] == rest.events[i - 3];
        }
      }
    }
  }
}

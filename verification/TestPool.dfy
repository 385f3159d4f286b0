/**
 * Sharding and the worker pool of scripts/run-bun-test-files.ts: workers take turns in any order,
 * share a counter of claimed files and write into one table of outcomes.
 */
module TestPool {
  import opened Lists

  // ---- Shards ----

  /** The files whose index leaves `index - 1` when divided by `total`. */
  function SelectShard<T>(files: seq<T>, index: nat, total: nat): seq<T>
    requires 1 <= index <= total
  {
    if files == [] then []
    else
      var n := |files| - 1;
      SelectShard(files[..n], index, total) + if n % total == index - 1 then [files[n]] else []
  }

  lemma TimesMonotone(a: int, b: int, t: nat)
    requires a <= b
    ensures a * t <= b * t
  {
    assert b * t - a * t == (b - a) * t;
  }

  lemma TimesCancels(a: int, b: int, t: nat)
    ensures a * t < b * t ==> a < b
  {
    if a >= b {
      TimesMonotone(b, a, t);
    }
  }

  lemma Expanded(q: int, t: nat)
    ensures (q + 1) * t == q * t + t
  {
  }

  /** Division has one answer. */
  lemma Quotient(x: nat, t: nat, q: int, r: nat)
    requires r < t && x == q * t + r
    ensures x / t == q && x % t == r
  {
    var p := x / t;
    assert x == p * t + x % t;
    Expanded(p, t);
    Expanded(q, t);
    TimesCancels(p, q + 1, t);
    TimesCancels(q, p + 1, t);
  }

  /** The index of a shard's `k`-th file. */
  function Place(k: int, index: nat, total: nat): int {
    k * total + index - 1
  }

  /** `size` files of the first `n` belong to the shard. */
  predicate Fits(size: nat, n: nat, index: nat, total: nat) {
    Place(size - 1, index, total) < n <= Place(size, index, total)
  }

  lemma FitsNone(index: nat, total: nat)
    requires 1 <= index <= total
    ensures Fits(0, 0, index, total)
  {
    assert Place(-1, index, total) == index - 1 - total;
  }

  lemma FitsStep(size: nat, n: nat, index: nat, total: nat)
    requires 1 <= index <= total && Fits(size, n, index, total)
    ensures n % total == index - 1 ==> n == Place(size, index, total) && Fits(size + 1, n + 1, index, total)
    ensures n % total != index - 1 ==> Fits(size, n + 1, index, total)
  {
    if n % total == index - 1 {
      var q := n / total;
      assert n == q * total + (index - 1);
      TimesCancels(size - 1, q, total);
      Expanded(size, total);
      TimesCancels(q, size + 1, total);
      assert size == q;
    } else if n == Place(size, index, total) {
      Quotient(n, total, size, index - 1);
      assert false;
    }
  }

  /** A shard is every `total`-th file from its own first one, in order, and nothing else. */
  lemma {:induction false} ShardIs<T>(files: seq<T>, index: nat, total: nat)
    requires 1 <= index <= total
    ensures Fits(|SelectShard(files, index, total)|, |files|, index, total)
    ensures forall k :: 0 <= k < |SelectShard(files, index, total)| ==>
              0 <= Place(k, index, total) < |files| && SelectShard(files, index, total)[k] == files[Place(k, index, total)]
  {
    hide Place;
    if files == [] {
      FitsNone(index, total);
    } else {
      var n := |files| - 1;
      var before, after := SelectShard(files[..n], index, total), SelectShard(files, index, total);
      ShardIs(files[..n], index, total);
      FitsStep(|before|, n, index, total);
      forall k | 0 <= k < |after|
        ensures 0 <= Place(k, index, total) < |files| && after[k] == files[Place(k, index, total)]
      {
        if k < |before| {
          assert after[k] == before[k];
        }
      }
    }
  }

  /** Every file is in the shard its index names, at the place its index names. */
  lemma ShardsCover<T>(files: seq<T>, total: nat, j: nat)
    requires total > 0 && j < |files|
    ensures var index := j % total + 1;
            j / total < |SelectShard(files, index, total)| && SelectShard(files, index, total)[j / total] == files[j]
  {
    hide SelectShard;
    var q, r := j / total, j % total;
    assert j == q * total + r;
    var shard := SelectShard(files, r + 1, total);
    ShardIs(files, r + 1, total);
    TimesCancels(q, |shard|, total);
    assert Place(q, r + 1, total) == j;
  }

  /** And nowhere else: a place in a shard determines the file, and a file its only place. */
  lemma ShardsAreDisjoint(total: nat, j: nat, index: nat, k: nat)
    requires 1 <= index <= total && Place(k, index, total) == j
    ensures index == j % total + 1 && k == j / total
  {
    Quotient(j, total, k, index - 1);
  }

  /** No shard gets more than one file more than another. */
  lemma ShardsAreEven<T>(files: seq<T>, a: nat, b: nat, total: nat)
    requires 1 <= a <= total && 1 <= b <= total
    ensures |SelectShard(files, a, total)| <= |SelectShard(files, b, total)| + 1
  {
    hide SelectShard;
    ShardIs(files, a, total);
    ShardIs(files, b, total);
    var x, y := |SelectShard(files, a, total)|, |SelectShard(files, b, total)|;
    Expanded(y, total);
    TimesCancels(x - 1, y + 1, total);
  }

  // ---- The pool ----

  /** What one child process reported; a runner that threw counts as exit code 1. */
  datatype Outcome = Outcome(exitCode: int, timedOut: bool, signalled: bool)

  predicate Clean(outcome: Outcome) {
    outcome.exitCode == 0 && !outcome.timedOut && !outcome.signalled
  }

  /** Between files, on a file, finished, or rejected because its sandbox could not be set up or removed. */
  datatype Worker = Ready | Running(index: nat) | Done | Rejected

  /** `claims` records, in order, which file every claim took. */
  datatype State = State(claimed: nat, workers: seq<Worker>, outcomes: seq<Option<Outcome>>, claims: seq<nat>)

  /** One worker moves: it claims the next index, its process ends, or it is rejected. */
  datatype Event = Claim(worker: nat) | Finish(worker: nat, outcome: Outcome) | Reject(worker: nat)

  function Start(files: nat, concurrency: nat): State {
    State(0, seq(if concurrency < files then concurrency else files, _ => Ready), seq(files, _ => None), [])
  }

  predicate Enabled(s: State, e: Event) {
    && e.worker < |s.workers|
    && match e
       case Claim(w) => s.workers[w] == Ready
       case Finish(w, _) => s.workers[w].Running? && s.workers[w].index < |s.outcomes|
       case Reject(w) => s.workers[w].Running?
  }

  function Step(s: State, e: Event): State
    requires Enabled(s, e)
  {
    match e
    case Claim(w) =>
      var index := s.claimed;
      if index < |s.outcomes| then
        State(index + 1, s.workers[w := Running(index)], s.outcomes, s.claims + [index])
      else s.(claimed := index + 1, workers := s.workers[w := Done])
    case Finish(w, outcome) =>
      s.(workers := s.workers[w := Ready], outcomes := s.outcomes[s.workers[w].index := Some(outcome)])
    case Reject(w) => s.(workers := s.workers[w := Rejected])
  }

  /** A run is any sequence of enabled events: every interleaving of the workers. */
  predicate IsRun(s: State, events: seq<Event>)
    decreases |events|
  {
    events == [] || (Enabled(s, events[0]) && IsRun(Step(s, events[0]), events[1..]))
  }

  function End(s: State, events: seq<Event>): State
    requires IsRun(s, events)
    decreases |events|
  {
    if events == [] then s else End(Step(s, events[0]), events[1..])
  }

  /** All workers returned: the harness goes on to count failures. */
  predicate Finished(s: State) {
    forall w :: 0 <= w < |s.workers| ==> s.workers[w] == Done
  }

  /** A file without an outcome is not counted as a failure. */
  predicate Failed(s: State, i: nat)
    requires i < |s.outcomes|
  {
    s.outcomes[i].Some? && !Clean(s.outcomes[i].value)
  }

  function ExitCode(s: State): int {
    if exists i :: 0 <= i < |s.outcomes| && Failed(s, i) then 1 else 0
  }

  // ---- What every interleaving keeps ----

  /** How many files have been handed out. */
  function Handed(s: State): nat {
    if s.claimed < |s.outcomes| then s.claimed else |s.outcomes|
  }

  predicate OnlyRunner(s: State) {
    forall v, w :: 0 <= v < w < |s.workers| && s.workers[v].Running? && s.workers[w].Running? ==>
      s.workers[v].index != s.workers[w].index
  }

  predicate Invariant(s: State) {
    && s.claims == seq(Handed(s), i => i)
    && OnlyRunner(s)
    && (forall w :: 0 <= w < |s.workers| && s.workers[w].Running? ==>
          s.workers[w].index < Handed(s) && s.outcomes[s.workers[w].index] == None)
    && (forall i :: Handed(s) <= i < |s.outcomes| ==> s.outcomes[i] == None)
    && ((exists w :: 0 <= w < |s.workers| && s.workers[w] == Done) ==> s.claimed >= |s.outcomes|)
  }

  /** A handed-out file has its outcome, is being run, or was lost to a rejection. */
  predicate Accounted(s: State) {
    (forall w :: 0 <= w < |s.workers| ==> s.workers[w] != Rejected) ==>
      forall i :: 0 <= i < Handed(s) ==> s.outcomes[i].Some? || Running(i) in s.workers
  }

  lemma StartIsInvariant(files: nat, concurrency: nat)
    ensures Invariant(Start(files, concurrency)) && Accounted(Start(files, concurrency))
  {
  }

  lemma StepKeepsInvariant(s: State, e: Event)
    requires Invariant(s) && Enabled(s, e)
    ensures Invariant(Step(s, e))
  {
    var t, w := Step(s, e), e.worker;
    match e
    case Claim(_) =>
      if s.claimed < |s.outcomes| {
        assert t.claims == seq(Handed(t), i => i);
        assert t.workers[w] == Running(s.claimed);
      }
      forall v | 0 <= v < |t.workers| && v != w ensures t.workers[v] == s.workers[v] {}
    case Finish(_, _) =>
      forall v | 0 <= v < |t.workers| && v != w ensures t.workers[v] == s.workers[v] {}
    case Reject(_) =>
      forall v | 0 <= v < |t.workers| && v != w ensures t.workers[v] == s.workers[v] {}
  }

  lemma StepKeepsAccount(s: State, e: Event)
    requires Invariant(s) && Accounted(s) && Enabled(s, e)
    ensures Accounted(Step(s, e))
  {
    var t, w := Step(s, e), e.worker;
    assert e.Reject? ==> t.workers[w] == Rejected;
    assert e.Claim? ==> s.workers[w] == Ready;
    assert e.Finish? ==> t.outcomes[s.workers[w].index].Some?;
    if forall v :: 0 <= v < |t.workers| ==> t.workers[v] != Rejected {
      forall v | 0 <= v < |s.workers| ensures s.workers[v] != Rejected {
        assert v != w ==> t.workers[v] == s.workers[v];
      }
      forall i | 0 <= i < Handed(t) ensures t.outcomes[i].Some? || Running(i) in t.workers {
        if i >= Handed(s) {
          assert t.workers[w] == Running(i);
        } else if s.outcomes[i].None? {
          assert Running(i) in s.workers;
          var v :| 0 <= v < |s.workers| && s.workers[v] == Running(i);
          if v != w {
            assert t.workers[v] == Running(i);
          }
        } else {
          assert t.outcomes[i].Some?;
        }
      }
    }
  }

  lemma {:induction false} RunKeepsInvariant(s: State, events: seq<Event>)
    requires Invariant(s) && Accounted(s) && IsRun(s, events)
    ensures Invariant(End(s, events)) && Accounted(End(s, events))
    ensures |End(s, events).workers| == |s.workers| && |End(s, events).outcomes| == |s.outcomes|
    decreases |events|
  {
    hide Invariant, Accounted;
    if events != [] {
      StepKeepsInvariant(s, events[0]);
      StepKeepsAccount(s, events[0]);
      RunKeepsInvariant(Step(s, events[0]), events[1..]);
    }
  }

  /** At every moment of every interleaving, no file has been run twice and no two workers share one. */
  lemma NoFileRunsTwice(files: nat, concurrency: nat, events: seq<Event>)
    requires IsRun(Start(files, concurrency), events)
    ensures var s := End(Start(files, concurrency), events);
            && s.claims == seq(|s.claims|, i => i) && |s.claims| <= files
            && OnlyRunner(s) && |s.workers| <= concurrency
  {
    StartIsInvariant(files, concurrency);
    RunKeepsInvariant(Start(files, concurrency), events);
  }

  /** When all workers have returned, every file was run, each of them once, and has its outcome. */
  lemma FinishedRanEverything(files: nat, concurrency: nat, events: seq<Event>)
    requires files > 0 && concurrency > 0
    requires IsRun(Start(files, concurrency), events) && Finished(End(Start(files, concurrency), events))
    ensures var s := End(Start(files, concurrency), events);
            && s.claims == seq(files, i => i) && |s.outcomes| == files
            && forall i :: 0 <= i < files ==> s.outcomes[i].Some?
  {
    StartIsInvariant(files, concurrency);
    RunKeepsInvariant(Start(files, concurrency), events);
    var s := End(Start(files, concurrency), events);
    assert s.workers[0] == Done;
    assert Handed(s) == files;
  }

  /** The harness returns 0 exactly when every file's process ended cleanly. */
  lemma ZeroMeansAllClean(files: nat, concurrency: nat, events: seq<Event>)
    requires files > 0 && concurrency > 0
    requires IsRun(Start(files, concurrency), events) && Finished(End(Start(files, concurrency), events))
    ensures var s := End(Start(files, concurrency), events);
            |s.outcomes| == files
            && (ExitCode(s) == 0 <==> forall i :: 0 <= i < files ==> s.outcomes[i].Some? && Clean(s.outcomes[i].value))
  {
    StartIsInvariant(files, concurrency);
    RunKeepsInvariant(Start(files, concurrency), events);
    FinishedRanEverything(files, concurrency, events);
    var s := End(Start(files, concurrency), events);
    assert forall i :: 0 <= i < files ==> (Failed(s, i) <==> !Clean(s.outcomes[i].value));
  }

  // ---- Every interleaving ends ----

  function Busy(workers: seq<Worker>): nat {
    if workers == [] then 0 else Busy(workers[..|workers| - 1]) + Weight(workers[|workers| - 1])
  }

  /** A worker that is ready can still move once without taking a file; one on a file once more. */
  function Weight(worker: Worker): nat {
    match worker
    case Ready => 1
    case Running(_) => 2
    case Done => 0
    case Rejected => 0
  }

  lemma {:induction false} BusyUpdate(workers: seq<Worker>, w: nat, worker: Worker)
    requires w < |workers|
    ensures Busy(workers[w := worker]) == Busy(workers) - Weight(workers[w]) + Weight(worker)
  {
    var n := |workers| - 1;
    var updated := workers[w := worker];
    if w == n {
      assert updated[..n] == workers[..n];
    } else {
      BusyUpdate(workers[..n], w, worker);
      assert updated[..n] == workers[..n][w := worker];
    }
  }

  /** What is left to do: two moves for every file not handed out, and the workers' own. */
  function Left(s: State): nat {
    2 * (|s.outcomes| - Handed(s)) + Busy(s.workers)
  }

  lemma StepsShrink(s: State, e: Event)
    requires Enabled(s, e)
    ensures Left(Step(s, e)) < Left(s)
  {
    match e
    case Claim(w) =>
      BusyUpdate(s.workers, w, if s.claimed < |s.outcomes| then Running(s.claimed) else Done);
    case Finish(w, _) => BusyUpdate(s.workers, w, Ready);
    case Reject(w) => BusyUpdate(s.workers, w, Rejected);
  }

  lemma {:induction false} RunIsBounded(s: State, events: seq<Event>)
    requires IsRun(s, events)
    ensures |events| + Left(End(s, events)) <= Left(s)
    decreases |events|
  {
    hide Left;
    if events != [] {
      StepsShrink(s, events[0]);
      RunIsBounded(Step(s, events[0]), events[1..]);
    }
  }

  lemma {:induction false} ReadyWeigh(n: nat)
    ensures Busy(seq(n, _ => Ready)) == n
  {
    var workers: seq<Worker> := seq(n, _ => Ready);
    if n > 0 {
      ReadyWeigh(n - 1);
      assert workers[..n - 1] == seq(n - 1, _ => Ready);
    }
  }

  /** No interleaving takes more than two moves for a file and one for a worker. */
  lemma EveryRunEnds(files: nat, concurrency: nat, events: seq<Event>)
    requires IsRun(Start(files, concurrency), events)
    ensures |events| <= 2 * files + concurrency
  {
    RunIsBounded(Start(files, concurrency), events);
    ReadyWeigh(|Start(files, concurrency).workers|);
  }

  /** An interleaving that cannot go on has every worker returned or rejected. */
  lemma StuckMeansOver(files: nat, concurrency: nat, events: seq<Event>)
    requires IsRun(Start(files, concurrency), events)
    requires forall e :: !Enabled(End(Start(files, concurrency), events), e)
    ensures var s := End(Start(files, concurrency), events);
            forall w :: 0 <= w < |s.workers| ==> s.workers[w] == Done || s.workers[w] == Rejected
  {
    StartIsInvariant(files, concurrency);
    RunKeepsInvariant(Start(files, concurrency), events);
    var s := End(Start(files, concurrency), events);
    forall w | 0 <= w < |s.workers| ensures s.workers[w] == Done || s.workers[w] == Rejected {
      assert !Enabled(s, Claim(w)) && !Enabled(s, Reject(w));
    }
  }
}

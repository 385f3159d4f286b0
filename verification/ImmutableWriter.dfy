/**
 * writeImmutableBytes of scripts/release-evidence.ts as interleaved file system steps.
 *
 * Any number of writers publish to one destination. Each creates its own temporary file,
 * fills it in pieces, claims the destination with a hard link, and on EEXIST reads the
 * destination in pieces and compares. Any step may fail and any writer may stop for good
 * between two steps. A run is a list of steps in any order.
 */
module ImmutableWriter {
  import opened Lists
  import opened Bytes

  type Name = string
  type Inode = nat
  type Id = nat

  /** Names are links to inodes; inodes hold the bytes. */
  datatype FileSystem = FileSystem(names: map<Name, Inode>, files: map<Inode, Bytes>)

  datatype Outcome = Returned | Conflict | Failed

  datatype Phase =
    | Start                              // before open(temporary, "wx")
    | Writing(fd: Inode, written: nat)   // the temporary file holds bytes[..written]
    | Closed(fd: Inode)                  // written and closed, before link
    | Exists                             // link reported EEXIST
    | Reading(target: Inode, got: Bytes) // reading the destination
    | CleanUp(outcome: Outcome)          // the finally block, temporary still owned
    | Done(outcome: Outcome)
    | Crashed

  datatype Writer = Writer(temporary: Name, bytes: Bytes, phase: Phase)

  datatype State = State(fs: FileSystem, writers: map<Id, Writer>)

  datatype Action =
    | Open(inode: Inode)     // exclusive creation, taking an unused inode
    | Write(count: nat)      // one write of `count` more bytes
    | Close
    | Link
    | OpenExisting
    | Read(count: nat)       // one read of `count` more bytes
    | Compare                // end of file reached
    | Remove
    | Fail                   // the pending call reports any other error
    | Crash

  function SetPhase(s: State, w: Id, phase: Phase): State
    requires w in s.writers
  {
    s.(writers := s.writers[w := s.writers[w].(phase := phase)])
  }

  /** One step of writer `w`, None when the writer is not at that point. */
  function Step(dest: Name, s: State, w: Id, a: Action): Option<State> {
    if w !in s.writers then None
    else
      var me, fs := s.writers[w], s.fs;
      match (a, me.phase)
      case (Crash, _) =>
        if me.phase.Done? then None else Some(SetPhase(s, w, Crashed))
      case (Open(inode), Start) =>
        if me.temporary in fs.names then Some(SetPhase(s, w, Done(Failed)))
        else if inode in fs.files then None
        else
          var fs' := FileSystem(fs.names[me.temporary := inode], fs.files[inode := []]);
          Some(SetPhase(s, w, Writing(inode, 0)).(fs := fs'))
      case (Write(count), Writing(fd, written)) =>
        if written + count > |me.bytes| || fd !in fs.files then None
        else
          var fs' := fs.(files := fs.files[fd := fs.files[fd] + me.bytes[written..written + count]]);
          Some(SetPhase(s, w, Writing(fd, written + count)).(fs := fs'))
      case (Close, Writing(fd, written)) =>
        if written == |me.bytes| then Some(SetPhase(s, w, Closed(fd))) else None
      case (Link, Closed(fd)) =>
        if dest in fs.names then Some(SetPhase(s, w, Exists))
        else
          var fs' := fs.(names := fs.names[dest := fd]);
          Some(SetPhase(s, w, CleanUp(Returned)).(fs := fs'))
      case (OpenExisting, Exists) =>
        if dest in fs.names then Some(SetPhase(s, w, Reading(fs.names[dest], [])))
        else Some(SetPhase(s, w, CleanUp(Failed)))
      case (Read(count), Reading(target, got)) =>
        if target !in fs.files || |got| + count > |fs.files[target]| then None
        else Some(SetPhase(s, w, Reading(target, got + fs.files[target][|got|..|got| + count])))
      case (Compare, Reading(target, got)) =>
        if target !in fs.files || |got| < |fs.files[target]| then None
        else Some(SetPhase(s, w, CleanUp(if got == me.bytes then Returned else Conflict)))
      case (Remove, CleanUp(outcome)) =>
        Some(SetPhase(s, w, Done(outcome)).(fs := fs.(names := fs.names - {me.temporary})))
      case (Fail, Start) => Some(SetPhase(s, w, Done(Failed)))
      case (Fail, CleanUp(_)) => Some(SetPhase(s, w, Done(Failed)))
      case (Fail, Done(_)) => None
      case (Fail, Crashed) => None
      case (Fail, _) => Some(SetPhase(s, w, CleanUp(Failed)))
      case (_, _) => None
  }

  datatype Event = Event(writer: Id, action: Action)

  /** The state after a run, None when some step of it was impossible. */
  function Run(dest: Name, s: State, run: seq<Event>): Option<State>
    decreases |run|
  {
    if run == [] then Some(s)
    else
      match Step(dest, s, run[0].writer, run[0].action)
      case None => None
      case Some(s') => Run(dest, s', run[1..])
  }

  // ---- The invariant ----

  predicate Initial(dest: Name, s: State) {
    && (forall n :: n in s.fs.names ==> s.fs.names[n] in s.fs.files)
    && (forall w :: w in s.writers ==> s.writers[w].phase == Start && s.writers[w].temporary != dest)
    && DistinctTemporaries(s)
  }

  predicate DistinctTemporaries(s: State) {
    forall v, w :: v in s.writers && w in s.writers && v != w ==> s.writers[v].temporary != s.writers[w].temporary
  }

  predicate LinksResolve(fs: FileSystem) {
    forall n :: n in fs.names ==> fs.names[n] in fs.files
  }

  /** What writer `me` may rely on, phase by phase. */
  predicate Sound(dest: Name, fs: FileSystem, me: Writer)
    requires LinksResolve(fs)
  {
    match me.phase
    case Writing(fd, written) => OwnsPartial(fs, me, fd, written)
    case Closed(fd) => me.temporary in fs.names && fs.names[me.temporary] == fd && fs.files[fd] == me.bytes
    case Exists => dest in fs.names
    case Reading(target, got) => dest in fs.names && fs.names[dest] == target && got <= fs.files[target]
    case CleanUp(Returned) => dest in fs.names && fs.files[fs.names[dest]] == me.bytes
    case Done(Returned) => dest in fs.names && fs.files[fs.names[dest]] == me.bytes
    case CleanUp(Conflict) => dest in fs.names && fs.files[fs.names[dest]] != me.bytes
    case Done(Conflict) => dest in fs.names && fs.files[fs.names[dest]] != me.bytes
    case _ => true
  }

  /** An open temporary file is reachable by its own name only and holds what was written so far. */
  predicate OwnsPartial(fs: FileSystem, me: Writer, fd: Inode, written: nat)
    requires LinksResolve(fs)
  {
    && me.temporary in fs.names && fs.names[me.temporary] == fd
    && written <= |me.bytes| && fs.files[fd] == me.bytes[..written]
    && forall n :: n in fs.names && fs.names[n] == fd ==> n == me.temporary
  }

  /** A destination that was not there at first holds the complete bytes of one writer. */
  ghost predicate DestinationComplete(dest: Name, first: FileSystem, s: State)
    requires LinksResolve(s.fs)
  {
    dest in s.fs.names && dest !in first.names ==>
      exists w :: w in s.writers && s.writers[w].bytes == s.fs.files[s.fs.names[dest]]
  }

  ghost predicate Invariant(dest: Name, first: FileSystem, s: State) {
    && LinksResolve(s.fs)
    && (forall w :: w in s.writers ==> s.writers[w].temporary != dest && Sound(dest, s.fs, s.writers[w]))
    && DistinctTemporaries(s)
    && DestinationComplete(dest, first, s)
  }

  lemma InitialInvariant(dest: Name, s: State)
    requires Initial(dest, s)
    ensures Invariant(dest, s.fs, s)
  {
  }

  /** The destination, once there, keeps its inode and its bytes. */
  predicate KeepsDestination(dest: Name, before: FileSystem, after: FileSystem)
    requires LinksResolve(before) && LinksResolve(after)
  {
    dest in before.names ==>
      && dest in after.names
      && after.names[dest] == before.names[dest]
      && after.files[after.names[dest]] == before.files[before.names[dest]]
  }

  /** What a step can do to the file system. */
  datatype Effect = Nothing | Create(inode: Inode) | Append(more: Bytes) | Claim | Unlink

  predicate Enabled(dest: Name, fs: FileSystem, me: Writer, e: Effect) {
    match e
    case Nothing => true
    case Create(inode) => me.temporary !in fs.names && inode !in fs.files
    case Append(_) => me.phase.Writing? && me.phase.fd in fs.files
    case Claim => me.phase.Closed? && dest !in fs.names
    case Unlink => true
  }

  function Apply(dest: Name, fs: FileSystem, me: Writer, e: Effect): FileSystem
    requires Enabled(dest, fs, me, e)
  {
    match e
    case Nothing => fs
    case Create(inode) => FileSystem(fs.names[me.temporary := inode], fs.files[inode := []])
    case Append(more) => fs.(files := fs.files[me.phase.fd := fs.files[me.phase.fd] + more])
    case Claim => fs.(names := fs.names[dest := me.phase.fd])
    case Unlink => fs.(names := fs.names - {me.temporary})
  }

  /** No effect of one writer disturbs another, or a destination that is already there. */
  lemma EffectIsLocal(dest: Name, fs: FileSystem, me: Writer, e: Effect)
    requires LinksResolve(fs) && Sound(dest, fs, me) && me.temporary != dest && Enabled(dest, fs, me, e)
    ensures var fs' := Apply(dest, fs, me, e);
            && LinksResolve(fs') && KeepsDestination(dest, fs, fs')
            && forall other :: Sound(dest, fs, other) && other.temporary != me.temporary && other.temporary != dest
                 ==> Sound(dest, fs', other)
  {
  }

  lemma StepEffect(dest: Name, first: FileSystem, s: State, w: Id, a: Action) returns (e: Effect)
    requires Invariant(dest, first, s) && Step(dest, s, w, a).Some?
    ensures w in s.writers
    ensures var s', me := Step(dest, s, w, a).value, s.writers[w];
            && w in s'.writers && s'.writers == s.writers[w := s'.writers[w]]
            && s'.writers[w].temporary == me.temporary && s'.writers[w].bytes == me.bytes
            && Enabled(dest, s.fs, me, e) && s'.fs == Apply(dest, s.fs, me, e)
  {
    hide Sound, DestinationComplete, DistinctTemporaries;
    var me := s.writers[w];
    e := match (a, me.phase)
      case (Open(inode), Start) => if me.temporary in s.fs.names then Nothing else Create(inode)
      case (Write(count), Writing(_, written)) => Append(me.bytes[written..written + count])
      case (Link, Closed(_)) => if dest in s.fs.names then Nothing else Claim
      case (Remove, CleanUp(_)) => Unlink
      case (_, _) => Nothing;
  }

  /** The moving writer lands in a phase whose facts hold. */
  lemma StepSound(dest: Name, first: FileSystem, s: State, w: Id, a: Action)
    requires Invariant(dest, first, s) && Step(dest, s, w, a).Some?
    requires LinksResolve(Step(dest, s, w, a).value.fs)
    ensures var s' := Step(dest, s, w, a).value; w in s'.writers && Sound(dest, s'.fs, s'.writers[w])
  {
    assert Sound(dest, s.fs, s.writers[w]);
  }

  lemma StepKeepsInvariant(dest: Name, first: FileSystem, s: State, w: Id, a: Action)
    requires Invariant(dest, first, s) && Step(dest, s, w, a).Some?
    ensures Invariant(dest, first, Step(dest, s, w, a).value)
    ensures KeepsDestination(dest, s.fs, Step(dest, s, w, a).value.fs)
  {
    hide Step, Sound, Enabled, Apply;
    var e := StepEffect(dest, first, s, w, a);
    var me, s' := s.writers[w], Step(dest, s, w, a).value;
    EffectIsLocal(dest, s.fs, me, e);
    StepSound(dest, first, s, w, a);
    if dest in s'.fs.names && dest !in first.names {
      if dest in s.fs.names {
        var v :| v in s.writers && s.writers[v].bytes == s.fs.files[s.fs.names[dest]];
        assert s'.writers[v].bytes == s'.fs.files[s'.fs.names[dest]];
      } else {
        ClaimIsComplete(dest, s.fs, me, e);
        assert s'.writers[w].bytes == s'.fs.files[s'.fs.names[dest]];
      }
    }
  }

  /** Only a link creates the destination, and it links a complete file. */
  lemma ClaimIsComplete(dest: Name, fs: FileSystem, me: Writer, e: Effect)
    requires LinksResolve(fs) && Sound(dest, fs, me) && me.temporary != dest && Enabled(dest, fs, me, e)
    requires dest !in fs.names && dest in Apply(dest, fs, me, e).names
    ensures var fs' := Apply(dest, fs, me, e);
            fs'.names[dest] in fs'.files && fs'.files[fs'.names[dest]] == me.bytes
  {
  }

  // ---- Whole runs ----

  lemma {:induction false} RunKeepsInvariant(dest: Name, first: FileSystem, s: State, run: seq<Event>)
    requires Invariant(dest, first, s) && Run(dest, s, run).Some?
    ensures Invariant(dest, first, Run(dest, s, run).value)
    ensures KeepsDestination(dest, s.fs, Run(dest, s, run).value.fs)
    decreases |run|
  {
    hide Step, Invariant;
    InvariantResolves(dest, first, s);
    if run != [] {
      var s' := Step(dest, s, run[0].writer, run[0].action).value;
      StepKeepsInvariant(dest, first, s, run[0].writer, run[0].action);
      InvariantResolves(dest, first, s');
      RunKeepsInvariant(dest, first, s', run[1..]);
      InvariantResolves(dest, first, Run(dest, s', run[1..]).value);
    }
  }

  lemma InvariantResolves(dest: Name, first: FileSystem, s: State)
    requires Invariant(dest, first, s)
    ensures LinksResolve(s.fs)
  {
  }

  lemma {:induction false} RunSplits(dest: Name, s: State, run: seq<Event>, more: seq<Event>)
    ensures Run(dest, s, run + more)
         == match Run(dest, s, run) { case None => None case Some(t) => Run(dest, t, more) }
    decreases |run|
  {
    hide Step;
    if run == [] {
      assert run + more == more;
    } else {
      assert (run + more)[1..] == run[1..] + more;
      match Step(dest, s, run[0].writer, run[0].action)
      case None =>
      case Some(s') => RunSplits(dest, s', run[1..], more);
    }
  }

  function Contents(dest: Name, fs: FileSystem): Option<Bytes> {
    if dest in fs.names && fs.names[dest] in fs.files then Some(fs.files[fs.names[dest]]) else None
  }

  /**
   * In every run from every initial file system: the destination holds what it held at
   * first, or the complete bytes of one writer, or is absent; and whatever it holds after
   * some steps, it holds after any further steps.
   */
  lemma DestinationIsImmutable(dest: Name, s: State, run: seq<Event>, more: seq<Event>)
    requires Initial(dest, s) && Run(dest, s, run + more).Some?
    ensures Run(dest, s, run).Some?
    ensures var early, late := Run(dest, s, run).value, Run(dest, s, run + more).value;
            && (Contents(dest, early.fs).Some? ==> Contents(dest, late.fs) == Contents(dest, early.fs))
            && (Contents(dest, s.fs).Some? ==> Contents(dest, early.fs) == Contents(dest, s.fs))
            && (Contents(dest, s.fs).None? && Contents(dest, early.fs).Some? ==>
                  exists w :: w in early.writers && early.writers[w].bytes == Contents(dest, early.fs).value)
  {
    RunSplits(dest, s, run, more);
    InitialInvariant(dest, s);
    RunKeepsInvariant(dest, s.fs, s, run);
    var early := Run(dest, s, run).value;
    RunKeepsInvariant(dest, s.fs, early, more);
  }

  /**
   * A writer that returned normally finds exactly its bytes at the destination, then and
   * after any further steps; one refused for a conflict finds different bytes there.
   */
  lemma ReturnMeansExactBytes(dest: Name, s: State, run: seq<Event>, more: seq<Event>, w: Id)
    requires Initial(dest, s) && Run(dest, s, run + more).Some?
    ensures Run(dest, s, run).Some?
    ensures var early, late := Run(dest, s, run).value, Run(dest, s, run + more).value;
            w in early.writers ==>
              && (early.writers[w].phase == Done(Returned) ==> Contents(dest, late.fs) == Some(early.writers[w].bytes))
              && (early.writers[w].phase == Done(Conflict) ==>
                    && Contents(dest, late.fs).Some?
                    && Contents(dest, late.fs).value != early.writers[w].bytes)
  {
    DestinationIsImmutable(dest, s, run, more);
    InitialInvariant(dest, s);
    RunKeepsInvariant(dest, s.fs, s, run);
    var early := Run(dest, s, run).value;
    if w in early.writers {
      assert Sound(dest, early.fs, early.writers[w]);
    }
  }

  /** Writers that both returned normally wrote the same bytes. */
  lemma ReturnsAgree(dest: Name, s: State, run: seq<Event>, v: Id, w: Id)
    requires Initial(dest, s) && Run(dest, s, run).Some?
    requires v in Run(dest, s, run).value.writers && w in Run(dest, s, run).value.writers
    requires Run(dest, s, run).value.writers[v].phase == Done(Returned)
    requires Run(dest, s, run).value.writers[w].phase == Done(Returned)
    ensures Run(dest, s, run).value.writers[v].bytes == Run(dest, s, run).value.writers[w].bytes
  {
    assert run + [] == run;
    ReturnMeansExactBytes(dest, s, run, [], v);
    ReturnMeansExactBytes(dest, s, run, [], w);
  }

  // ---- An undisturbed writer gets through ----

  function Undisturbed(w: Id, me: Writer, inode: Inode): seq<Event> {
    [Event(w, Open(inode)), Event(w, Write(|me.bytes|)), Event(w, Close), Event(w, Link)]
  }

  lemma RunOfFour(dest: Name, s: State, s1: State, s2: State, s3: State, s4: State, run: seq<Event>)
    requires |run| == 4
    requires Step(dest, s, run[0].writer, run[0].action) == Some(s1)
    requires Step(dest, s1, run[1].writer, run[1].action) == Some(s2)
    requires Step(dest, s2, run[2].writer, run[2].action) == Some(s3)
    requires Step(dest, s3, run[3].writer, run[3].action) == Some(s4)
    ensures Run(dest, s, run) == Some(s4)
  {
    hide Step;
    assert Run(dest, s, run) == Run(dest, s1, run[1..]);
    assert Run(dest, s1, run[1..]) == Run(dest, s2, run[2..]) by {
      assert run[1..][1..] == run[2..];
    }
    assert Run(dest, s2, run[2..]) == Run(dest, s3, run[3..]) by {
      assert run[2..][1..] == run[3..];
    }
    assert Run(dest, s3, run[3..]) == Run(dest, s4, []) by {
      assert run[3..][1..] == [];
    }
  }

  /** The four steps up to the link claim a free destination, or meet EEXIST on a taken one. */
  lemma UndisturbedReachesLink(dest: Name, s: State, w: Id, inode: Inode)
    requires w in s.writers && s.writers[w].phase == Start && s.writers[w].temporary != dest
    requires s.writers[w].temporary !in s.fs.names && inode !in s.fs.files && LinksResolve(s.fs)
    ensures var me := s.writers[w];
            var r := Run(dest, s, Undisturbed(w, me, inode));
            && r.Some? && w in r.value.writers && r.value.writers[w].temporary == me.temporary
            && r.value.writers[w].bytes == me.bytes && LinksResolve(r.value.fs)
            && (if dest in s.fs.names
                then r.value.writers[w].phase == Exists && Contents(dest, r.value.fs) == Contents(dest, s.fs)
                else r.value.writers[w].phase == CleanUp(Returned) && Contents(dest, r.value.fs) == Some(me.bytes))
  {
    var me := s.writers[w];
    var run := Undisturbed(w, me, inode);
    var s1 := Step(dest, s, w, Open(inode)).value;
    var s2 := Step(dest, s1, w, Write(|me.bytes|)).value;
    assert [] + me.bytes[0..|me.bytes|] == me.bytes;
    var s3 := Step(dest, s2, w, Close).value;
    var s4 := Step(dest, s3, w, Link).value;
    RunOfFour(dest, s, s1, s2, s3, s4, run);
  }

  /** From a taken destination, reading it to the end decides between returning and a conflict. */
  lemma UndisturbedCompares(dest: Name, s: State, w: Id)
    requires w in s.writers && s.writers[w].phase == Exists && s.writers[w].temporary != dest
    requires dest in s.fs.names && LinksResolve(s.fs)
    ensures var existing := Contents(dest, s.fs).value;
            var r := Run(dest, s, [Event(w, OpenExisting), Event(w, Read(|existing|)), Event(w, Compare), Event(w, Remove)]);
            && r.Some? && w in r.value.writers
            && r.value.writers[w].phase == Done(if existing == s.writers[w].bytes then Returned else Conflict)
            && s.writers[w].temporary !in r.value.fs.names
  {
    var existing := Contents(dest, s.fs).value;
    var run := [Event(w, OpenExisting), Event(w, Read(|existing|)), Event(w, Compare), Event(w, Remove)];
    var target, verdict := s.fs.names[dest], if existing == s.writers[w].bytes then Returned else Conflict;
    var s1 := SetPhase(s, w, Reading(target, []));
    assert Step(dest, s, w, OpenExisting) == Some(s1);
    assert [] + existing[0..|existing|] == existing;
    var s2 := SetPhase(s1, w, Reading(target, existing));
    assert Step(dest, s1, w, Read(|existing|)) == Some(s2);
    var s3 := SetPhase(s2, w, CleanUp(verdict));
    assert Step(dest, s2, w, Compare) == Some(s3);
    var s4 := Step(dest, s3, w, Remove).value;
    RunOfFour(dest, s, s1, s2, s3, s4, run);
  }
}

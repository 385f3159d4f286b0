/**
 * assessDeletionTarget of scripts/safe-cleanup.ts: the verdict every recursive deletion must pass,
 * whatever the file system answers and however its answers change between calls.
 */
module DeletionVerdict {
  import opened Lists
  import opened PosixPath
  import opened Text

  datatype Reason =
    | EmptyTarget
    | RelativeTarget
    | FilesystemRoot
    | RealHome
    | RealHomeAncestor
    | TooShallow
    | OutsideAllowedRoots
    | SymlinkEscape
    | UnownedPath

  datatype Verdict = Approved(target: string, canonical: string, containedRoot: string) | Refused(reason: Reason)

  /** Home aliases and allowed roots are absolute paths. */
  datatype World = World(
    homeAliases: seq<string>, allowedRoots: seq<string>, uid: Option<int>, caseInsensitive: bool)

  /**
   * One answer per call, in call order: whether the target exists, its real path, whether it
   * still exists, and the owner of each component. None is a call that threw.
   */
  datatype Answers = Answers(
    seen: Option<bool>, realPath: Option<string>, seenAgain: Option<bool>, owner: (nat, string) -> Option<int>)

  /** An unreadable path counts as existing. */
  predicate Observed(answer: Option<bool>) {
    answer.None? || answer.value
  }

  datatype Sighting = Absent | Present(canonical: string) | Unresolvable

  function Look(answers: Answers): Sighting {
    if !Observed(answers.seen) then Absent
    else if answers.realPath.Some? then Present(answers.realPath.value)
    else if Observed(answers.seenAgain) then Unresolvable
    else Absent
  }

  /** The first home that is the path or lies below it decides the reason. */
  function HomeRefusal(ci: bool, path: string, homes: seq<string>): Option<Reason> {
    if homes == [] then None
    else if SamePath(ci, path, homes[0]) then Some(RealHome)
    else if IsAncestorOrEqual(ci, path, homes[0]) then Some(RealHomeAncestor)
    else HomeRefusal(ci, path, homes[1..])
  }

  predicate IsDeclaredRoot(ci: bool, path: string, roots: seq<string>) {
    exists i :: 0 <= i < |roots| && SamePath(ci, path, roots[i])
  }

  function FirstInside(ci: bool, path: string, roots: seq<string>): Option<string> {
    if roots == [] then None
    else if StrictlyInside(ci, path, roots[0]) then Some(roots[0])
    else FirstInside(ci, path, roots[1..])
  }

  /** The checks made on the path as written, in order. */
  function LexicalRefusal(world: World, resolved: string): Option<Reason> {
    if SamePath(world.caseInsensitive, resolved, "/") then Some(FilesystemRoot)
    else
      var home := HomeRefusal(world.caseInsensitive, resolved, world.homeAliases);
      if home.Some? then home
      else if |Segments(resolved)| < 2 then Some(TooShallow)
      else if IsDeclaredRoot(world.caseInsensitive, resolved, world.allowedRoots) then Some(OutsideAllowedRoots)
      else None
  }

  /** The same checks on the real path, in the order they are made there. */
  function ResolvedRefusal(world: World, canonical: string): Option<Reason> {
    var home := HomeRefusal(world.caseInsensitive, canonical, world.homeAliases);
    if home.Some? then home
    else if SamePath(world.caseInsensitive, canonical, "/") then Some(FilesystemRoot)
    else if |Segments(canonical)| < 2 then Some(TooShallow)
    else if IsDeclaredRoot(world.caseInsensitive, canonical, world.allowedRoots) then Some(OutsideAllowedRoots)
    else None
  }

  predicate AllOwned(components: seq<string>, owner: (nat, string) -> Option<int>, uid: int) {
    forall i :: 0 <= i < |components| ==> owner(i, components[i]) == Some(uid)
  }

  predicate Covers(ci: bool, granted: string, path: string) {
    SamePath(ci, path, granted) || StrictlyInside(ci, path, granted)
  }

  function GrantedRoot(ci: bool, granted: seq<string>, resolved: string, canonical: string): Option<string> {
    if granted == [] then None
    else if Covers(ci, granted[0], resolved) || Covers(ci, granted[0], canonical) then Some(granted[0])
    else GrantedRoot(ci, granted[1..], resolved, canonical)
  }

  function PresentVerdict(
    target: string, resolved: string, canonical: string, world: World, answers: Answers, grant: Option<string>): Verdict
  {
    var ci := world.caseInsensitive;
    var refusal := ResolvedRefusal(world, canonical);
    if refusal.Some? then Refused(refusal.value)
    else
      var inside := FirstInside(ci, canonical, world.allowedRoots);
      var root := if inside.Some? then inside else grant;
      if root.None? then
        Refused(if FirstInside(ci, resolved, world.allowedRoots).Some? then SymlinkEscape else OutsideAllowedRoots)
      else if world.uid.Some? && !AllOwned(ComponentsBetween(root.value, canonical), answers.owner, world.uid.value) then
        Refused(UnownedPath)
      else Approved(target, canonical, root.value)
  }

  /** The whole verdict; `grant` is the granted root that covers the target, if any does. */
  function Assess(target: string, world: World, answers: Answers, granted: seq<string>, grantCase: bool): Verdict {
    if IsBlank(target) then Refused(EmptyTarget)
    else if !IsAbsolute(target) then Refused(RelativeTarget)
    else
      var resolved := Resolve(target);
      var refusal := LexicalRefusal(world, resolved);
      if refusal.Some? then Refused(refusal.value)
      else
        match Look(answers)
        case Unresolvable => Refused(SymlinkEscape)
        case Present(canonical) =>
          PresentVerdict(target, resolved, canonical, world, answers, GrantedRoot(grantCase, granted, resolved, canonical))
        case Absent =>
          var root := FirstInside(world.caseInsensitive, resolved, world.allowedRoots);
          if root.None? then Refused(OutsideAllowedRoots) else Approved(target, resolved, root.value)
  }

  // ---- The decision as the source makes it ----

  method CheckHomes(ci: bool, path: string, homes: seq<string>) returns (r: Option<Reason>)
    ensures r == HomeRefusal(ci, path, homes)
  {
    hide SamePath, IsAncestorOrEqual;
    for i := 0 to |homes|
      invariant HomeRefusal(ci, path, homes) == HomeRefusal(ci, path, homes[i..])
    {
      if SamePath(ci, path, homes[i]) {
        return Some(RealHome);
      }
      if IsAncestorOrEqual(ci, path, homes[i]) {
        return Some(RealHomeAncestor);
      }
      assert homes[i..][1..] == homes[i + 1..];
    }
    r := None;
  }

  method FindRoot(ci: bool, path: string, roots: seq<string>) returns (r: Option<string>)
    ensures r == FirstInside(ci, path, roots)
  {
    hide StrictlyInside;
    for i := 0 to |roots|
      invariant FirstInside(ci, path, roots) == FirstInside(ci, path, roots[i..])
    {
      if StrictlyInside(ci, path, roots[i]) {
        return Some(roots[i]);
      }
      assert roots[i..][1..] == roots[i + 1..];
    }
    r := None;
  }

  /** The ownership loop: every component is asked about once, and the first wrong answer ends it. */
  method CheckOwners(root: string, canonical: string, owner: (nat, string) -> Option<int>, uid: int) returns (owned: bool)
    ensures owned <==> AllOwned(ComponentsBetween(root, canonical), owner, uid)
  {
    var components := ListComponents(root, canonical);
    for i := 0 to |components|
      invariant forall j :: 0 <= j < i ==> owner(j, components[j]) == Some(uid)
    {
      var answer := owner(i, components[i]);
      if answer.None? {
        return false;
      }
      if answer.value != uid {
        return false;
      }
    }
    owned := true;
  }

  method AssessDeletionTarget(target: string, world: World, answers: Answers, granted: seq<string>, grantCase: bool)
    returns (verdict: Verdict)
    ensures verdict == Assess(target, world, answers, granted, grantCase)
  {
    hide SamePath, IsAncestorOrEqual, StrictlyInside, Segments, ComponentsBetween, AllOwned, IsBlank, Covers;
    var ci := world.caseInsensitive;
    if IsBlank(target) {
      return Refused(EmptyTarget);
    }
    if !IsAbsolute(target) {
      return Refused(RelativeTarget);
    }
    var resolved := Resolve(target);
    if SamePath(ci, resolved, "/") {
      return Refused(FilesystemRoot);
    }
    var home := CheckHomes(ci, resolved, world.homeAliases);
    if home.Some? {
      return Refused(home.value);
    }
    if |Segments(resolved)| < 2 {
      return Refused(TooShallow);
    }
    if IsDeclaredRoot(ci, resolved, world.allowedRoots) {
      return Refused(OutsideAllowedRoots);
    }
    var canonical, present := resolved, Observed(answers.seen);
    if present {
      if answers.realPath.None? {
        if Observed(answers.seenAgain) {
          return Refused(SymlinkEscape);
        }
        present := false;
      } else {
        canonical := answers.realPath.value;
      }
    }
    if present {
      home := CheckHomes(ci, canonical, world.homeAliases);
      if home.Some? {
        return Refused(home.value);
      }
      if SamePath(ci, canonical, "/") {
        return Refused(FilesystemRoot);
      }
      if |Segments(canonical)| < 2 {
        return Refused(TooShallow);
      }
      if IsDeclaredRoot(ci, canonical, world.allowedRoots) {
        return Refused(OutsideAllowedRoots);
      }
    }
    var lexicalRoot := FindRoot(ci, resolved, world.allowedRoots);
    if !present {
      if lexicalRoot.None? {
        return Refused(OutsideAllowedRoots);
      }
      return Approved(target, canonical, lexicalRoot.value);
    }
    var root := FindRoot(ci, canonical, world.allowedRoots);
    if root.None? {
      root := GrantedRoot(grantCase, granted, resolved, canonical);
    }
    if root.None? {
      return Refused(if lexicalRoot.Some? then SymlinkEscape else OutsideAllowedRoots);
    }
    if world.uid.Some? {
      var owned := CheckOwners(root.value, canonical, answers.owner, world.uid.value);
      if !owned {
        return Refused(UnownedPath);
      }
    }
    verdict := Approved(target, canonical, root.value);
  }

  // ---- What the checks mean, whatever the path and however it is written ----

  /** The path is the home or one of its ancestors. */
  predicate AtOrAbove(ci: bool, path: string, home: string) {
    Keys(ci, path) <= Keys(ci, home)
  }

  /** The same place, written with a trailing separator where the other has none. */
  predicate WrittenLonger(ci: bool, path: string, other: string) {
    Keys(ci, path) == Keys(ci, other) && Trailing(path) && !Trailing(other)
  }

  predicate AwayFromHomes(world: World, path: string) {
    forall i :: 0 <= i < |world.homeAliases| ==> !AtOrAbove(world.caseInsensitive, path, world.homeAliases[i])
  }

  predicate HomeWrittenLonger(world: World, path: string) {
    exists i :: 0 <= i < |world.homeAliases| && WrittenLonger(world.caseInsensitive, path, world.homeAliases[i])
  }

  /** The place is a declared root; as written, with the same ending; or otherwise, with another one. */
  predicate IsRoot(world: World, path: string) {
    exists i :: 0 <= i < |world.allowedRoots| && Keys(world.caseInsensitive, path) == Keys(world.caseInsensitive, world.allowedRoots[i])
  }

  predicate IsRootAsWritten(world: World, path: string) {
    exists i :: 0 <= i < |world.allowedRoots|
      && Keys(world.caseInsensitive, path) == Keys(world.caseInsensitive, world.allowedRoots[i])
      && Trailing(path) == Trailing(world.allowedRoots[i])
  }

  predicate IsRootWrittenOtherwise(world: World, path: string) {
    exists i :: 0 <= i < |world.allowedRoots|
      && Keys(world.caseInsensitive, path) == Keys(world.caseInsensitive, world.allowedRoots[i])
      && Trailing(path) != Trailing(world.allowedRoots[i])
  }

  /** What gets through the checks, in terms of segments: the two exceptions are about separators only. */
  predicate Passes(world: World, path: string) {
    && |Segments(path)| >= 2
    && (forall i :: 0 <= i < |world.homeAliases| ==>
          AtOrAbove(world.caseInsensitive, path, world.homeAliases[i])
          ==> WrittenLonger(world.caseInsensitive, path, world.homeAliases[i]))
    && !IsRootAsWritten(world, path)
  }

  /**
   * A path that passes is away from all homes, unless it is a home written with a trailing
   * separator, and is no declared root, unless one of the two is written with a separator.
   */
  lemma PassesIsAway(world: World, path: string)
    requires Passes(world, path)
    ensures AwayFromHomes(world, path) <==> !HomeWrittenLonger(world, path)
    ensures !Trailing(path) ==> AwayFromHomes(world, path)
    ensures IsRoot(world, path) <==> IsRootWrittenOtherwise(world, path)
  {
    hide Keys, Trailing, Segments;
  }

  lemma {:induction false} HomesMean(ci: bool, path: string, homes: seq<string>)
    ensures HomeRefusal(ci, path, homes).None? <==>
              forall i :: 0 <= i < |homes| ==> AtOrAbove(ci, path, homes[i]) ==> WrittenLonger(ci, path, homes[i])
  {
    hide SamePath, IsAncestorOrEqual, Keys, Trailing;
    if homes != [] {
      HomesMean(ci, path, homes[1..]);
      AncestorTest(ci, path, homes[0]);
      SameTest(ci, path, homes[0]);
    }
  }

  lemma DeclaredMeans(ci: bool, path: string, roots: seq<string>)
    ensures IsDeclaredRoot(ci, path, roots) <==>
              exists i :: 0 <= i < |roots| && Keys(ci, path) == Keys(ci, roots[i]) && Trailing(path) == Trailing(roots[i])
  {
    hide SamePath, Keys, Trailing;
    forall i | 0 <= i < |roots|
      ensures SamePath(ci, path, roots[i]) <==> Keys(ci, path) == Keys(ci, roots[i]) && Trailing(path) == Trailing(roots[i])
    {
      SameTest(ci, path, roots[i]);
    }
  }

  lemma RootMeans(ci: bool, path: string)
    ensures SamePath(ci, path, "/") <==> Segments(path) == []
  {
    hide SamePath;
    SameTest(ci, path, "/");
    SegmentsOfPath([]);
    assert Path([]) == "/";
  }

  /** Both rounds of checks let through exactly these paths. */
  lemma RefusalsMean(world: World, path: string)
    ensures LexicalRefusal(world, path).None? <==> Passes(world, path)
    ensures ResolvedRefusal(world, path).None? <==> Passes(world, path)
  {
    hide SamePath, Keys, Trailing, HomeRefusal, IsDeclaredRoot, Segments, AtOrAbove, WrittenLonger;
    HomesMean(world.caseInsensitive, path, world.homeAliases);
    DeclaredMeans(world.caseInsensitive, path, world.allowedRoots);
    RootMeans(world.caseInsensitive, path);
  }

  /** The root contains the path: strictly, or as the same place written with a trailing separator. */
  predicate Contains(ci: bool, root: string, path: string) {
    Keys(ci, root) < Keys(ci, path) || WrittenLonger(ci, path, root)
  }

  lemma {:induction false} FirstInsideMeans(ci: bool, path: string, roots: seq<string>)
    ensures var r := FirstInside(ci, path, roots);
            && (r.Some? ==> r.value in roots && Contains(ci, r.value, path))
            && (r.None? ==> forall i :: 0 <= i < |roots| ==> !Contains(ci, roots[i], path))
  {
    hide StrictlyInside, Keys, Trailing;
    if roots != [] {
      FirstInsideMeans(ci, path, roots[1..]);
      InsideTest(ci, path, roots[0]);
    }
  }

  lemma ResolvedPasses(world: World, target: string)
    ensures !Trailing(Resolve(target)) && (Passes(world, Resolve(target)) ==> AwayFromHomes(world, Resolve(target)))
  {
    hide Segments, Keys, Passes, AwayFromHomes, Trailing;
    ResolveTwice(target);
    ResolvedIsNotTrailing(Resolve(target));
    if Passes(world, Resolve(target)) {
      PassesIsAway(world, Resolve(target));
    }
  }

  /**
   * Whatever the file system answered and whatever was granted, an approved target is at least two
   * segments deep and away from all homes as written; and so is the path it really leads to,
   * unless that answer is a home written with a trailing separator.
   */
  lemma ApprovedIsSafe(target: string, world: World, answers: Answers, granted: seq<string>, grantCase: bool)
    requires Assess(target, world, answers, granted, grantCase).Approved?
    ensures var canonical := Assess(target, world, answers, granted, grantCase).canonical;
            && |Segments(Resolve(target))| >= 2 && AwayFromHomes(world, Resolve(target))
            && !IsRootAsWritten(world, Resolve(target))
            && |Segments(canonical)| >= 2 && (AwayFromHomes(world, canonical) <==> !HomeWrittenLonger(world, canonical))
            && !IsRootAsWritten(world, canonical)
  {
    hide LexicalRefusal, ResolvedRefusal, Segments, FirstInside, GrantedRoot, ComponentsBetween, AllOwned, IsBlank, Keys, Trailing,
      AwayFromHomes, HomeWrittenLonger, IsRootAsWritten, AtOrAbove, WrittenLonger;
    var canonical := Assess(target, world, answers, granted, grantCase).canonical;
    ResolvedPasses(world, target);
    RefusalsMean(world, Resolve(target));
    RefusalsMean(world, canonical);
    PassesIsAway(world, canonical);
  }

  /** The refusals that need only the text of the target come first: no answer and no grant can undo them. */
  lemma LexicalRefusalIsFinal(
    target: string, world: World, a: Answers, b: Answers, grantedA: seq<string>, grantedB: seq<string>, grantCase: bool)
    requires IsBlank(target) || !IsAbsolute(target) || !Passes(world, Resolve(target))
    ensures Assess(target, world, a, grantedA, grantCase).Refused?
    ensures Assess(target, world, a, grantedA, grantCase) == Assess(target, world, b, grantedB, grantCase)
  {
    hide Passes, LexicalRefusal, ResolvedRefusal, Segments, FirstInside, GrantedRoot, ComponentsBetween, AllOwned, IsBlank;
    RefusalsMean(world, Resolve(target));
  }

  /** A target at or above a home is refused for that reason, even where it is shallow or a declared root too. */
  lemma HomeReasonComesFirst(target: string, world: World, answers: Answers, granted: seq<string>, grantCase: bool, i: nat)
    requires !IsBlank(target) && IsAbsolute(target) && Segments(Resolve(target)) != [] && i < |world.homeAliases|
    requires AtOrAbove(world.caseInsensitive, Resolve(target), world.homeAliases[i])
    ensures Assess(target, world, answers, granted, grantCase) in {Refused(RealHome), Refused(RealHomeAncestor)}
  {
    hide Segments, SamePath, IsAncestorOrEqual, IsBlank, Keys, FirstInside, GrantedRoot, PresentVerdict, IsDeclaredRoot, Trailing;
    ResolvedPasses(world, target);
    RootMeans(world.caseInsensitive, Resolve(target));
    HomesMean(world.caseInsensitive, Resolve(target), world.homeAliases);
    HomeReasons(world.caseInsensitive, Resolve(target), world.homeAliases);
  }

  lemma {:induction false} HomeReasons(ci: bool, path: string, homes: seq<string>)
    ensures HomeRefusal(ci, path, homes) in {None, Some(RealHome), Some(RealHomeAncestor)}
  {
    hide SamePath, IsAncestorOrEqual;
    if homes != [] {
      HomeReasons(ci, path, homes[1..]);
    }
  }

  /** Is every directory on the way from a root down to the path owned by the process? */
  predicate Owned(world: World, answers: Answers, root: string, canonical: string) {
    world.uid.Some? ==> AllOwned(ComponentsBetween(root, canonical), answers.owner, world.uid.value)
  }

  /**
   * Without grants the verdict is approval exactly when the target is an absolute path that passes
   * the checks, and either gone and inside an allowed root, or present with a real path that
   * passes them too, inside an allowed root that the process owns all the way down.
   */
  lemma ApprovalIsExact(target: string, world: World, answers: Answers, grantCase: bool)
    ensures Assess(target, world, answers, [], grantCase).Approved? <==>
              && !IsBlank(target) && IsAbsolute(target) && Passes(world, Resolve(target))
              && match Look(answers) {
                   case Unresolvable => false
                   case Absent =>
                     exists i :: 0 <= i < |world.allowedRoots|
                       && Contains(world.caseInsensitive, world.allowedRoots[i], Resolve(target))
                   case Present(canonical) =>
                     && Passes(world, canonical)
                     && var root := FirstInside(world.caseInsensitive, canonical, world.allowedRoots);
                     && root.Some? && Owned(world, answers, root.value, canonical)
                 }
  {
    hide Passes, LexicalRefusal, ResolvedRefusal, Segments, FirstInside, ComponentsBetween, AllOwned, IsBlank, Contains;
    RefusalsMean(world, Resolve(target));
    FirstInsideMeans(world.caseInsensitive, Resolve(target), world.allowedRoots);
    if answers.realPath.Some? {
      RefusalsMean(world, answers.realPath.value);
    }
  }

  /**
   * Without grants, what is deleted lies inside an allowed root: strictly, unless the real path is
   * that root written with a trailing separator.
   */
  lemma ApprovedIsInside(target: string, world: World, answers: Answers, grantCase: bool)
    requires Assess(target, world, answers, [], grantCase).Approved?
    ensures var v := Assess(target, world, answers, [], grantCase);
            && v.containedRoot in world.allowedRoots
            && (Keys(world.caseInsensitive, v.containedRoot) < Keys(world.caseInsensitive, v.canonical)
                <==> !WrittenLonger(world.caseInsensitive, v.canonical, v.containedRoot))
  {
    hide LexicalRefusal, ResolvedRefusal, Segments, FirstInside, ComponentsBetween, AllOwned, IsBlank, Keys, Trailing;
    FirstInsideMeans(world.caseInsensitive, Resolve(target), world.allowedRoots);
    if answers.realPath.Some? {
      FirstInsideMeans(world.caseInsensitive, answers.realPath.value, world.allowedRoots);
    }
  }

  /** An approved path that exists was asked about, and found owned, at every level below the root that contains it. */
  lemma ApprovedIsOwned(
    target: string, world: World, answers: Answers, granted: seq<string>, grantCase: bool, uid: int, k: nat)
    requires Assess(target, world, answers, granted, grantCase).Approved? && Look(answers).Present? && world.uid == Some(uid)
    requires |Segments(Assess(target, world, answers, granted, grantCase).containedRoot)| < k
    requires k <= |Segments(Assess(target, world, answers, granted, grantCase).canonical)|
    ensures var v := Assess(target, world, answers, granted, grantCase);
            var asked, level := ComponentsBetween(v.containedRoot, v.canonical), Path(Segments(v.canonical)[..k]);
            exists call :: 0 <= call < |asked| && asked[call] == level && answers.owner(call, level) == Some(uid)
  {
    hide LexicalRefusal, ResolvedRefusal, Segments, FirstInside, ComponentsBetween, IsBlank, GrantedRoot, Path, CommonLength;
    var v := Assess(target, world, answers, granted, grantCase);
    var components := ComponentsBetween(v.containedRoot, v.canonical);
    assert AllOwned(components, answers.owner, uid);
    ComponentsCover(v.containedRoot, v.canonical, k);
    var level := Path(Segments(v.canonical)[..k]);
    var call :| 0 <= call < |components| && components[call] == level;
    assert answers.owner(call, level) == Some(uid);
  }

  // ---- The failing answers ----

  lemma ThreeSegments(a: string, b: string, c: string)
    requires IsName(a) && IsName(b) && IsName(c)
    ensures Segments("/" + a + "/" + b + "/" + c) == [a, b, c] && Segments("/" + a + "/" + b) == [a, b]
    ensures Resolve("/" + a + "/" + b + "/" + c) == "/" + a + "/" + b + "/" + c
    ensures !Trailing("/" + a + "/" + b + "/" + c) && !Trailing("/" + a + "/" + b)
  {
    hide Segments, Join;
    SegmentsOfPath([a, b, c]);
    SegmentsOfPath([a, b]);
    JoinOne([c], '/');
    JoinStep(b, [c], '/');
    JoinStep(a, [b, c], '/');
    JoinOne([b], '/');
    JoinStep(a, [b], '/');
    assert [a] + [b, c] == [a, b, c] && [b] + [c] == [b, c] && [a] + [b] == [a, b];
    assert Path([a, b, c]) == "/" + a + "/" + b + "/" + c;
    assert Path([a, b]) == "/" + a + "/" + b;
    assert ("/" + a + "/" + b + "/" + c)[|"/" + a + "/" + b + "/" + c| - 1] == c[|c| - 1];
    assert ("/" + a + "/" + b)[|"/" + a + "/" + b| - 1] == b[|b| - 1];
  }

  const HOME := "/" + "srv" + "/" + "home" + "/" + "u"
  const HOMES_ROOT := "/" + "srv" + "/" + "home"
  const LINK := "/" + "srv" + "/" + "home" + "/" + "link"

  /** A real path that is a home with a separator at its end gets through, and the home is approved for deletion. */
  lemma SeparatorReachesHome()
    ensures var world := World([HOME], [HOMES_ROOT], Some(0), false);
            var answers := Answers(Some(true), Some(HOME + "/"), None, (call, path) => Some(0));
            && Assess(LINK, world, answers, [], false) == Approved(LINK, HOME + "/", HOMES_ROOT)
            && Segments(HOME + "/") == Segments(HOME)
  {
    hide Segments, Trailing, FirstInside, LexicalRefusal, ResolvedRefusal, ComponentsBetween, IsBlank, Resolve;
    var world := World([HOME], [HOMES_ROOT], Some(0), false);
    var longer := HOME + "/";
    ThreeSegments("srv", "home", "u");
    ThreeSegments("srv", "home", "link");
    TrailingSegments(HOME);
    LinkIsText();
    assert Trailing(longer) by { EndsLonger(HOME); }
    FailingKeys();
    RefusalsMean(world, LINK);
    RefusalsMean(world, longer);
    assert Passes(world, LINK) by {
      assert Keys(false, LINK)[2] == "link" && Keys(false, HOME)[2] == "u" && |"link"| != |"u"|;
      assert |Keys(false, LINK)| == 3 && |Keys(false, HOMES_ROOT)| == 2;
    }
    assert Passes(world, longer) by {
      assert |Keys(false, longer)| == 3 && |Keys(false, HOMES_ROOT)| == 2;
    }
    assert Contains(false, [HOMES_ROOT][0], longer);
    FirstInsideMeans(false, longer, world.allowedRoots);
    assert FirstInside(false, longer, [HOMES_ROOT]) == Some(HOMES_ROOT);
  }

  lemma EndsLonger(path: string)
    requires Segments(path) != []
    ensures Trailing(path + "/")
  {
    TrailingSegments(path);
  }

  lemma LinkIsText()
    ensures !IsBlank(LINK) && IsAbsolute(LINK) && Resolve(LINK) == LINK
  {
    hide Segments, Resolve;
    ThreeSegments("srv", "home", "link");
    assert LINK[0] == '/' && !IsSpace('/');
  }

  lemma FailingKeys()
    ensures Keys(false, HOME) == ["srv", "home", "u"] && Keys(false, HOME + "/") == ["srv", "home", "u"]
    ensures Keys(false, HOMES_ROOT) == ["srv", "home"] && Keys(false, LINK) == ["srv", "home", "link"]
  {
    hide Segments;
    ThreeSegments("srv", "home", "u");
    ThreeSegments("srv", "home", "link");
    TrailingSegments(HOME);
  }

  lemma {:induction false} GrantedRootMeans(ci: bool, granted: seq<string>, resolved: string, canonical: string)
    ensures var r := GrantedRoot(ci, granted, resolved, canonical);
            r.Some? ==> r.value in granted && (Covers(ci, r.value, resolved) || Covers(ci, r.value, canonical))
  {
    hide Covers;
    if granted != [] {
      GrantedRootMeans(ci, granted[1..], resolved, canonical);
    }
  }

  /** With grants, nothing is approved that no allowed root contains and no granted root covers. */
  lemma ApprovedIsPermitted(target: string, world: World, answers: Answers, granted: seq<string>, grantCase: bool)
    requires Assess(target, world, answers, granted, grantCase).Approved?
    ensures var v := Assess(target, world, answers, granted, grantCase);
            || (v.containedRoot in world.allowedRoots && Contains(world.caseInsensitive, v.containedRoot, v.canonical))
            || (v.containedRoot in granted
                && (Covers(grantCase, v.containedRoot, Resolve(target)) || Covers(grantCase, v.containedRoot, v.canonical)))
  {
    hide LexicalRefusal, ResolvedRefusal, Segments, FirstInside, ComponentsBetween, AllOwned, IsBlank, Contains, GrantedRoot, Covers;
    FirstInsideMeans(world.caseInsensitive, Resolve(target), world.allowedRoots);
    if answers.realPath.Some? {
      FirstInsideMeans(world.caseInsensitive, answers.realPath.value, world.allowedRoots);
      GrantedRootMeans(grantCase, granted, Resolve(target), answers.realPath.value);
    }
  }

  // ---- Granted roots ----

  datatype RegisterError = RelativeGrant | HomeGrant | AlreadyExists

  /** No granted root is a home or contains one. */
  predicate HarmlessGrant(ci: bool, granted: string, homes: seq<string>) {
    IsResolved(granted) && forall i :: 0 <= i < |homes| ==> !(Keys(ci, granted) <= Keys(ci, homes[i]))
  }

  function Revoke(granted: seq<string>, root: string): seq<string> {
    if granted == [] then []
    else Revoke(granted[..|granted| - 1], root) + if granted[|granted| - 1] == root then [] else [granted[|granted| - 1]]
  }

  lemma {:induction false} RevokeKeeps(granted: seq<string>, root: string)
    ensures forall g :: g in Revoke(granted, root) <==> g in granted && g != root
  {
    if granted != [] {
      RevokeKeeps(granted[..|granted| - 1], root);
      assert granted == granted[..|granted| - 1] + [granted[|granted| - 1]];
    }
  }

  /** The process-wide map of granted roots, in insertion order. */
  class GrantRegistry {
    const homeAliases: seq<string>
    const caseInsensitive: bool
    var granted: seq<string>

    ghost predicate Valid()
      reads this
    {
      forall i :: 0 <= i < |granted| ==> HarmlessGrant(caseInsensitive, granted[i], homeAliases)
    }

    constructor (homeAliases: seq<string>, caseInsensitive: bool)
      ensures Valid() && granted == []
      ensures this.homeAliases == homeAliases && this.caseInsensitive == caseInsensitive
    {
      this.homeAliases := homeAliases;
      this.caseInsensitive := caseInsensitive;
      granted := [];
    }

    /** A grant is refused for relative paths, homes, their ancestors, and anything that exists already. */
    method Register(dir: string, alreadyExists: bool) returns (r: Result<string, RegisterError>)
      requires Valid()
      modifies this
      ensures Valid()
      ensures r.Ok? <==> IsAbsolute(dir) && !alreadyExists && HarmlessGrant(caseInsensitive, Resolve(dir), homeAliases)
      ensures r.Err? ==> granted == old(granted)
      ensures r.Ok? ==> r.value == Resolve(dir)
                        && granted == old(granted) + if Resolve(dir) in old(granted) then [] else [Resolve(dir)]
    {
      hide Keys, IsResolved, SamePath, IsAncestorOrEqual, Resolve, Trailing;
      if !IsAbsolute(dir) {
        return Err(RelativeGrant);
      }
      var resolved := Resolve(dir);
      ResolveTwice(dir);
      assert !Trailing(resolved) by { ResolvedIsNotTrailing(resolved); }
      HomesMean(caseInsensitive, resolved, homeAliases);
      var refusal := CheckHomes(caseInsensitive, resolved, homeAliases);
      if refusal.Some? {
        return Err(HomeGrant);
      }
      if alreadyExists {
        return Err(AlreadyExists);
      }
      if resolved !in granted {
        granted := granted + [resolved];
      }
      r := Ok(resolved);
    }

    /** The disposer. */
    method Forget(root: string)
      requires Valid()
      modifies this
      ensures Valid() && granted == Revoke(old(granted), root)
      ensures forall g :: g in granted <==> g in old(granted) && g != root
    {
      hide HarmlessGrant;
      RevokeKeeps(granted, root);
      var kept := Revoke(granted, root);
      forall i | 0 <= i < |kept| ensures HarmlessGrant(caseInsensitive, kept[i], homeAliases) {
        assert kept[i] in granted;
      }
      granted := kept;
    }
  }

  /** A registered grant never reaches a home, however the home is spelled. */
  lemma GrantReachesNoHome(ci: bool, granted: string, homes: seq<string>, i: nat)
    requires i < |homes| && HarmlessGrant(ci, granted, homes)
    ensures !Covers(ci, granted, homes[i])
  {
    hide Keys, IsResolved, SamePath, StrictlyInside;
    SameTest(ci, homes[i], granted);
    InsideTest(ci, homes[i], granted);
  }
}

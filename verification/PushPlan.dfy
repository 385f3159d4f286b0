/** planTasks of scripts/ci-dev-affected.ts: the broader plan of a push, as a set of keys and as its loops build it. */
module PushPlan {
  import opened Lists
  import opened AffectedPaths
  import opened Dependents
  import opened AffectedPlan

  // ---- Guards ----

  predicate IsToolingScript(path: string) {
    StartsWith(path, "scripts/") || path == "bun.lock"
  }

  predicate IsWorkflowHarness(path: string) {
    IsWorkflow(path) || IsCiHarnessScript(path)
  }

  predicate IsGithub(path: string) {
    StartsWith(path, ".github/")
  }

  const DEEP_INTERVIEW_PATHS: seq<string> := [
    "packages/coding-agent/" + "src/defaults/gjc/skills/deep-interview/SKILL.md",
    "packages/coding-agent/" + "src/gjc-runtime/deep-interview-runtime.ts",
    "packages/coding-agent/" + "test/default-gjc-definitions.test.ts",
    "packages/coding-agent/" + "test/gjc-runtime/deep-interview-runtime.test.ts"]

  predicate IsDeepInterview(path: string) {
    path in DEEP_INTERVIEW_PATHS
  }

  predicate EveryPath(paths: seq<string>, p: string -> bool) {
    forall i :: 0 <= i < |paths| ==> p(paths[i])
  }

  /** Non-empty, and every path of that kind. */
  predicate Only(paths: seq<string>, p: string -> bool) {
    paths != [] && EveryPath(paths, p)
  }

  /** The plan looks at affected packages: nothing escalates and the change is not confined to CI files. */
  predicate Broad(paths: seq<string>) {
    !Escalates(paths) && !Only(paths, IsGithub) && !Only(paths, IsWorkflowHarness)
  }

  predicate NeedsNativeRuntime(paths: seq<string>) {
    && !Only(paths, IsDeepInterview)
    && (AnyPath(paths, IsCodingAgentRuntime) || AnyPath(paths, IsUnscopedWrapper) || Escalates(paths))
  }

  // ---- Affected packages ----

  predicate IsTouched(paths: seq<string>, p: Package) {
    exists i :: 0 <= i < |paths| && Owns(p, paths[i])
  }

  function Touched(paths: seq<string>, packages: seq<Package>): seq<Package> {
    if packages == [] then []
    else
      var last := packages[|packages| - 1];
      Touched(paths, packages[..|packages| - 1]) + if IsTouched(paths, last) then [last] else []
  }

  /** What expandWithDependents returns for the touched packages. */
  ghost predicate IsAffected(paths: seq<string>, packages: seq<Package>, selected: map<Name, Package>) {
    var touched := Touched(paths, packages);
    LeastClosed(WorkspaceRelation(touched, packages), Names(touched), selected.Keys) && Selection(selected, touched, packages)
  }

  predicate HasTests(selected: map<Name, Package>) {
    exists n :: n in selected && selected[n].hasTest
  }

  function PackageKeys(p: Package, shards: nat): set<string> {
    If(p.hasCheck, {CheckKey(p.name)}) + If(p.hasTest, PackageTestKeys(p, shards))
  }

  function SelectedKeys(selected: map<Name, Package>, names: set<Name>, shards: nat): set<string>
    requires names <= selected.Keys
  {
    set n, k | n in names && k in PackageKeys(selected[n], shards) :: k
  }

  function AffectedKeys(selected: map<Name, Package>, shards: nat): set<string> {
    If(HasTests(selected), {NATIVE_LINUX}) + SelectedKeys(selected, selected.Keys, shards)
  }

  // ---- The plan ----

  const DEEP_INTERVIEW_KEYS: set<string> := {"deep-interview-definitions", "deep-interview-runtime"}

  function WorkspaceKeys(paths: seq<string>, packages: seq<Package>, shards: nat, selected: map<Name, Package>): set<string> {
    if Escalates(paths) then {"root-check", NATIVE_LINUX} + WorkspaceTestKeys(packages, shards)
    else If(Broad(paths), AffectedKeys(selected, shards) + If(AnyPath(paths, IsToolingScript), {"root-check"}))
  }

  function RuntimeKeys(paths: seq<string>): set<string> {
    If(NeedsNativeRuntime(paths), {NATIVE_BUILD, "cli-smoke"})
  }

  function SmokeKeys(paths: seq<string>): set<string> {
    If(AnyPath(paths, IsTabWorkerSmoke) || AnyPath(paths, IsInstall), {"install-methods"})
    + If(AnyPath(paths, IsSdkPackageSmoke), {"sdk-package-smoke"})
    + If(AnyPath(paths, IsRust), {"rust-check", "rust-test"})
  }

  function PublishKeys(paths: seq<string>): set<string> {
    If(AnyPath(paths, IsUnscopedWrapper), {"wrapper-version"}) + If(AnyPath(paths, IsReleasePublish), RELEASE_KEYS)
  }

  function SelfCheckKeys(paths: seq<string>): set<string> {
    If(AnyPath(paths, IsWorkflowHarness),
       {"affected-dry-run", "affected-selftest", "workflow-permissions"}
       + If(AnyPath(paths, IsWorkflow), {"workflow-yaml-parse"}))
  }

  function PushGateKeys(paths: seq<string>): set<string> {
    If(AnyPath(paths, IsEmbeddedDocsSource), {TestKey(EMBEDDED_DOCS_GATE_TEST), NATIVE_LINUX})
  }

  function PushKeys(paths: seq<string>, packages: seq<Package>, shards: nat, selected: map<Name, Package>): set<string> {
    if Only(paths, IsDeepInterview) then PushGateKeys(paths) + ({NATIVE_LINUX} + DEEP_INTERVIEW_KEYS)
    else
      PushGateKeys(paths) + RuntimeKeys(paths) + WorkspaceKeys(paths, packages, shards, selected) + SmokeKeys(paths)
      + PublishKeys(paths) + SelfCheckKeys(paths) + CanaryKeys(Relevant(paths))
  }

  // ---- The planner ----

  method FindTouchedPackages(paths: seq<string>, packages: seq<Package>) returns (touched: seq<Package>)
    ensures touched == Touched(paths, packages)
  {
    touched := [];
    for i := 0 to |packages|
      invariant touched == Touched(paths, packages[..i])
    {
      assert packages[..i + 1][..i] == packages[..i];
      if IsTouched(paths, packages[i]) {
        touched := touched + [packages[i]];
      }
    }
    assert packages[..|packages|] == packages;
  }

  /** The loop over the affected packages, in whatever order they are sorted. */
  method AddAffectedTasks(before: seq<Task>, selected: map<Name, Package>, shards: nat) returns (tasks: seq<Task>)
    requires Tidy(before)
    ensures Tidy(tasks) && Keys(tasks) == Keys(before) + AffectedKeys(selected, shards)
  {
    hide Keys, Tidy, PackageTestKeys, ToSet;
    tasks := before;
    if HasTests(selected) {
      tasks := AddKeys(tasks, [NATIVE_LINUX]);
      ToSetOne(NATIVE_LINUX);
    }
    var left := selected.Keys;
    ghost var start := Keys(tasks);
    while left != {}
      invariant left <= selected.Keys
      invariant Tidy(tasks) && Keys(tasks) == start + SelectedKeys(selected, selected.Keys - left, shards)
    {
      var n :| n in left;
      var p := selected[n];
      ghost var was := Keys(tasks);
      if p.hasCheck {
        tasks := AddKeys(tasks, [CheckKey(p.name)]);
        ToSetOne(CheckKey(p.name));
      }
      if p.hasTest {
        tasks := AddPackageTests(tasks, p, shards);
      }
      assert Keys(tasks) == was + PackageKeys(p, shards);
      SelectedStep(selected, selected.Keys - left, n, shards);
      assert selected.Keys - (left - {n}) == (selected.Keys - left) + {n};
      left := left - {n};
    }
    assert selected.Keys - left == selected.Keys;
  }

  lemma ToSetOne(x: string)
    ensures ToSet([x]) == {x}
  {
  }

  lemma SelectedStep(selected: map<Name, Package>, names: set<Name>, n: Name, shards: nat)
    requires names <= selected.Keys && n in selected
    ensures SelectedKeys(selected, names + {n}, shards)
         == SelectedKeys(selected, names, shards) + PackageKeys(selected[n], shards)
  {
    hide PackageKeys;
  }

  method AddSmokeTasks(before: seq<Task>, paths: seq<string>) returns (tasks: seq<Task>)
    requires Tidy(before)
    ensures Tidy(tasks) && Keys(tasks) == Keys(before) + SmokeKeys(paths)
  {
    hide Keys, Tidy, AnyPath, ToSet;
    tasks := before;
    if AnyPath(paths, IsTabWorkerSmoke) || AnyPath(paths, IsInstall) {
      tasks := AddKeys(tasks, ["install-methods"]);
      ToSetOne("install-methods");
    }
    if AnyPath(paths, IsSdkPackageSmoke) {
      tasks := AddKeys(tasks, ["sdk-package-smoke"]);
      ToSetOne("sdk-package-smoke");
    }
    if AnyPath(paths, IsRust) {
      tasks := AddKeys(tasks, ["rust-check", "rust-test"]);
      ToSetTwo("rust-check", "rust-test");
    }
  }

  method AddPublishTasks(before: seq<Task>, paths: seq<string>) returns (tasks: seq<Task>)
    requires Tidy(before)
    ensures Tidy(tasks) && Keys(tasks) == Keys(before) + PublishKeys(paths)
  {
    hide Keys, Tidy, AnyPath;
    tasks := before;
    if AnyPath(paths, IsUnscopedWrapper) {
      tasks := AddKeys(tasks, ["wrapper-version"]);
    }
    if AnyPath(paths, IsReleasePublish) {
      tasks := AddKeys(tasks, ["release-publish-contract", "release-publish-dry-run", "test:scripts/release-evidence.test.ts"]);
    }
  }

  method AddSelfChecks(before: seq<Task>, paths: seq<string>) returns (tasks: seq<Task>)
    requires Tidy(before)
    ensures Tidy(tasks) && Keys(tasks) == Keys(before) + SelfCheckKeys(paths)
  {
    hide Keys, Tidy, AnyPath;
    tasks := before;
    if AnyPath(paths, IsWorkflowHarness) {
      tasks := AddKeys(tasks, ["affected-dry-run", "affected-selftest", "workflow-permissions"]);
      if AnyPath(paths, IsWorkflow) {
        tasks := AddKeys(tasks, ["workflow-yaml-parse"]);
      }
    }
  }

  /** planTasks: its keys, over the packages its own worklist finds affected. */
  method PlanTasks(paths: seq<string>, packages: seq<Package>, shards: nat)
    returns (tasks: seq<Task>, selected: map<Name, Package>)
    ensures Tidy(tasks) && IsAffected(paths, packages, selected)
    ensures Keys(tasks) == PushKeys(paths, packages, shards, selected)
  {
    hide Keys, Tidy, AnyPath, EveryPath, Escalates, SmokeKeys, PublishKeys, SelfCheckKeys, AffectedKeys, WorkspaceTestKeys, CanariesOf,
      Relevant, NeedsNativeRuntime, TestKey, Touched, LeastClosed, WorkspaceRelation, Selection, ToSet;
    tasks := [];
    assert Keys(tasks) == {} && Tidy(tasks) by { NoTasks(); }
    if AnyPath(paths, IsEmbeddedDocsSource) {
      tasks := AddKeys(tasks, [TestKey(EMBEDDED_DOCS_GATE_TEST), NATIVE_LINUX]);
      ToSetTwo(TestKey(EMBEDDED_DOCS_GATE_TEST), NATIVE_LINUX);
    }
    assert Keys(tasks) == PushGateKeys(paths);
    var touched := FindTouchedPackages(paths, packages);
    selected := ExpandWithDependents(touched, packages);
    if Only(paths, IsDeepInterview) {
      tasks := AddKeys(tasks, [NATIVE_LINUX]);
      tasks := AddKeys(tasks, ["deep-interview-definitions", "deep-interview-runtime"]);
      ToSetOne(NATIVE_LINUX);
      ToSetTwo("deep-interview-definitions", "deep-interview-runtime");
      return;
    }
    if NeedsNativeRuntime(paths) {
      tasks := AddKeys(tasks, [NATIVE_BUILD, "cli-smoke"]);
      ToSetTwo(NATIVE_BUILD, "cli-smoke");
    }
    if Escalates(paths) {
      tasks := AddKeys(tasks, ["root-check", NATIVE_LINUX]);
      ToSetTwo("root-check", NATIVE_LINUX);
      tasks := AddWorkspaceTests(tasks, packages, shards);
    } else if Broad(paths) {
      tasks := AddAffectedTasks(tasks, selected, shards);
      if AnyPath(paths, IsToolingScript) {
        tasks := AddKeys(tasks, ["root-check"]);
        ToSetOne("root-check");
      }
    }
    assert Keys(tasks) == PushGateKeys(paths) + RuntimeKeys(paths) + WorkspaceKeys(paths, packages, shards, selected);
    tasks := AddSmokeTasks(tasks, paths);
    tasks := AddPublishTasks(tasks, paths);
    tasks := AddSelfChecks(tasks, paths);
    var relevant := FilterRelevant(paths);
    var canaries := SelectCanaryTestsFrom(relevant, RISK_CLASSES);
    CanariesWithinCap(relevant);
    tasks := AddCanaryTests(tasks, canaries.value);
  }

  lemma ToSetTwo(x: string, y: string)
    ensures ToSet([x, y]) == {x, y}
  {
  }
}

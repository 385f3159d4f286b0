/**
 * planTargetedTasks of scripts/ci-dev-affected.ts: what each changed path asks for and the plan
 * the source's loop builds from it.
 */
module AffectedPlan {
  import opened Lists
  import opened AffectedPaths
  import opened Dependents
  import Versions

  // ---- Tasks ----

  datatype Capabilities = Capabilities(rust: bool, nextest: bool, nativeConsumer: bool, nativeProducer: bool)

  datatype Task = Task(key: string, identity: Option<string>, capabilities: Option<Capabilities>)

  function Keys(tasks: seq<Task>): set<string> {
    set t | t in tasks :: t.key
  }

  predicate UniqueKeys(tasks: seq<Task>) {
    forall i, j :: 0 <= i < j < |tasks| ==> tasks[i].key != tasks[j].key
  }

  /** Tasks of the targeted planner carry no explicit capabilities. */
  predicate Plain(tasks: seq<Task>) {
    forall i :: 0 <= i < |tasks| ==> tasks[i].capabilities == None
  }

  /** The insertion-ordered map: a key is added once. */
  function Add(tasks: seq<Task>, key: string): seq<Task> {
    if key in Keys(tasks) then tasks else tasks + [Task(key, None, None)]
  }

  predicate Tidy(tasks: seq<Task>) {
    UniqueKeys(tasks) && Plain(tasks)
  }

  lemma AddKey(tasks: seq<Task>, key: string)
    ensures Keys(Add(tasks, key)) == Keys(tasks) + {key}
    ensures Tidy(tasks) ==> Tidy(Add(tasks, key))
  {
    if key !in Keys(tasks) {
      var added := tasks + [Task(key, None, None)];
      assert added[|tasks|] in added;
      forall k | k in Keys(tasks) ensures k in Keys(added) {
        var t :| t in tasks && t.key == k;
        assert t in added;
      }
      forall i | 0 <= i < |tasks| ensures tasks[i].key != key {
        assert tasks[i] in tasks;
      }
    }
  }

  const NATIVE_LINUX := "native-linux-x64"
  const NATIVE_BUILD := "native-build"

  predicate IsNativeBuildKey(key: string) {
    key == NATIVE_BUILD || key == NATIVE_LINUX
  }

  const NATIVE_CONSUMERS: seq<string> := [
    "python-test", "root-test", "root-test:release", "release-publish-contract", "root-check",
    "check:@gajae-code/coding-agent", "cli-smoke", "runtime-check", "wrapper-version",
    "deep-interview-definitions", "deep-interview-runtime", "sdk-package-smoke"]

  predicate NeedsNative(key: string) {
    key in NATIVE_CONSUMERS || StartsWith(key, "test:")
  }

  // ---- What one path asks for ----

  /** Everything the planner reads besides the changed paths. */
  datatype Workspace = Workspace(
    packages: seq<Package>,
    testFiles: seq<string>,
    existing: set<string>,
    validateTestPaths: bool,
    shards: nat,
    behavioral: map<string, seq<string>>)

  function TestKey(file: string): string {
    "test:" + file
  }

  function CheckKey(name: string): string {
    "check:" + name
  }

  /** Test files that become tasks: all of them, or only those on disk when paths are validated. */
  function TestKeys(w: Workspace, files: seq<string>): set<string> {
    set f | f in files && (!w.validateTestPaths || f in w.existing) :: TestKey(f)
  }

  predicate Owns(p: Package, path: string) {
    path == p.dir || StartsWith(path, p.dir + "/")
  }

  function OwningPackage(path: string, packages: seq<Package>): Option<Package> {
    if packages == [] then None
    else if Owns(packages[0], path) then Some(packages[0])
    else OwningPackage(path, packages[1..])
  }

  const SOURCE_EXTENSIONS: seq<string> := [".ts", ".tsx", ".js", ".jsx", ".mts", ".cts"]

  function StripExtension(name: string, extensions: seq<string>): string {
    if extensions == [] then name
    else if EndsWith(name, extensions[0]) then name[..|name| - |extensions[0]|]
    else StripExtension(name, extensions[1..])
  }

  function Filter(files: seq<string>, base: string, scope: string): seq<string> {
    if files == [] then []
    else
      var rest := Filter(files[1..], base, scope);
      if LastSegment(files[0]) in {base + ".test.ts", base + ".test.tsx"} && StartsWith(files[0], scope)
      then [files[0]] + rest
      else rest
  }

  /** The changed file itself if it is a known test, else the one test named after it in its scope. */
  function MappedTests(w: Workspace, path: string): seq<string> {
    if IsTestFile(path) then (if path in w.testFiles then [path] else [])
    else
      var base := StripExtension(LastSegment(path), SOURCE_EXTENSIONS);
      if base == "" then []
      else
        var owner := OwningPackage(path, w.packages);
        var scope := if owner.Some? then owner.value.dir + "/" else Directory(path) + "/";
        var matches := Filter(w.testFiles, base, scope);
        if |matches| == 1 then matches else []
  }

  function BehavioralTests(w: Workspace, path: string): seq<string> {
    if path in w.behavioral then w.behavioral[path] else []
  }

  const CODING_AGENT := "@gajae-code/coding-agent"

  function ShardKey(shard: nat, total: nat): string {
    "test:@gajae-code/coding-agent:shard-" + Versions.ToDecimal(shard) + "-of-" + Versions.ToDecimal(total)
  }

  const PRODUCTION_HOST_KEY := "test:" + "@gajae-code/coding-agent:sdk-production-host-isolated"

  const CI_KEYS: set<string> := {"ci-selftest", "ci-dry-run", "workflow-permissions"}
  const RELEASE_KEYS: set<string> :=
    {"release-publish-contract", "release-publish-dry-run", "test:scripts/release-evidence.test.ts"}

  function OwnerCheck(owner: Option<Package>): set<string> {
    if owner.Some? && owner.value.hasCheck then {CheckKey(owner.value.name)} else {}
  }

  function If(condition: bool, keys: set<string>): set<string> {
    if condition then keys else {}
  }

  /** A path nothing maps to falls back to its package's check, or to the root check. */
  function FallbackKeys(w: Workspace, path: string): set<string> {
    var owner := OwningPackage(path, w.packages);
    if owner.Some? then
      OwnerCheck(owner) + If(IsCodingAgentRuntime(path), {"cli-smoke"}) + If(IsUnscopedWrapper(path), {"wrapper-version"})
    else If(IsCodeIsh(path), {"root-check"})
  }

  function ReleaseKeys(path: string): set<string> {
    If(IsReleasePublish(path), RELEASE_KEYS + If(IsUnscopedWrapper(path), {"wrapper-version"}))
  }

  function SdkKeys(w: Workspace, path: string): set<string> {
    If(IsSdkPackageSmoke(path), {"sdk-package-smoke"} + OwnerCheck(OwningPackage(path, w.packages)))
  }

  function CodeKeys(w: Workspace, path: string): set<string> {
    ReleaseKeys(path) + SdkKeys(w, path)
    + TestKeys(w, MappedTests(w, path)) + TestKeys(w, BehavioralTests(w, path))
    + If(IsShardOneCoverage(path), {ShardKey(1, w.shards), PRODUCTION_HOST_KEY})
    + If(MappedTests(w, path) == [], FallbackKeys(w, path))
  }

  function PathKeys(w: Workspace, path: string): set<string> {
    if IsFullWorkspace(path) then {}
    else if IsWorkflow(path) then {"yaml-parse"} + CI_KEYS
    else if IsCiHarnessScript(path) then CI_KEYS
    else if IsRust(path) then {"rust-check", "rust-test"} + TestKeys(w, BehavioralTests(w, path))
    else if IsInstall(path) then {"install-methods"}
    else CodeKeys(w, path)
  }

  // ---- What a whole change asks for ----

  function PackageTestKeys(p: Package, shards: nat): set<string> {
    if p.name != CODING_AGENT then {TestKey(p.name)}
    else (set i | 1 <= i <= shards :: ShardKey(i, shards)) + {PRODUCTION_HOST_KEY}
  }

  function WorkspaceTestKeys(packages: seq<Package>, shards: nat): set<string> {
    if packages == [] then {"root-test:release"}
    else
      WorkspaceTestKeys(packages[..|packages| - 1], shards)
      + If(packages[|packages| - 1].hasTest, PackageTestKeys(packages[|packages| - 1], shards))
  }

  function FullKeys(w: Workspace): set<string> {
    {"root-check", NATIVE_LINUX} + WorkspaceTestKeys(w.packages, w.shards)
  }

  predicate ReleaseHarnessAllowed(path: string) {
    path == "package.json" || IsReleasePublish(path) || IsReleaseHarnessScript(path) || IsUnscopedWrapper(path)
  }

  predicate ReleaseHarnessOnly(paths: seq<string>) {
    "package.json" in paths && forall i :: 0 <= i < |paths| ==> ReleaseHarnessAllowed(paths[i])
  }

  predicate AnyPath(paths: seq<string>, p: string -> bool) {
    exists i :: 0 <= i < |paths| && p(paths[i])
  }

  predicate Escalates(relevant: seq<string>) {
    AnyPath(relevant, IsFullWorkspace) && !ReleaseHarnessOnly(relevant)
  }

  function Relevant(paths: seq<string>): seq<string> {
    if paths == [] then []
    else Relevant(paths[..|paths| - 1]) + if IsDocOrChangelog(paths[|paths| - 1]) then [] else [paths[|paths| - 1]]
  }

  function AllPathKeys(w: Workspace, paths: seq<string>): set<string> {
    if paths == [] then {} else AllPathKeys(w, paths[..|paths| - 1]) + PathKeys(w, paths[|paths| - 1])
  }

  function GateKeys(paths: seq<string>): set<string> {
    If(AnyPath(paths, IsEmbeddedDocsSource), {TestKey(EMBEDDED_DOCS_GATE_TEST)})
  }

  function CanaryKeys(relevant: seq<string>): set<string> {
    set c | c in CanariesOf(relevant, RISK_CLASSES) :: TestKey(c)
  }

  /** Everything asked for before the native build is considered. */
  function RequestedKeys(w: Workspace, paths: seq<string>): set<string> {
    var relevant := Relevant(paths);
    if relevant == [] then GateKeys(paths)
    else
      GateKeys(paths) + If(Escalates(relevant), FullKeys(w)) + AllPathKeys(w, relevant)
      + If(AnyPath(relevant, IsTabWorkerSmoke), {"install-methods"}) + CanaryKeys(relevant)
  }

  predicate NativeMissing(keys: set<string>) {
    (exists k :: k in keys && NeedsNative(k)) && !(exists k :: k in keys && IsNativeBuildKey(k))
  }

  function WithNativeBuild(keys: set<string>): set<string> {
    keys + If(NativeMissing(keys), {NATIVE_LINUX})
  }

  function PlanKeys(w: Workspace, paths: seq<string>): set<string> {
    WithNativeBuild(RequestedKeys(w, paths))
  }

  // ---- The planner's loops ----

  method AddKeys(before: seq<Task>, keys: seq<string>) returns (tasks: seq<Task>)
    requires Tidy(before)
    ensures Tidy(tasks) && Keys(tasks) == Keys(before) + ToSet(keys)
  {
    hide Keys, Tidy, Add;
    tasks := before;
    for i := 0 to |keys|
      invariant Tidy(tasks) && Keys(tasks) == Keys(before) + ToSet(keys[..i])
    {
      assert keys[..i + 1] == keys[..i] + [keys[i]];
      ToSetAppend(keys[..i], keys[i]);
      AddKey(tasks, keys[i]);
      tasks := Add(tasks, keys[i]);
    }
    assert keys[..|keys|] == keys;
  }

  method AddTestFiles(w: Workspace, before: seq<Task>, files: seq<string>) returns (tasks: seq<Task>)
    requires Tidy(before)
    ensures Tidy(tasks) && Keys(tasks) == Keys(before) + TestKeys(w, files)
  {
    hide Keys, Tidy, Add, TestKey;
    tasks := before;
    for i := 0 to |files|
      invariant Tidy(tasks) && Keys(tasks) == Keys(before) + TestKeys(w, files[..i])
    {
      assert files[..i + 1] == files[..i] + [files[i]];
      TestKeysAppend(w, files[..i], files[i]);
      if !w.validateTestPaths || files[i] in w.existing {
        AddKey(tasks, TestKey(files[i]));
        tasks := Add(tasks, TestKey(files[i]));
      }
    }
    assert files[..|files|] == files;
  }

  lemma TestKeysAppend(w: Workspace, files: seq<string>, f: string)
    ensures TestKeys(w, files + [f])
         == TestKeys(w, files) + If(!w.validateTestPaths || f in w.existing, {TestKey(f)})
  {
    hide TestKey;
    assert f in files + [f];
    forall k | k in TestKeys(w, files) ensures k in TestKeys(w, files + [f]) {
      var g :| g in files && (!w.validateTestPaths || g in w.existing) && TestKey(g) == k;
      assert g in files + [f];
    }
  }

  method AddPackageTests(before: seq<Task>, p: Package, shards: nat) returns (tasks: seq<Task>)
    requires Tidy(before)
    ensures Tidy(tasks) && Keys(tasks) == Keys(before) + PackageTestKeys(p, shards)
  {
    hide Keys, Tidy, Add, ShardKey;
    if p.name != CODING_AGENT {
      AddKey(before, TestKey(p.name));
      return Add(before, TestKey(p.name));
    }
    tasks := before;
    var shard := 1;
    while shard <= shards
      invariant 1 <= shard <= shards + 1
      invariant Tidy(tasks) && Keys(tasks) == Keys(before) + set i | 1 <= i < shard :: ShardKey(i, shards)
    {
      AddKey(tasks, ShardKey(shard, shards));
      tasks := Add(tasks, ShardKey(shard, shards));
      shard := shard + 1;
    }
    AddKey(tasks, PRODUCTION_HOST_KEY);
    tasks := Add(tasks, PRODUCTION_HOST_KEY);
  }

  method AddWorkspaceTests(before: seq<Task>, packages: seq<Package>, shards: nat) returns (tasks: seq<Task>)
    requires Tidy(before)
    ensures Tidy(tasks) && Keys(tasks) == Keys(before) + WorkspaceTestKeys(packages, shards)
  {
    hide Keys, Tidy, Add, PackageTestKeys;
    AddKey(before, "root-test:release");
    tasks := Add(before, "root-test:release");
    for i := 0 to |packages|
      invariant Tidy(tasks) && Keys(tasks) == Keys(before) + WorkspaceTestKeys(packages[..i], shards)
    {
      assert packages[..i + 1][..i] == packages[..i];
      if packages[i].hasTest {
        tasks := AddPackageTests(tasks, packages[i], shards);
      }
    }
    assert packages[..|packages|] == packages;
  }

  method AddReleaseTasks(before: seq<Task>, path: string) returns (tasks: seq<Task>)
    requires Tidy(before)
    ensures Tidy(tasks) && Keys(tasks) == Keys(before) + ReleaseKeys(path)
  {
    hide Keys, Tidy, IsReleasePublish, IsUnscopedWrapper;
    tasks := before;
    if IsReleasePublish(path) {
      tasks := AddKeys(tasks, ["release-publish-contract", "release-publish-dry-run", "test:scripts/release-evidence.test.ts"]);
      if IsUnscopedWrapper(path) {
        tasks := AddKeys(tasks, ["wrapper-version"]);
      }
    }
  }

  method AddSdkTasks(w: Workspace, before: seq<Task>, path: string) returns (tasks: seq<Task>)
    requires Tidy(before)
    ensures Tidy(tasks) && Keys(tasks) == Keys(before) + SdkKeys(w, path)
  {
    hide Keys, Tidy, OwningPackage, IsSdkPackageSmoke;
    tasks := before;
    if IsSdkPackageSmoke(path) {
      tasks := AddKeys(tasks, ["sdk-package-smoke"]);
      var owner := OwningPackage(path, w.packages);
      if owner.Some? && owner.value.hasCheck {
        tasks := AddKeys(tasks, [CheckKey(owner.value.name)]);
      }
    }
  }

  /** The ordinary branch of the loop body. */
  method AddCodeTasks(w: Workspace, before: seq<Task>, path: string) returns (tasks: seq<Task>)
    requires Tidy(before)
    ensures Tidy(tasks) && Keys(tasks) == Keys(before) + CodeKeys(w, path)
  {
    hide Keys, Tidy, MappedTests, BehavioralTests, TestKeys, ShardKey, IsShardOneCoverage, FallbackKeys, ReleaseKeys, SdkKeys;
    tasks := AddReleaseTasks(before, path);
    tasks := AddSdkTasks(w, tasks, path);
    var mapped := MappedTests(w, path);
    tasks := AddTestFiles(w, tasks, mapped);
    tasks := AddTestFiles(w, tasks, BehavioralTests(w, path));
    if IsShardOneCoverage(path) {
      tasks := AddKeys(tasks, [ShardKey(1, w.shards), PRODUCTION_HOST_KEY]);
    }
    if mapped == [] {
      tasks := AddFallbackTasks(w, tasks, path);
    }
  }

  method AddFallbackTasks(w: Workspace, before: seq<Task>, path: string) returns (tasks: seq<Task>)
    requires Tidy(before)
    ensures Tidy(tasks) && Keys(tasks) == Keys(before) + FallbackKeys(w, path)
  {
    hide Keys, Tidy, OwningPackage, IsUnscopedWrapper, IsCodeIsh, IsCodingAgentRuntime;
    tasks := before;
    var owner := OwningPackage(path, w.packages);
    if owner.Some? {
      if owner.value.hasCheck {
        tasks := AddKeys(tasks, [CheckKey(owner.value.name)]);
      }
      if IsCodingAgentRuntime(path) {
        tasks := AddKeys(tasks, ["cli-smoke"]);
      }
      if IsUnscopedWrapper(path) {
        tasks := AddKeys(tasks, ["wrapper-version"]);
      }
    } else if IsCodeIsh(path) {
      tasks := AddKeys(tasks, ["root-check"]);
    }
  }

  method AddRustTasks(w: Workspace, before: seq<Task>, path: string) returns (tasks: seq<Task>)
    requires Tidy(before)
    ensures Tidy(tasks) && Keys(tasks) == Keys(before) + {"rust-check", "rust-test"} + TestKeys(w, BehavioralTests(w, path))
  {
    hide Keys, Tidy, BehavioralTests, TestKeys;
    tasks := AddKeys(before, ["rust-check", "rust-test"]);
    tasks := AddTestFiles(w, tasks, BehavioralTests(w, path));
  }

  /** What the three flags of the loop stand for once it is over. */
  function FlagKeys(selftest: bool, yaml: bool, permissions: bool): set<string> {
    If(selftest, {"ci-selftest", "ci-dry-run"}) + If(yaml, {"yaml-parse"}) + If(permissions, {"workflow-permissions"})
  }

  method AddFlagged(before: seq<Task>, selftest: bool, yaml: bool, permissions: bool) returns (tasks: seq<Task>)
    requires Tidy(before)
    ensures Tidy(tasks) && Keys(tasks) == Keys(before) + FlagKeys(selftest, yaml, permissions)
  {
    hide Keys, Tidy;
    tasks := before;
    if selftest {
      tasks := AddKeys(tasks, ["ci-selftest", "ci-dry-run"]);
    }
    if yaml {
      tasks := AddKeys(tasks, ["yaml-parse"]);
    }
    if permissions {
      tasks := AddKeys(tasks, ["workflow-permissions"]);
    }
  }

  /** The loop over the relevant paths: tasks now, and three flags to be settled after it. */
  method AddPathTasks(w: Workspace, before: seq<Task>, relevant: seq<string>)
    returns (tasks: seq<Task>, selftest: bool, yaml: bool, permissions: bool)
    requires Tidy(before)
    ensures Tidy(tasks)
    ensures Keys(tasks) + FlagKeys(selftest, yaml, permissions) == Keys(before) + AllPathKeys(w, relevant)
  {
    hide Keys, Tidy, BehavioralTests, TestKeys, CodeKeys, IsFullWorkspace, IsWorkflow, IsCiHarnessScript, IsRust, IsInstall;
    tasks, selftest, yaml, permissions := before, false, false, false;
    for i := 0 to |relevant|
      invariant Tidy(tasks)
      invariant Keys(tasks) + FlagKeys(selftest, yaml, permissions) == Keys(before) + AllPathKeys(w, relevant[..i])
    {
      var path := relevant[i];
      assert relevant[..i + 1][..i] == relevant[..i];
      assert AllPathKeys(w, relevant[..i + 1]) == AllPathKeys(w, relevant[..i]) + PathKeys(w, path);
      ghost var was := Keys(tasks) + FlagKeys(selftest, yaml, permissions);
      if IsFullWorkspace(path) {
      } else if IsWorkflow(path) {
        yaml, selftest, permissions := true, true, true;
      } else if IsCiHarnessScript(path) {
        selftest, permissions := true, true;
      } else if IsRust(path) {
        tasks := AddRustTasks(w, tasks, path);
      } else if IsInstall(path) {
        tasks := AddKeys(tasks, ["install-methods"]);
      } else {
        tasks := AddCodeTasks(w, tasks, path);
      }
      assert Keys(tasks) + FlagKeys(selftest, yaml, permissions) == was + PathKeys(w, path);
    }
    assert relevant[..|relevant|] == relevant;
  }

  method EnsureNativeBuild(before: seq<Task>) returns (tasks: seq<Task>)
    requires Tidy(before)
    ensures Tidy(tasks) && Keys(tasks) == WithNativeBuild(Keys(before))
  {
    hide NeedsNative, Tidy, Keys, Add;
    var consumer, producer := false, false;
    for i := 0 to |before|
      invariant consumer <==> exists j :: 0 <= j < i && NeedsNative(before[j].key)
      invariant producer <==> exists j :: 0 <= j < i && IsNativeBuildKey(before[j].key)
    {
      consumer := consumer || NeedsNative(before[i].key);
      producer := producer || IsNativeBuildKey(before[i].key);
    }
    KeysByIndex(before);
    assert consumer && !producer <==> NativeMissing(Keys(before));
    tasks := before;
    if consumer && !producer {
      AddKey(tasks, NATIVE_LINUX);
      tasks := Add(tasks, NATIVE_LINUX);
    }
  }

  lemma KeysByIndex(tasks: seq<Task>)
    ensures forall j :: 0 <= j < |tasks| ==> tasks[j].key in Keys(tasks)
    ensures forall k :: k in Keys(tasks) ==> exists j :: 0 <= j < |tasks| && tasks[j].key == k
  {
    forall k | k in Keys(tasks) ensures exists j :: 0 <= j < |tasks| && tasks[j].key == k {
      var t :| t in tasks && t.key == k;
      var j :| 0 <= j < |tasks| && tasks[j] == t;
    }
  }

  method FilterRelevant(paths: seq<string>) returns (relevant: seq<string>)
    ensures relevant == Relevant(paths)
  {
    hide IsDocOrChangelog;
    relevant := [];
    for i := 0 to |paths|
      invariant relevant == Relevant(paths[..i])
    {
      assert paths[..i + 1][..i] == paths[..i];
      if !IsDocOrChangelog(paths[i]) {
        relevant := relevant + [paths[i]];
      }
    }
    assert paths[..|paths|] == paths;
  }

  /** The canary loop at the end, over canaries in whatever order the selector hands them out. */
  method AddCanaryTests(before: seq<Task>, canaries: set<string>) returns (tasks: seq<Task>)
    requires Tidy(before)
    ensures Tidy(tasks) && Keys(tasks) == Keys(before) + set c | c in canaries :: TestKey(c)
  {
    hide Keys, Tidy, Add, TestKey;
    tasks := before;
    var left := canaries;
    while left != {}
      invariant left <= canaries
      invariant Tidy(tasks) && Keys(tasks) == Keys(before) + set c | c in canaries - left :: TestKey(c)
    {
      var canary :| canary in left;
      assert canaries - (left - {canary}) == (canaries - left) + {canary};
      AddKey(tasks, TestKey(canary));
      tasks := Add(tasks, TestKey(canary));
      left := left - {canary};
    }
    assert canaries - left == canaries;
  }

  /** The whole planner. Its keys are exactly the union of what the paths ask for, closed under the native build. */
  method PlanTargetedTasks(w: Workspace, paths: seq<string>) returns (tasks: seq<Task>)
    ensures Tidy(tasks)
    ensures Keys(tasks) == PlanKeys(w, paths)
  {
    hide Keys, Tidy, Relevant, AllPathKeys, CanariesOf, WithNativeBuild, IsEmbeddedDocsSource, IsTabWorkerSmoke,
      Escalates, WorkspaceTestKeys, AnyPath, FlagKeys, TestKey;
    tasks := [];
    assert Keys(tasks) == {} && Tidy(tasks) by { NoTasks(); }
    var relevant := FilterRelevant(paths);
    if AnyPath(paths, IsEmbeddedDocsSource) {
      tasks := AddKeys(tasks, [TestKey(EMBEDDED_DOCS_GATE_TEST)]);
    }
    assert Keys(tasks) == GateKeys(paths);
    if relevant == [] {
      tasks := EnsureNativeBuild(tasks);
      return;
    }
    if Escalates(relevant) {
      tasks := AddKeys(tasks, ["root-check", NATIVE_LINUX]);
      tasks := AddWorkspaceTests(tasks, w.packages, w.shards);
    }
    assert Keys(tasks) == GateKeys(paths) + If(Escalates(relevant), FullKeys(w));
    var selftest, yaml, permissions;
    tasks, selftest, yaml, permissions := AddPathTasks(w, tasks, relevant);
    if AnyPath(relevant, IsTabWorkerSmoke) {
      tasks := AddKeys(tasks, ["install-methods"]);
    }
    tasks := AddFlagged(tasks, selftest, yaml, permissions);
    var canaries := SelectCanaryTestsFrom(relevant, RISK_CLASSES);
    CanariesWithinCap(relevant);
    tasks := AddCanaryTests(tasks, canaries.value);
    assert Keys(tasks) == RequestedKeys(w, paths);
    tasks := EnsureNativeBuild(tasks);
  }

  lemma NoTasks()
    ensures Keys([]) == {} && Tidy([])
  {
  }
}

/**
 * When a push plan of scripts/ci-dev-affected.ts, and the plan resolvePlannedTasks makes of it, builds
 * the native addon its tasks load; which packages it counts as affected; and that no key comes twice.
 */
module PushTheorems {
  import opened AffectedPaths
  import opened Dependents
  import opened AffectedPlan
  import opened AffectedTheorems
  import opened BuildPass
  import opened PushPlan

  // ---- Which keys build the addon ----

  /** The guards under which planTasks adds a native build. */
  predicate Producing(paths: seq<string>, selected: map<Name, Package>) {
    || AnyPath(paths, IsEmbeddedDocsSource)
    || Only(paths, IsDeepInterview)
    || NeedsNativeRuntime(paths)
    || Escalates(paths)
    || (Broad(paths) && HasTests(selected))
  }

  /** The guards under which it adds a task that loads the addon and none of those need hold. */
  predicate Loading(paths: seq<string>, selected: map<Name, Package>) {
    || (Broad(paths) && AnyPath(paths, IsToolingScript))
    || AnyPath(paths, IsReleasePublish)
    || CanariesOf(Relevant(paths), RISK_CLASSES) != {}
    || (Broad(paths) && CODING_AGENT in selected && selected[CODING_AGENT].hasCheck)
  }

  predicate NoneNative(keys: set<string>) {
    forall k :: k in keys ==> !IsNativeBuildKey(k)
  }

  lemma NotNative(key: string)
    requires |key| >= 2 && key[0] != 'n'
    ensures !IsNativeBuildKey(key)
  {
    assert NATIVE_BUILD[0] == 'n' && NATIVE_LINUX[0] == 'n';
  }

  lemma PrefixedNotNative(rest: string)
    ensures !IsNativeBuildKey(TestKey(rest)) && !IsNativeBuildKey(CheckKey(rest))
  {
    hide IsNativeBuildKey;
    assert TestKey(rest)[0] == 't' && CheckKey(rest)[0] == 'c';
    NotNative(TestKey(rest));
    NotNative(CheckKey(rest));
  }

  lemma ShardNotNative(shard: nat, total: nat)
    ensures !IsNativeBuildKey(ShardKey(shard, total)) && !IsNativeBuildKey(PRODUCTION_HOST_KEY)
  {
    hide IsNativeBuildKey, Versions.ToDecimal;
    assert ShardKey(shard, total)[0] == 't';
    NotNative(ShardKey(shard, total));
    PrefixedNotNative("@gajae-code/coding-agent:sdk-production-host-isolated");
    assert PRODUCTION_HOST_KEY == TestKey("@gajae-code/coding-agent:sdk-production-host-isolated");
  }

  lemma PackageKeysNotNative(p: Package, shards: nat)
    ensures NoneNative(PackageKeys(p, shards))
  {
    hide IsNativeBuildKey, ShardKey, TestKey, CheckKey;
    PrefixedNotNative(p.name);
    ShardNotNative(1, shards);
    forall k | k in PackageTestKeys(p, shards) ensures !IsNativeBuildKey(k) {
      if i :| 1 <= i <= shards && k == ShardKey(i, shards) {
        ShardNotNative(i, shards);
      }
    }
  }

  lemma SmokeNotNative(paths: seq<string>)
    ensures NoneNative(SmokeKeys(paths))
  {
    hide IsNativeBuildKey, AnyPath;
    NotNative("install-methods");
    NotNative("sdk-package-smoke");
    NotNative("rust-check");
    NotNative("rust-test");
  }

  lemma PublishNotNative(paths: seq<string>)
    ensures NoneNative(PublishKeys(paths))
  {
    hide IsNativeBuildKey, AnyPath;
    NotNative("wrapper-version");
    NotNative("release-publish-contract");
    NotNative("release-publish-dry-run");
    NotNative("test:scripts/release-evidence.test.ts");
  }

  lemma SelfChecksNotNative(paths: seq<string>)
    ensures NoneNative(SelfCheckKeys(paths))
  {
    hide IsNativeBuildKey, AnyPath;
    NotNative("affected-dry-run");
    NotNative("affected-selftest");
    NotNative("workflow-permissions");
    NotNative("workflow-yaml-parse");
  }

  lemma CanariesNotNative(relevant: seq<string>)
    ensures NoneNative(CanaryKeys(relevant))
  {
    hide IsNativeBuildKey, TestKey, CanariesOf;
    forall k | k in CanaryKeys(relevant) ensures !IsNativeBuildKey(k) {
      var c :| c in CanariesOf(relevant, RISK_CLASSES) && k == TestKey(c);
      PrefixedNotNative(c);
    }
  }

  lemma SelectedNotNative(selected: map<Name, Package>, shards: nat)
    ensures NoneNative(SelectedKeys(selected, selected.Keys, shards))
  {
    hide IsNativeBuildKey, PackageKeys;
    forall k | k in SelectedKeys(selected, selected.Keys, shards) ensures !IsNativeBuildKey(k) {
      var n :| n in selected && k in PackageKeys(selected[n], shards);
      PackageKeysNotNative(selected[n], shards);
    }
  }

  predicate HasNative(keys: set<string>) {
    NATIVE_BUILD in keys || NATIVE_LINUX in keys
  }

  /** The native flag that gates the toolchain setup is set exactly under those guards. */
  lemma NativeFlagIs(paths: seq<string>, packages: seq<Package>, shards: nat, selected: map<Name, Package>)
    ensures HasNative(PushKeys(paths, packages, shards, selected)) <==> Producing(paths, selected)
  {
    hide AnyPath, EveryPath, Escalates, Broad, NeedsNativeRuntime, Relevant, CanariesOf, WorkspaceTestKeys, SmokeKeys, PublishKeys,
      SelfCheckKeys, CanaryKeys, HasTests, SelectedKeys, TestKey, Only;
    SmokeNotNative(paths);
    PublishNotNative(paths);
    SelfChecksNotNative(paths);
    CanariesNotNative(Relevant(paths));
    SelectedNotNative(selected, shards);
    PrefixedNotNative(EMBEDDED_DOCS_GATE_TEST);
    assert IsNativeBuildKey(NATIVE_BUILD) && IsNativeBuildKey(NATIVE_LINUX);
    NotNative("root-check");
    NotNative("cli-smoke");
    NotNative("deep-interview-definitions");
    NotNative("deep-interview-runtime");
  }

  // ---- Which keys load it ----

  predicate NoneLoads(keys: set<string>) {
    forall k :: k in keys ==> !NeedsNative(k)
  }

  /** No key of a consumer begins like these. */
  lemma LoadsNothing(key: string)
    requires |key| >= 3 && (key[0], key[1]) in {('i', 'n'), ('a', 'f'), ('w', 'o'), ('r', 'u')} && key[2] != 'n'
    ensures !NeedsNative(key)
  {
    assert key[0] != 't' && "test:"[0] == 't';
    assert forall i :: 0 <= i < |NATIVE_CONSUMERS| ==>
      (NATIVE_CONSUMERS[i][0], NATIVE_CONSUMERS[i][1]) in
        {('p', 'y'), ('r', 'o'), ('r', 'e'), ('c', 'h'), ('c', 'l'), ('r', 'u'), ('w', 'r'), ('d', 'e'), ('s', 'd')}
      && (NATIVE_CONSUMERS[i][1] == 'u' ==> NATIVE_CONSUMERS[i][2] == 'n');
  }

  lemma CheckLoads(name: string)
    ensures NeedsNative(CheckKey(name)) <==> name == CODING_AGENT
  {
    var key, agent := CheckKey(name), "check:@gajae-code/coding-agent";
    assert key[0] == 'c' && key[1] == 'h' && "test:"[0] == 't';
    assert forall i :: 0 <= i < |NATIVE_CONSUMERS| ==>
      (NATIVE_CONSUMERS[i][0] == 'c' && NATIVE_CONSUMERS[i][1] == 'h' <==> i == 5);
    assert NATIVE_CONSUMERS[5] == agent;
    AgentCheckKey();
    assert key[6..] == name && agent[6..] == CODING_AGENT;
    if name == CODING_AGENT {
      assert NATIVE_CONSUMERS[5] in NATIVE_CONSUMERS;
    }
  }

  lemma AgentCheckKey()
    ensures CheckKey(CODING_AGENT) == "check:@gajae-code/coding-agent"
  {
  }

  lemma TestLoads(file: string)
    ensures NeedsNative(TestKey(file))
  {
    assert "test:" <= TestKey(file);
  }

  /** An SDK client path or a wrapper path is a runtime path, so it brings a native build. */
  lemma RuntimePathsProduce(paths: seq<string>, selected: map<Name, Package>)
    requires AnyPath(paths, IsSdkPackageSmoke) || AnyPath(paths, IsUnscopedWrapper)
    ensures Producing(paths, selected)
  {
    hide Escalates, Only, Broad, HasTests, IsEmbeddedDocsSource;
    if i :| 0 <= i < |paths| && IsSdkPackageSmoke(paths[i]) {
      SdkIsRuntime(paths[i]);
      assert AnyPath(paths, IsCodingAgentRuntime);
    }
  }

  lemma SdkIsRuntime(path: string)
    requires IsSdkPackageSmoke(path)
    ensures IsCodingAgentRuntime(path)
  {
    var prefixes := ["packages/coding-agent/", "packages/agent/", "packages/ai/"];
    assert prefixes[0] <= "packages/coding-agent/src/sdk/client/";
    assert StartsWith(path, prefixes[0]);
  }

  /** Without tests, affected packages load the addon only through the coding agent's own check. */
  lemma SelectedLoads(selected: map<Name, Package>, shards: nat)
    requires !HasTests(selected) && forall n :: n in selected ==> selected[n].name == n
    ensures (exists k :: k in SelectedKeys(selected, selected.Keys, shards) && NeedsNative(k))
       <==> CODING_AGENT in selected && selected[CODING_AGENT].hasCheck
  {
    hide NeedsNative, CheckKey;
    if k :| k in SelectedKeys(selected, selected.Keys, shards) && NeedsNative(k) {
      var n :| n in selected && k in PackageKeys(selected[n], shards);
      assert k == CheckKey(n);
      CheckLoads(n);
    }
    if CODING_AGENT in selected && selected[CODING_AGENT].hasCheck {
      var k := CheckKey(CODING_AGENT);
      CheckLoads(CODING_AGENT);
      assert k in PackageKeys(selected[CODING_AGENT], shards);
      assert k in SelectedKeys(selected, selected.Keys, shards);
    }
  }

  lemma SelfChecksLoadNothing(paths: seq<string>)
    ensures NoneLoads(SelfCheckKeys(paths))
  {
    hide NeedsNative, AnyPath;
    LoadsNothing("affected-dry-run");
    LoadsNothing("affected-selftest");
    LoadsNothing("workflow-permissions");
    LoadsNothing("workflow-yaml-parse");
  }

  lemma SmokeLoadsNothing(paths: seq<string>)
    requires !AnyPath(paths, IsSdkPackageSmoke)
    ensures NoneLoads(SmokeKeys(paths))
  {
    hide NeedsNative, AnyPath;
    assert "install-methods"[2] == 's';
    LoadsNothing("install-methods");
    LoadsNothing("rust-check");
    LoadsNothing("rust-test");
  }

  lemma ConsumersLoad(relevant: seq<string>)
    ensures NeedsNative("root-check") && NeedsNative("release-publish-contract")
    ensures CanariesOf(relevant, RISK_CLASSES) != {} <==> exists k :: k in CanaryKeys(relevant) && NeedsNative(k)
  {
    hide CanariesOf, TestKey;
    assert NATIVE_CONSUMERS[4] == "root-check" && NATIVE_CONSUMERS[3] == "release-publish-contract";
    if CanariesOf(relevant, RISK_CLASSES) != {} {
      var c :| c in CanariesOf(relevant, RISK_CLASSES);
      TestLoads(c);
      assert TestKey(c) in CanaryKeys(relevant);
    }
  }

  lemma UnproducedLoads(paths: seq<string>, packages: seq<Package>, shards: nat, selected: map<Name, Package>)
    requires !Producing(paths, selected) && forall n :: n in selected ==> selected[n].name == n
    ensures (exists k :: k in PushKeys(paths, packages, shards, selected) && NeedsNative(k)) <==> Loading(paths, selected)
  {
    hide AnyPath, EveryPath, Escalates, Broad, NeedsNativeRuntime, Relevant, CanariesOf, WorkspaceTestKeys, SmokeKeys,
      SelfCheckKeys, CanaryKeys, HasTests, SelectedKeys, TestKey, Only, NeedsNative;
    if AnyPath(paths, IsSdkPackageSmoke) || AnyPath(paths, IsUnscopedWrapper) {
      RuntimePathsProduce(paths, selected);
    }
    SmokeLoadsNothing(paths);
    SelfChecksLoadNothing(paths);
    ConsumersLoad(Relevant(paths));
    if !HasTests(selected) {
      SelectedLoads(selected, shards);
    }
    var keys := PushKeys(paths, packages, shards, selected);
    assert CanaryKeys(Relevant(paths)) <= keys && PublishKeys(paths) <= keys;
    if AnyPath(paths, IsReleasePublish) {
      assert "release-publish-contract" in keys;
    }
    if Broad(paths) {
      assert SelectedKeys(selected, selected.Keys, shards) <= keys;
    }
  }

  /** Before the build pass, a push plan builds what its tasks load exactly under these guards. */
  lemma PushSupply(paths: seq<string>, packages: seq<Package>, shards: nat, selected: map<Name, Package>)
    requires forall n :: n in selected ==> selected[n].name == n
    ensures SuppliedKeys(PushKeys(paths, packages, shards, selected)) <==> Producing(paths, selected) || !Loading(paths, selected)
  {
    hide Producing, Loading, PushKeys, NeedsNative;
    var keys := PushKeys(paths, packages, shards, selected);
    NativeFlagIs(paths, packages, shards, selected);
    assert HasNative(keys) <==> exists k :: k in keys && IsNativeBuildKey(k) by {
      if HasNative(keys) {
        assert IsNativeBuildKey(if NATIVE_BUILD in keys then NATIVE_BUILD else NATIVE_LINUX);
      }
    }
    if !Producing(paths, selected) {
      UnproducedLoads(paths, packages, shards, selected);
    }
  }

  // ---- The plan that is used ----

  /** resolvePlannedTasks past its early exits: documentation alone skips the build pass. */
  function Resolve(
    paths: seq<string>, legacy: seq<Task>, ts: seq<TsUnit>, selection: CargoSelection, inventory: seq<CargoUnit>): seq<Task>
  {
    if Only(paths, IsDocOrChangelog) then legacy else AppendBuildTasks(legacy, ts, selection, inventory)
  }

  /** In pull-request mode the resolved plan always builds what its tasks load. */
  lemma ResolvedTargetedIsSupplied(
    w: Workspace, paths: seq<string>, legacy: seq<Task>, ts: seq<TsUnit>, selection: CargoSelection, inventory: seq<CargoUnit>)
    requires Plain(legacy) && Keys(legacy) == PlanKeys(w, paths)
    ensures Supplied(Resolve(paths, legacy, ts, selection, inventory))
  {
    hide PlanKeys, Supplied, AppendBuildTasks, Keys;
    PlanIsSupplied(w, paths, legacy);
    BuildPassIsSupplied(legacy, ts, selection, inventory);
  }

  /**
   * In push mode it does exactly when the build pass follows, or a guard of planTasks already adds
   * a native build, or no guard adds a task that loads the addon.
   */
  lemma ResolvedPushSupply(
    paths: seq<string>, packages: seq<Package>, shards: nat, selected: map<Name, Package>,
    legacy: seq<Task>, ts: seq<TsUnit>, selection: CargoSelection, inventory: seq<CargoUnit>)
    requires IsAffected(paths, packages, selected)
    requires Plain(legacy) && Keys(legacy) == PushKeys(paths, packages, shards, selected)
    ensures Supplied(legacy) <==> Producing(paths, selected) || !Loading(paths, selected)
    ensures Supplied(Resolve(paths, legacy, ts, selection, inventory))
       <==> !Only(paths, IsDocOrChangelog) || Producing(paths, selected) || !Loading(paths, selected)
  {
    hide PushKeys, Supplied, AppendBuildTasks, Keys, Producing, Loading, LeastClosed, WorkspaceRelation, Touched, SuppliedKeys;
    PushSupply(paths, packages, shards, selected);
    PlainSupply(legacy);
    BuildPassIsSupplied(legacy, ts, selection, inventory);
  }

  /** A change that touches no package affects none. */
  lemma UntouchedIsUnaffected(paths: seq<string>, packages: seq<Package>, selected: map<Name, Package>)
    requires IsAffected(paths, packages, selected)
    requires forall p :: p in packages ==> !IsTouched(paths, p)
    ensures selected == map[]
  {
    hide IsTouched, WorkspaceRelation;
    NothingTouched(paths, packages);
    assert Names([]) == {};
    assert ClosedUnder(WorkspaceRelation([], packages), {});
    assert selected.Keys == {};
  }

  lemma {:induction false} NothingTouched(paths: seq<string>, packages: seq<Package>)
    requires forall p :: p in packages ==> !IsTouched(paths, p)
    ensures Touched(paths, packages) == []
  {
    hide IsTouched;
    if packages != [] {
      var last := packages[|packages| - 1];
      assert last in packages;
      NothingTouched(paths, packages[..|packages| - 1]);
    }
  }

  const TOOLING_DOC := "scripts/gjc-session/README.md"
  const TOOLING_SCRIPT := "scripts/foo.ts"

  /** A path under scripts/ that no harness script's name begins like. */
  lemma ScriptGuards(path: string)
    requires |path| > 8 && path[0] == 's' && path[8] in "gf"
    ensures !IsEmbeddedDocsSource(path) && !IsDeepInterview(path) && !IsCodingAgentRuntime(path) && !IsUnscopedWrapper(path)
    ensures !IsFullWorkspace(path) && !IsGithub(path) && !IsWorkflowHarness(path)
  {
    hide IsFullWorkspace, IsCiHarnessScript;
    assert "docs/"[0] == 'd' && GENERATED_DOCS_INDEX[0] == 'p' && ".github/"[0] == '.' && ".github/workflows/"[0] == '.';
    assert forall i :: 0 <= i < |DEEP_INTERVIEW_PATHS| ==> DEEP_INTERVIEW_PATHS[i][0] == 'p';
    if IsFullWorkspace(path) {
      FullWorkspaceHeads(path);
    }
    if IsCiHarnessScript(path) {
      HarnessScriptHeads(path);
    }
  }

  /** One such path in no package plans the root check and no native build. */
  lemma ToolingLoadsUnproduced(path: string, packages: seq<Package>, selected: map<Name, Package>)
    requires |path| > 8 && path[0] == 's' && path[8] in "gf" && IsToolingScript(path)
    requires IsAffected([path], packages, selected) && forall p :: p in packages ==> !Owns(p, path)
    ensures !Producing([path], selected) && Loading([path], selected)
  {
    hide IsAffected, CanariesOf, Relevant, IsToolingScript, IsEmbeddedDocsSource, IsDeepInterview, IsCodingAgentRuntime,
      IsUnscopedWrapper, IsFullWorkspace, IsGithub, IsWorkflowHarness, Owns, ReleaseHarnessOnly;
    ScriptGuards(path);
    UntouchedIsUnaffected([path], packages, selected);
    assert IsToolingScript([path][0]) && !IsGithub([path][0]) && !IsWorkflowHarness([path][0]) && !IsDeepInterview([path][0]);
  }

  /** Pushing a README under scripts/ plans the root check and nothing that builds the addon it loads. */
  lemma ToolingDocIsNotSupplied(
    packages: seq<Package>, shards: nat, selected: map<Name, Package>,
    legacy: seq<Task>, ts: seq<TsUnit>, selection: CargoSelection, inventory: seq<CargoUnit>)
    requires IsAffected([TOOLING_DOC], packages, selected) && forall p :: p in packages ==> !Owns(p, TOOLING_DOC)
    requires Plain(legacy) && Keys(legacy) == PushKeys([TOOLING_DOC], packages, shards, selected)
    ensures !Supplied(Resolve([TOOLING_DOC], legacy, ts, selection, inventory))
  {
    hide PushKeys, Supplied, Resolve, Keys, Producing, Loading, IsAffected;
    assert TOOLING_DOC[0] == 's' && TOOLING_DOC[8] == 'g' && TOOLING_DOC[..8] == "scripts/";
    ToolingLoadsUnproduced(TOOLING_DOC, packages, selected);
    ResolvedPushSupply([TOOLING_DOC], packages, shards, selected, legacy, ts, selection, inventory);
    assert IsDocOrChangelog([TOOLING_DOC][0]) by {
      assert TOOLING_DOC[26..] == ".md";
    }
  }

  /** Pushing any other script does the same before the build pass, which then adds the producer. */
  lemma ToolingScriptIsSuppliedByBuildPass(
    packages: seq<Package>, shards: nat, selected: map<Name, Package>,
    legacy: seq<Task>, ts: seq<TsUnit>, selection: CargoSelection, inventory: seq<CargoUnit>)
    requires IsAffected([TOOLING_SCRIPT], packages, selected) && forall p :: p in packages ==> !Owns(p, TOOLING_SCRIPT)
    requires Plain(legacy) && Keys(legacy) == PushKeys([TOOLING_SCRIPT], packages, shards, selected)
    ensures !Supplied(legacy) && Supplied(Resolve([TOOLING_SCRIPT], legacy, ts, selection, inventory))
  {
    hide PushKeys, Supplied, Resolve, Keys, Producing, Loading, IsAffected;
    assert TOOLING_SCRIPT[0] == 's' && TOOLING_SCRIPT[8] == 'f' && TOOLING_SCRIPT[..8] == "scripts/";
    ToolingLoadsUnproduced(TOOLING_SCRIPT, packages, selected);
    ResolvedPushSupply([TOOLING_SCRIPT], packages, shards, selected, legacy, ts, selection, inventory);
    assert !IsDocOrChangelog([TOOLING_SCRIPT][0]) by {
      assert TOOLING_SCRIPT[0] == 's' && TOOLING_SCRIPT[11..] == ".ts" && "docs/"[0] == 'd' && ".gjc/"[0] == '.';
    }
  }

  // ---- What the affected packages are ----

  predicate DistinctPackages(packages: seq<Package>) {
    forall i, j :: 0 <= i < j < |packages| ==> packages[i].name != packages[j].name
  }

  lemma {:induction false} TouchedArePackages(paths: seq<string>, packages: seq<Package>)
    ensures forall p :: p in Touched(paths, packages) ==> p in packages
  {
    hide IsTouched;
    if packages != [] {
      TouchedArePackages(paths, packages[..|packages| - 1]);
    }
  }

  /** With distinct package names there is only one answer, so the push plan is a function of the change. */
  lemma AffectedIsDetermined(paths: seq<string>, packages: seq<Package>, a: map<Name, Package>, b: map<Name, Package>)
    requires DistinctPackages(packages) && IsAffected(paths, packages, a) && IsAffected(paths, packages, b)
    ensures a == b
  {
    hide LeastClosed, WorkspaceRelation, Touched;
    var touched := Touched(paths, packages);
    LeastClosedUnique(WorkspaceRelation(touched, packages), Names(touched), a.Keys, b.Keys);
    TouchedArePackages(paths, packages);
    forall n | n in a ensures a[n] == b[n] {
      assert a[n] in packages && b[n] in packages;
      var i :| 0 <= i < |packages| && packages[i] == a[n];
      var j :| 0 <= j < |packages| && packages[j] == b[n];
    }
  }

  // ---- Keys of the plan that is used ----

  lemma PackageKeysUnreserved(p: Package, shards: nat)
    ensures Unreserved(PackageKeys(p, shards))
  {
    hide Reserved, ShardKey, TestKey, CheckKey;
    TestKeyNotReserved(p.name);
    CheckKeyNotReserved(p.name);
    WholeWorkspaceUnreserved();
    forall k | k in PackageTestKeys(p, shards) ensures !Reserved(k) {
      if i :| 1 <= i <= shards && k == ShardKey(i, shards) {
        ShardUnreserved(i, shards);
      }
    }
  }

  lemma SelectedUnreserved(selected: map<Name, Package>, shards: nat)
    ensures Unreserved(SelectedKeys(selected, selected.Keys, shards))
  {
    hide Reserved, PackageKeys;
    forall k | k in SelectedKeys(selected, selected.Keys, shards) ensures !Reserved(k) {
      var n :| n in selected && k in PackageKeys(selected[n], shards);
      PackageKeysUnreserved(selected[n], shards);
    }
  }

  lemma SelfChecksUnreserved(paths: seq<string>)
    ensures Unreserved(SelfCheckKeys(paths))
  {
    hide Reserved, AnyPath;
    NotReserved("affected-dry-run");
    NotReserved("affected-selftest");
    NotReserved("workflow-permissions");
    NotReserved("workflow-yaml-parse");
  }

  lemma DeepInterviewUnreserved()
    ensures Unreserved(DEEP_INTERVIEW_KEYS)
  {
    hide Reserved;
    NotReserved("deep-interview-definitions");
    NotReserved("deep-interview-runtime");
  }

  lemma CanariesUnreserved(relevant: seq<string>)
    ensures Unreserved(CanaryKeys(relevant))
  {
    hide Reserved, TestKey, CanariesOf;
    forall k | k in CanaryKeys(relevant) ensures !Reserved(k) {
      var c :| c in CanariesOf(relevant, RISK_CLASSES) && k == TestKey(c);
      TestKeyNotReserved(c);
    }
  }

  lemma SmokeAndPublishUnreserved(paths: seq<string>)
    ensures Unreserved(SmokeKeys(paths)) && Unreserved(PublishKeys(paths))
  {
    hide Reserved, AnyPath;
    SmokeUnreserved();
    ReleaseUnreserved();
  }

  lemma PushUnreserved(paths: seq<string>, packages: seq<Package>, shards: nat, selected: map<Name, Package>)
    ensures Unreserved(PushKeys(paths, packages, shards, selected) - {NATIVE_BUILD})
  {
    hide AnyPath, EveryPath, Escalates, Broad, NeedsNativeRuntime, Relevant, CanariesOf, WorkspaceTestKeys, SmokeKeys, PublishKeys,
      SelfCheckKeys, CanaryKeys, HasTests, SelectedKeys, TestKey, Only, Reserved;
    WholeWorkspaceUnreserved();
    SmokeUnreserved();
    SmokeAndPublishUnreserved(paths);
    SelfChecksUnreserved(paths);
    DeepInterviewUnreserved();
    CanariesUnreserved(Relevant(paths));
    SelectedUnreserved(selected, shards);
    WorkspaceTestsUnreserved(packages, shards);
    TestKeyNotReserved(EMBEDDED_DOCS_GATE_TEST);
  }

  /** A push plan, too, uses no key of the build pass. */
  lemma PushHasNoBuildKeys(paths: seq<string>, packages: seq<Package>, shards: nat, selected: map<Name, Package>)
    ensures NoBuildKeys(PushKeys(paths, packages, shards, selected))
  {
    hide PushKeys, Reserved;
    PushUnreserved(paths, packages, shards, selected);
    var keys := PushKeys(paths, packages, shards, selected);
    forall k | k in keys ensures !StartsWith(k, "ts-build:") && !StartsWith(k, "cargo-build:") {
      assert k != NATIVE_BUILD ==> k in keys - {NATIVE_BUILD};
      NoPrefix(k);
    }
  }

  lemma NoPrefix(key: string)
    requires key == NATIVE_BUILD || !Reserved(key)
    ensures !StartsWith(key, "ts-build:") && !StartsWith(key, "cargo-build:")
  {
    assert NATIVE_BUILD[0] == 'n' && "ts-build:"[0] == 't' && "cargo-build:"[0] == 'c';
  }

  lemma PlanHasNoBuildKeys(w: Workspace, paths: seq<string>)
    ensures NoBuildKeys(PlanKeys(w, paths))
  {
    hide PlanKeys, Reserved;
    RequestedUnreserved(w, paths);
    forall k | k in PlanKeys(w, paths) ensures !StartsWith(k, "ts-build:") && !StartsWith(k, "cargo-build:") {
      NoPrefix(k);
    }
  }

  /** In either mode the resolved plan uses every key once. */
  lemma ResolvedKeysUnique(
    w: Workspace, paths: seq<string>, selected: map<Name, Package>, legacy: seq<Task>,
    ts: seq<TsUnit>, selection: CargoSelection, inventory: seq<CargoUnit>)
    requires UniqueKeys(legacy) && DistinctUnits(ts, selection)
    requires Keys(legacy) == PlanKeys(w, paths) || Keys(legacy) == PushKeys(paths, w.packages, w.shards, selected)
    ensures UniqueKeys(Resolve(paths, legacy, ts, selection, inventory))
  {
    hide PlanKeys, PushKeys, Keys, NoBuildKeys, AppendBuildTasks, DistinctUnits, UniqueKeys;
    PlanHasNoBuildKeys(w, paths);
    PushHasNoBuildKeys(paths, w.packages, w.shards, selected);
    BuildPassKeysUnique(legacy, ts, selection, inventory);
  }
}

/**
 * What holds of every targeted plan of scripts/ci-dev-affected.ts: changing more paths never plans
 * less, the order of the paths does not matter, a changed test file is run exactly when the
 * branches before it let it through, and documentation alone plans nothing.
 */
module AffectedTheorems {
  import opened Lists
  import opened AffectedPaths
  import opened AffectedPlan

  // ---- Plans are sums over paths ----

  lemma {:induction false} RelevantPaths(paths: seq<string>)
    ensures forall p :: p in Relevant(paths) <==> p in paths && !IsDocOrChangelog(p)
  {
    hide IsDocOrChangelog;
    if paths != [] {
      RelevantPaths(paths[..|paths| - 1]);
      assert paths == paths[..|paths| - 1] + [paths[|paths| - 1]];
    }
  }

  lemma {:induction false} AllPathKeysUnion(w: Workspace, paths: seq<string>, key: string)
    ensures key in AllPathKeys(w, paths) <==> exists p :: p in paths && key in PathKeys(w, p)
  {
    hide PathKeys;
    if paths != [] {
      AllPathKeysUnion(w, paths[..|paths| - 1], key);
      assert paths == paths[..|paths| - 1] + [paths[|paths| - 1]];
    }
  }

  lemma AllPathKeysMonotone(w: Workspace, small: seq<string>, large: seq<string>)
    requires ToSet(small) <= ToSet(large)
    ensures AllPathKeys(w, small) <= AllPathKeys(w, large)
  {
    hide AllPathKeys, PathKeys;
    forall key | key in AllPathKeys(w, small) ensures key in AllPathKeys(w, large) {
      AllPathKeysUnion(w, small, key);
      AllPathKeysUnion(w, large, key);
      var p :| p in small && key in PathKeys(w, p);
      assert p in ToSet(small);
      assert p in large;
    }
  }

  lemma AnyPathMonotone(small: seq<string>, large: seq<string>, p: string -> bool)
    requires ToSet(small) <= ToSet(large)
    ensures AnyPath(small, p) ==> AnyPath(large, p)
  {
    if AnyPath(small, p) {
      var i :| 0 <= i < |small| && p(small[i]);
      assert small[i] in ToSet(small);
      var j :| 0 <= j < |large| && large[j] == small[i];
    }
  }

  /** The release-harness exception forgives one full-workspace path only: the root manifest. */
  lemma OnlyTheManifestIsForgiven(path: string)
    requires IsFullWorkspace(path) && ReleaseHarnessAllowed(path)
    ensures path == "package.json"
  {
    assert path[0] == 'p' ==> path == "package.json";
    assert path[0] in "pbt";
    assert "packages/gajae-code/"[0] == 'p' && "packages/natives-"[0] == 'p';
    assert forall i :: 0 <= i < |RELEASE_HARNESS_SCRIPTS| ==> RELEASE_HARNESS_SCRIPTS[i][0] == 's';
  }

  /** A change that escalates still does when it grows: the exception cannot be bought by adding paths. */
  lemma EscalationMonotone(small: seq<string>, large: seq<string>)
    requires ToSet(small) <= ToSet(large)
    ensures Escalates(small) ==> Escalates(large)
  {
    hide IsFullWorkspace, ReleaseHarnessAllowed;
    if Escalates(small) {
      AnyPathMonotone(small, large, IsFullWorkspace);
      if ReleaseHarnessOnly(large) {
        forall i | 0 <= i < |small| ensures ReleaseHarnessAllowed(small[i]) {
          assert small[i] in ToSet(small);
          var j :| 0 <= j < |large| && large[j] == small[i];
        }
        var i :| 0 <= i < |small| && IsFullWorkspace(small[i]);
        OnlyTheManifestIsForgiven(small[i]);
        assert false;
      }
    }
  }

  // ---- The shape of keys ----

  /** Keys the build pass adds, or the older spelling of the native build: never asked for by a path. */
  predicate Reserved(key: string) {
    key == NATIVE_BUILD || StartsWith(key, "ts-build:") || StartsWith(key, "cargo-build:")
  }

  /** Two characters tell a planner key from a build key. */
  lemma NotReserved(key: string)
    requires |key| >= 2 && (key[0], key[1]) !in {('t', 's'), ('c', 'a'), ('n', 'a')}
    ensures !Reserved(key)
  {
    assert "ts-build:"[..2] == "ts" && "cargo-build:"[..2] == "ca" && NATIVE_BUILD[..2] == "na";
  }

  lemma TestKeyNotReserved(file: string)
    ensures !Reserved(TestKey(file))
  {
    hide Reserved;
    assert TestKey(file)[0] == 't' && TestKey(file)[1] == 'e';
    NotReserved(TestKey(file));
  }

  lemma CheckKeyNotReserved(name: string)
    ensures !Reserved(CheckKey(name))
  {
    hide Reserved;
    assert CheckKey(name)[0] == 'c' && CheckKey(name)[1] == 'h';
    NotReserved(CheckKey(name));
  }

  predicate Unreserved(keys: set<string>) {
    forall k :: k in keys ==> !Reserved(k)
  }

  lemma TestKeysUnreserved(w: Workspace, files: seq<string>)
    ensures Unreserved(TestKeys(w, files))
  {
    hide Reserved;
    forall k | k in TestKeys(w, files) ensures !Reserved(k) {
      var f :| f in files && k == TestKey(f);
      TestKeyNotReserved(f);
    }
  }

  lemma NativeLinuxUnreserved()
    ensures !Reserved(NATIVE_LINUX)
  {
    assert "ts-build:"[0] == 't' && "cargo-build:"[0] == 'c' && NATIVE_LINUX[0] == 'n';
    assert |NATIVE_LINUX| != |NATIVE_BUILD|;
  }

  lemma WholeWorkspaceUnreserved()
    ensures Unreserved({"root-check", NATIVE_LINUX, "root-test:release", PRODUCTION_HOST_KEY})
  {
    hide Reserved;
    NativeLinuxUnreserved();
    NotReserved("root-check");
    NotReserved("root-test:release");
    TestKeyNotReserved("@gajae-code/coding-agent:sdk-production-host-isolated");
  }

  lemma HarnessUnreserved()
    ensures Unreserved({"yaml-parse", "ci-selftest", "ci-dry-run", "workflow-permissions"})
  {
    hide Reserved;
    NotReserved("yaml-parse");
    NotReserved("ci-selftest");
    NotReserved("ci-dry-run");
    NotReserved("workflow-permissions");
  }

  lemma SmokeUnreserved()
    ensures Unreserved({"rust-check", "rust-test", "install-methods", "wrapper-version", "sdk-package-smoke", "cli-smoke"})
  {
    hide Reserved;
    NotReserved("rust-check");
    NotReserved("rust-test");
    NotReserved("install-methods");
    NotReserved("wrapper-version");
    NotReserved("sdk-package-smoke");
    NotReserved("cli-smoke");
  }

  lemma ReleaseUnreserved()
    ensures Unreserved(RELEASE_KEYS)
  {
    hide Reserved;
    NotReserved("release-publish-contract");
    NotReserved("release-publish-dry-run");
    NotReserved("test:scripts/release-evidence.test.ts");
  }

  lemma ShardUnreserved(shard: nat, total: nat)
    ensures !Reserved(ShardKey(shard, total))
  {
    hide Reserved, Versions.ToDecimal;
    assert ShardKey(shard, total)[0] == 't' && ShardKey(shard, total)[1] == 'e';
    NotReserved(ShardKey(shard, total));
  }

  lemma OwnerUnreserved(w: Workspace, path: string)
    ensures Unreserved(OwnerCheck(OwningPackage(path, w.packages)))
  {
    var owner := OwningPackage(path, w.packages);
    if owner.Some? {
      CheckKeyNotReserved(owner.value.name);
    }
  }

  lemma PathKeysUnreserved(w: Workspace, path: string)
    ensures Unreserved(PathKeys(w, path))
  {
    hide Reserved, TestKeys, OwningPackage, OwnerCheck, MappedTests, BehavioralTests, ShardKey, IsFullWorkspace, IsWorkflow,
      IsCiHarnessScript, IsRust, IsInstall, IsReleasePublish, IsUnscopedWrapper, IsSdkPackageSmoke, IsShardOneCoverage,
      IsCodeIsh, IsCodingAgentRuntime, TestKey;
    WholeWorkspaceUnreserved();
    HarnessUnreserved();
    SmokeUnreserved();
    ReleaseUnreserved();
    TestKeysUnreserved(w, MappedTests(w, path));
    TestKeysUnreserved(w, BehavioralTests(w, path));
    OwnerUnreserved(w, path);
    ShardUnreserved(1, w.shards);
  }

  lemma {:induction false} WorkspaceTestsUnreserved(packages: seq<Dependents.Package>, shards: nat)
    ensures Unreserved(WorkspaceTestKeys(packages, shards))
  {
    hide Reserved, ShardKey, TestKey;
    WholeWorkspaceUnreserved();
    if packages != [] {
      WorkspaceTestsUnreserved(packages[..|packages| - 1], shards);
      var last := packages[|packages| - 1];
      forall k | k in PackageTestKeys(last, shards) ensures !Reserved(k) {
        if last.name != CODING_AGENT {
          TestKeyNotReserved(last.name);
        } else if k != PRODUCTION_HOST_KEY {
          var i :| 1 <= i <= shards && k == ShardKey(i, shards);
          ShardUnreserved(i, shards);
        }
      }
    }
  }

  /** No changed path can make the targeted planner use a key of the build pass. */
  lemma RequestedUnreserved(w: Workspace, paths: seq<string>)
    ensures Unreserved(RequestedKeys(w, paths)) && Unreserved(PlanKeys(w, paths))
  {
    hide Reserved, Relevant, AllPathKeys, CanariesOf, AnyPath, Escalates, WorkspaceTestKeys, PathKeys, NativeMissing, TestKey;
    var relevant := Relevant(paths);
    WholeWorkspaceUnreserved();
    SmokeUnreserved();
    TestKeyNotReserved(EMBEDDED_DOCS_GATE_TEST);
    WorkspaceTestsUnreserved(w.packages, w.shards);
    forall k | k in AllPathKeys(w, relevant) ensures !Reserved(k) {
      AllPathKeysUnion(w, relevant, k);
      var p :| p in relevant && k in PathKeys(w, p);
      PathKeysUnreserved(w, p);
    }
    forall k | k in CanaryKeys(relevant) ensures !Reserved(k) {
      var c :| c in CanariesOf(relevant, RISK_CLASSES) && k == TestKey(c);
      TestKeyNotReserved(c);
    }
  }

  // ---- Monotonicity ----

  lemma RequestedMonotone(w: Workspace, small: seq<string>, large: seq<string>)
    requires ToSet(small) <= ToSet(large)
    ensures RequestedKeys(w, small) <= RequestedKeys(w, large)
  {
    hide Relevant, AllPathKeys, CanariesOf, AnyPath, Escalates, FullKeys, IsDocOrChangelog, IsEmbeddedDocsSource, TestKey;
    RelevantPaths(small);
    RelevantPaths(large);
    var few, many := Relevant(small), Relevant(large);
    assert ToSet(few) <= ToSet(many) by {
      forall p | p in few ensures p in many {
        assert p in ToSet(small);
      }
    }
    AnyPathMonotone(small, large, IsEmbeddedDocsSource);
    if few != [] {
      assert few[0] in ToSet(few);
      assert many != [];
      EscalationMonotone(few, many);
      AllPathKeysMonotone(w, few, many);
      AnyPathMonotone(few, many, IsTabWorkerSmoke);
      CanariesMonotone(few, many, RISK_CLASSES) by {
        forall p | p in few ensures p in many { assert p in ToSet(few); }
      }
    }
  }

  /**
   * Adding changed paths never drops a task: not through the full-workspace escalation, not
   * through the release-harness exception to it, and not through the native build closure.
   */
  lemma PlanMonotone(w: Workspace, small: seq<string>, large: seq<string>)
    requires ToSet(small) <= ToSet(large)
    ensures PlanKeys(w, small) <= PlanKeys(w, large)
  {
    hide RequestedKeys, NeedsNative, ToSet;
    RequestedMonotone(w, small, large);
    RequestedUnreserved(w, large);
    var few, many := RequestedKeys(w, small), RequestedKeys(w, large);
    if NativeMissing(few) {
      var k :| k in few && NeedsNative(k);
      assert k in many;
      if !NativeMissing(many) {
        var n :| n in many && IsNativeBuildKey(n);
        assert !Reserved(n);
        assert n == NATIVE_LINUX;
      }
    }
  }

  /** Only which paths changed matters, not their order or how often they are listed. */
  lemma PlanIgnoresOrder(w: Workspace, a: seq<string>, b: seq<string>)
    requires ToSet(a) == ToSet(b)
    ensures PlanKeys(w, a) == PlanKeys(w, b)
  {
    hide PlanKeys, ToSet;
    PlanMonotone(w, a, b);
    PlanMonotone(w, b, a);
  }

  // ---- What a change is promised ----

  /** Everything one path asks for is in every plan that path takes part in. */
  lemma PathIsPlanned(w: Workspace, paths: seq<string>, path: string)
    requires path in paths && !IsDocOrChangelog(path)
    ensures PathKeys(w, path) <= PlanKeys(w, paths)
  {
    hide PathKeys, AllPathKeys, Relevant, IsDocOrChangelog, CanariesOf, Escalates, AnyPath, FullKeys, GateKeys, NativeMissing;
    RelevantPaths(paths);
    var relevant := Relevant(paths);
    assert path in relevant;
    forall k | k in PathKeys(w, path) ensures k in AllPathKeys(w, relevant) {
      AllPathKeysUnion(w, relevant, k);
    }
  }

  /** The test files the planner's own selftest and permission tasks name on their command lines. */
  const SELFTEST_FILES: seq<string> := [
    "scripts/ci-dev-affected.test.ts", "scripts/run-bun-test-files.test.ts", "scripts/dev-ci-guard-topology.test.ts",
    "scripts/ci-risk-canary-manifest.test.ts", "scripts/ci-virtual-integration.test.ts", "scripts/ci-gjc-state-gates.test.ts"]
  const PERMISSION_FILES: seq<string> := ["scripts/check-workflow-permissions.test.ts", "scripts/release-policy.test.ts"]

  /** Does the task with this key run this test file by name? */
  predicate Runs(key: string, file: string) {
    || key == TestKey(file)
    || (key == "ci-selftest" && file in SELFTEST_FILES)
    || (key == "workflow-permissions" && file in PERMISSION_FILES)
  }

  predicate RunsSome(keys: set<string>, file: string) {
    exists k :: k in keys && Runs(k, file)
  }

  lemma TestKeyInjective(a: string, b: string)
    ensures TestKey(a) == TestKey(b) <==> a == b
  {
    assert TestKey(a)[5..] == a && TestKey(b)[5..] == b;
  }

  lemma OnlyNamedTests(key: string, file: string)
    requires key != TestKey(file) && key != "ci-selftest" && key != "workflow-permissions"
    ensures !Runs(key, file)
  {
  }

  lemma {:induction false} TestKeysRun(w: Workspace, files: seq<string>, file: string)
    requires w.validateTestPaths ==> file in w.existing
    ensures RunsSome(TestKeys(w, files), file) <==> file in files
  {
    hide TestKey;
    if file in files {
      assert TestKey(file) in TestKeys(w, files);
      assert Runs(TestKey(file), file);
    }
    if k :| k in TestKeys(w, files) && Runs(k, file) {
      var f :| f in files && k == TestKey(f);
      TestKeyInjective(f, file);
      PrefixedIsNoHarnessKey(f);
    }
  }

  lemma PrefixedIsNoHarnessKey(file: string)
    ensures TestKey(file) !in {"ci-selftest", "ci-dry-run", "workflow-permissions", "yaml-parse", "install-methods",
                               "rust-check", "rust-test", NATIVE_LINUX}
  {
    assert TestKey(file)[0] == 't' && "ci-selftest"[0] == 'c' && "ci-dry-run"[0] == 'c' && "workflow-permissions"[0] == 'w';
    assert "yaml-parse"[0] == 'y' && "install-methods"[0] == 'i' && "rust-check"[0] == 'r' && "rust-test"[0] == 'r';
    assert NATIVE_LINUX[0] == 'n';
  }

  lemma NotATest(path: string)
    requires |path| >= 9 && path[|path| - 1] == 's' && path[|path| - 8] != '.'
    ensures !IsTestFile(path)
  {
    assert path[|path| - 8..][0] == path[|path| - 8] && path[|path| - 9..][8] == path[|path| - 1];
    assert ".test.ts"[0] == '.' && ".test.tsx"[8] == 'x';
  }

  lemma HarnessSources()
    ensures forall i :: i in {0, 2, 5, 6, 8, 10} ==> !IsTestFile(CI_HARNESS_SCRIPTS[i])
  {
    hide IsTestFile;
    NotATest("scripts/ci-dev-affected.ts");
    NotATest("scripts/run-bun-test-files.ts");
    NotATest("scripts/check-workflow-yaml.ts");
    NotATest("scripts/check-workflow-permissions.ts");
    NotATest("scripts/ci-risk-canary-manifest.ts");
    NotATest("scripts/ci-virtual-integration.ts");
  }

  /** Every test among the harness scripts is run by the selftest or the permission task. */
  lemma HarnessTestsAreNamed(path: string)
    requires IsCiHarnessScript(path) && IsTestFile(path)
    ensures path in SELFTEST_FILES || path in PERMISSION_FILES
  {
    hide IsTestFile;
    HarnessSources();
    var i :| 0 <= i < |CI_HARNESS_SCRIPTS| && CI_HARNESS_SCRIPTS[i] == path;
    assert i !in {0, 2, 5, 6, 8, 10};
    assert SELFTEST_FILES[0] == CI_HARNESS_SCRIPTS[1] && SELFTEST_FILES[1] == CI_HARNESS_SCRIPTS[3];
    assert SELFTEST_FILES[2] == CI_HARNESS_SCRIPTS[4] && SELFTEST_FILES[3] == CI_HARNESS_SCRIPTS[9];
    assert SELFTEST_FILES[4] == CI_HARNESS_SCRIPTS[11] && PERMISSION_FILES[0] == CI_HARNESS_SCRIPTS[7];
  }

  lemma HarnessKeysRun(file: string)
    ensures RunsSome(CI_KEYS, file) <==> file in SELFTEST_FILES || file in PERMISSION_FILES
    ensures RunsSome({"yaml-parse"} + CI_KEYS, file) <==> file in SELFTEST_FILES || file in PERMISSION_FILES
  {
    hide TestKey;
    PrefixedIsNoHarnessKey(file);
    assert "ci-selftest" in CI_KEYS && "workflow-permissions" in CI_KEYS;
    if file in SELFTEST_FILES {
      assert Runs("ci-selftest", file);
    }
    if file in PERMISSION_FILES {
      assert Runs("workflow-permissions", file);
    }
  }

  lemma WorkflowIsNoNamedTest(path: string)
    requires IsWorkflow(path)
    ensures path !in SELFTEST_FILES && path !in PERMISSION_FILES && !IsCiHarnessScript(path)
  {
    hide IsCiHarnessScript;
    assert path[0] == ".github/workflows/"[0] == '.';
    assert forall i :: 0 <= i < |SELFTEST_FILES| ==> SELFTEST_FILES[i][0] == 's';
    assert forall i :: 0 <= i < |PERMISSION_FILES| ==> PERMISSION_FILES[i][0] == 's';
    if IsCiHarnessScript(path) {
      HarnessScriptHeads(path);
    }
  }

  /**
   * A changed test that exists is run by name exactly when it is a harness test, or takes none of
   * the workflow, Rust and install branches, or takes the Rust branch and owns itself there.
   */
  lemma ChangedTestIsRun(w: Workspace, path: string)
    requires IsTestFile(path) && path in w.testFiles && (w.validateTestPaths ==> path in w.existing)
    ensures RunsSome(PathKeys(w, path), path) <==>
              || IsCiHarnessScript(path)
              || (!IsWorkflow(path) && if IsRust(path) then path in BehavioralTests(w, path) else !IsInstall(path))
  {
    hide IsWorkflow, IsCiHarnessScript, IsRust, IsInstall, ReleaseKeys, SdkKeys, FallbackKeys, BehavioralTests,
      IsShardOneCoverage, ShardKey, TestKey, IsFullWorkspace, IsTestFile, TestKeys, Runs;
    TestIsNoConfig(path);
    HarnessKeysRun(path);
    PrefixedIsNoHarnessKey(path);
    if IsWorkflow(path) {
      WorkflowIsNoNamedTest(path);
    } else if IsCiHarnessScript(path) {
      HarnessTestsAreNamed(path);
    } else if IsRust(path) {
      RustBranchRuns(w, path);
    } else if IsInstall(path) {
      OnlyNamedTests("install-methods", path);
    } else {
      assert MappedTests(w, path) == [path];
      TestKeysRun(w, [path], path);
      assert TestKeys(w, [path]) <= PathKeys(w, path);
    }
  }

  /** A test its own path runs is run whatever else changed. */
  lemma ChangedTestStaysPlanned(w: Workspace, paths: seq<string>, path: string)
    requires path in paths && !IsDocOrChangelog(path) && RunsSome(PathKeys(w, path), path)
    ensures RunsSome(PlanKeys(w, paths), path)
  {
    hide PathKeys, PlanKeys, Runs, IsDocOrChangelog;
    PathIsPlanned(w, paths, path);
  }

  lemma RustBranchRuns(w: Workspace, path: string)
    requires w.validateTestPaths ==> path in w.existing
    ensures RunsSome({"rust-check", "rust-test"} + TestKeys(w, BehavioralTests(w, path)), path) <==> path in BehavioralTests(w, path)
  {
    hide TestKeys, BehavioralTests, Runs, TestKey;
    PrefixedIsNoHarnessKey(path);
    OnlyNamedTests("rust-check", path);
    OnlyNamedTests("rust-test", path);
    TestKeysRun(w, BehavioralTests(w, path), path);
  }

  /** The path takes the install branch of the planner. */
  predicate TakesInstallBranch(path: string) {
    && IsInstall(path) && !IsDocOrChangelog(path) && !IsFullWorkspace(path) && !IsWorkflow(path) && !IsCiHarnessScript(path)
    && !IsRust(path)
  }

  /** Changing a file of the install branch alone plans no task that runs it, test or not. */
  lemma InstallBranchIsNotRun(w: Workspace, path: string)
    requires TakesInstallBranch(path) && |path| > 8 && path[8] == 'i' && !IsEmbeddedDocsSource(path)
    ensures PathKeys(w, path) == {"install-methods"}
    ensures !RunsSome(PlanKeys(w, [path]), path)
  {
    hide PathKeys, CanariesOf, Runs, TestKey, NativeMissing, AnyPath, Escalates, FullKeys, Relevant, IsDocOrChangelog, IsInstall,
      IsFullWorkspace, IsWorkflow, IsCiHarnessScript, IsRust, IsEmbeddedDocsSource, AllPathKeys;
    InstallBranch(w, path);
    OneRelevant(path);
    OnePathKeys(w, path);
    OnePathGuards(path);
    PrefixedIsNoHarnessKey(path);
    OnlyNamedTests("install-methods", path);
    OnlyNamedTests(NATIVE_LINUX, path);
    forall k | k in CanaryKeys([path]) ensures !Runs(k, path) {
      var c :| c in CanariesOf([path], RISK_CLASSES) && k == TestKey(c);
      CanariesAreNoInstallTest([path], c);
      TestKeyInjective(c, path);
      PrefixedIsNoHarnessKey(c);
      OnlyNamedTests(k, path);
    }
  }

  const INSTALL_TEST := "scripts/install" + "-dev.test.ts"

  /** A test of the installer is such a file. */
  lemma InstallTestIsNotRun(w: Workspace)
    ensures IsTestFile(INSTALL_TEST) && PathKeys(w, INSTALL_TEST) == {"install-methods"}
    ensures !RunsSome(PlanKeys(w, [INSTALL_TEST]), INSTALL_TEST)
  {
    hide PathKeys, PlanKeys, RunsSome, IsTestFile, TakesInstallBranch, IsEmbeddedDocsSource;
    InstallTestGuards();
    InstallBranchIsNotRun(w, INSTALL_TEST);
  }

  lemma InstallTestGuards()
    ensures IsTestFile(INSTALL_TEST) && TakesInstallBranch(INSTALL_TEST) && !IsEmbeddedDocsSource(INSTALL_TEST)
    ensures |INSTALL_TEST| > 8 && INSTALL_TEST[8] == 'i'
  {
    hide TakesInstallBranch, IsEmbeddedDocsSource, LastSegment;
    var path := INSTALL_TEST;
    assert |path| == 27 && path[0] == 's' && path[8] == 'i' && path[26] == 's';
    assert path[19..] == ".test.ts";
    assert LastSegment(path) == "install-dev.test.ts" by { InstallTestName(); }
    InstallGuards(path);
  }

  lemma InstallTestName()
    ensures LastSegment(INSTALL_TEST) == "install-dev.test.ts"
  {
    hide Split;
    assert INSTALL_TEST == "scripts" + "/" + "install-dev.test.ts";
    SplitStep("scripts", '/', "install-dev.test.ts");
    SplitNone("install-dev.test.ts", '/');
  }

  lemma InstallGuards(path: string)
    requires "scripts/install" <= path && path[|path| - 1] == 's'
    requires LastSegment(path) != "" && LastSegment(path)[0] == 'i'
    ensures TakesInstallBranch(path) && !IsEmbeddedDocsSource(path)
  {
    hide LastSegment, IsRust, IsCiHarnessScript, IsFullWorkspace;
    assert path[0] == "scripts/install"[0] == 's' && path[8] == "scripts/install"[8] == 'i';
    assert ".github/workflows/"[0] == '.' && "docs/"[0] == 'd' && ".gjc/"[0] == '.' && ".md"[2] == 'd';
    assert GENERATED_DOCS_INDEX[0] == 'p';
    assert path[|path| - 3..][2] == path[|path| - 1];
    InstallListGuards(path);
  }

  lemma InstallListGuards(path: string)
    requires |path| > 8 && path[0] == 's' && path[8] == 'i' && LastSegment(path) != "" && LastSegment(path)[0] == 'i'
    ensures !IsRust(path) && !IsCiHarnessScript(path) && !IsFullWorkspace(path)
  {
    hide LastSegment, IsCiHarnessScript, IsFullWorkspace;
    assert "crates/"[0] == 'c' && ".cargo/"[0] == '.';
    assert forall i :: 0 <= i < |RUST_FILE_NAMES| ==> RUST_FILE_NAMES[i][0] != 'i';
    if IsFullWorkspace(path) {
      FullWorkspaceHeads(path);
    }
    if IsCiHarnessScript(path) {
      HarnessScriptHeads(path);
    }
  }

  lemma InstallBranch(w: Workspace, path: string)
    requires IsInstall(path) && !IsFullWorkspace(path) && !IsWorkflow(path) && !IsCiHarnessScript(path) && !IsRust(path)
    ensures PathKeys(w, path) == {"install-methods"}
  {
    hide IsInstall, IsFullWorkspace, IsWorkflow, IsCiHarnessScript, IsRust, CodeKeys;
  }

  lemma OneRelevant(path: string)
    requires !IsDocOrChangelog(path)
    ensures Relevant([path]) == [path]
  {
    hide IsDocOrChangelog;
    assert [path][..0] == [];
  }

  lemma OnePathKeys(w: Workspace, path: string)
    ensures AllPathKeys(w, [path]) == PathKeys(w, path)
  {
    hide PathKeys;
    assert [path][..0] == [];
  }

  lemma OnePathGuards(path: string)
    requires !IsFullWorkspace(path) && !IsEmbeddedDocsSource(path)
    ensures !Escalates([path]) && !AnyPath([path], IsEmbeddedDocsSource)
  {
    hide IsFullWorkspace, IsEmbeddedDocsSource, ReleaseHarnessOnly;
  }

  lemma CanariesAreNoInstallTest(paths: seq<string>, canary: string)
    requires canary in CanariesOf(paths, RISK_CLASSES)
    ensures |canary| > 8 && canary[8] in "/c"
  {
    hide CanariesOf;
    CanariesListed(paths, RISK_CLASSES, canary);
    var i :| 0 <= i < |RISK_CLASSES| && canary in RISK_CLASSES[i].canaries;
    CanaryHeads(RISK_CLASSES[i], canary);
  }

  lemma CanaryHeads(risk: RiskClass, canary: string)
    requires risk in RISK_CLASSES && canary in risk.canaries
    ensures |canary| > 8 && canary[8] in "/c"
  {
    assert "packages/coding-agent/"[8] == '/';
  }

  lemma {:induction false} CanariesListed(paths: seq<string>, risks: seq<RiskClass>, canary: string)
    requires canary in CanariesOf(paths, risks)
    ensures exists i :: 0 <= i < |risks| && canary in risks[i].canaries
  {
    hide AnyMatches;
    if risks != [] {
      var n := |risks| - 1;
      if canary !in risks[n].canaries {
        CanariesListed(paths, risks[..n], canary);
        var i :| 0 <= i < |risks[..n]| && canary in risks[..n][i].canaries;
        assert risks[i] == risks[..n][i];
      }
    }
  }

  lemma TestIsNoConfig(path: string)
    requires IsTestFile(path)
    ensures !IsFullWorkspace(path)
  {
    hide IsFullWorkspace;
    assert path[|path| - 1] == 's' || path[|path| - 1] == 'x';
    ConfigEnds(path);
  }

  lemma ConfigEnds(path: string)
    ensures IsFullWorkspace(path) ==> |path| > 0 && path[|path| - 1] in "nl"
  {
    assert forall i :: 0 <= i < |FULL_WORKSPACE_PATHS| ==>
      |FULL_WORKSPACE_PATHS[i]| > 0 && FULL_WORKSPACE_PATHS[i][|FULL_WORKSPACE_PATHS[i]| - 1] in "nl";
  }

  /** Documentation alone plans nothing, except the gate on the embedded docs and the addon that gate loads. */
  lemma DocsOnlyIsFree(w: Workspace, paths: seq<string>)
    requires forall p :: p in paths ==> IsDocOrChangelog(p)
    ensures PlanKeys(w, paths)
         == if AnyPath(paths, IsEmbeddedDocsSource) then {TestKey(EMBEDDED_DOCS_GATE_TEST), NATIVE_LINUX} else {}
  {
    hide IsDocOrChangelog, IsEmbeddedDocsSource, AnyPath, Relevant;
    NothingRelevant(paths);
    if AnyPath(paths, IsEmbeddedDocsSource) {
      GateNeedsNative();
    }
  }

  lemma {:induction false} NothingRelevant(paths: seq<string>)
    requires forall p :: p in paths ==> IsDocOrChangelog(p)
    ensures Relevant(paths) == []
  {
    hide IsDocOrChangelog;
    if paths != [] {
      NothingRelevant(paths[..|paths| - 1]);
      assert paths[|paths| - 1] in paths;
    }
  }

  lemma GateNeedsNative()
    ensures NeedsNative(TestKey(EMBEDDED_DOCS_GATE_TEST)) && !IsNativeBuildKey(TestKey(EMBEDDED_DOCS_GATE_TEST))
  {
    assert TestKey(EMBEDDED_DOCS_GATE_TEST)[0] == 't' && NATIVE_BUILD[0] == 'n' && NATIVE_LINUX[0] == 'n';
    assert "test:" <= TestKey(EMBEDDED_DOCS_GATE_TEST);
  }
}

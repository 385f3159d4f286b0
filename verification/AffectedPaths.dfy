/** The path predicates of scripts/ci-dev-affected.ts and scripts/ci-risk-canary-manifest.ts. */
module AffectedPaths {
  import opened Lists

  predicate StartsWith(s: string, prefix: string) {
    prefix <= s
  }

  predicate EndsWith(s: string, suffix: string) {
    |suffix| <= |s| && s[|s| - |suffix|..] == suffix
  }

  predicate EndsWithAny(s: string, suffixes: seq<string>) {
    exists i :: 0 <= i < |suffixes| && EndsWith(s, suffixes[i])
  }

  predicate StartsWithAny(s: string, prefixes: seq<string>) {
    exists i :: 0 <= i < |prefixes| && StartsWith(s, prefixes[i])
  }

  function LastSegment(path: string): string {
    var parts := Split(path, '/');
    parts[|parts| - 1]
  }

  function Directory(path: string): string {
    var parts := Split(path, '/');
    if |parts| == 1 then "." else Join(parts[..|parts| - 1], '/')
  }

  predicate IsDocOrChangelog(path: string) {
    EndsWith(path, ".md") || StartsWith(path, "docs/") || StartsWith(path, ".gjc/")
  }

  const EMBEDDED_DOCS_GATE_TEST := "packages/coding-agent/test/docs-index-lazy.test.ts"
  const GENERATED_DOCS_INDEX := "packages/coding-agent/" + "src/internal-urls/docs-index.generated.ts"

  predicate IsEmbeddedDocsSource(path: string) {
    (StartsWith(path, "docs/") && EndsWith(path, ".md")) || path == GENERATED_DOCS_INDEX
  }

  predicate IsTestFile(path: string) {
    EndsWith(path, ".test.ts") || EndsWith(path, ".test.tsx")
  }

  const CI_HARNESS_SCRIPTS: seq<string> := [
    "scripts/ci-dev-affected.ts", "scripts/ci-dev-affected.test.ts",
    "scripts/run-bun-test-files.ts", "scripts/run-bun-test-files.test.ts",
    "scripts/dev-ci-guard-topology.test.ts", "scripts/check-workflow-yaml.ts",
    "scripts/check-workflow-permissions.ts", "scripts/check-workflow-permissions.test.ts",
    "scripts/ci-risk-canary-manifest.ts", "scripts/ci-risk-canary-manifest.test.ts",
    "scripts/ci-virtual-integration.ts", "scripts/ci-virtual-integration.test.ts"]

  predicate IsCiHarnessScript(path: string) {
    path in CI_HARNESS_SCRIPTS
  }

  lemma HarnessScriptHeads(path: string)
    requires IsCiHarnessScript(path)
    ensures |path| > 8 && path[0] == 's' && path[8] in "crd"
  {
    assert forall i :: 0 <= i < |CI_HARNESS_SCRIPTS| ==>
      |CI_HARNESS_SCRIPTS[i]| > 8 && CI_HARNESS_SCRIPTS[i][0] == 's' && CI_HARNESS_SCRIPTS[i][8] in "crd";
  }

  predicate IsWorkflow(path: string) {
    StartsWith(path, ".github/workflows/")
  }

  predicate IsCodeIsh(path: string) {
    path == "bun.lock" || EndsWithAny(path, [
      ".ts", ".tsx", ".js", ".jsx", ".mts", ".cts", ".mjs", ".cjs", ".json", ".jsonc", ".toml", ".yml", ".yaml", ".sh"])
  }

  const FULL_WORKSPACE_PATHS: seq<string> := [
    "package.json", "bunfig.toml", "biome.json", "tsconfig.json", "tsconfig.base.json", "tsconfig.tools.json"]

  predicate IsFullWorkspace(path: string) {
    path in FULL_WORKSPACE_PATHS
  }

  lemma FullWorkspaceHeads(path: string)
    requires IsFullWorkspace(path)
    ensures path != "" && path[0] in "pbt"
  {
  }

  const RELEASE_HARNESS_SCRIPTS: seq<string> := [
    "scripts/ci-dev-affected.ts", "scripts/ci-release-publish.ts", "scripts/install-tests/tarball.dockerfile",
    "scripts/release-publish-order.test.ts", "scripts/sync-versions.ts"]

  predicate IsReleaseHarnessScript(path: string) {
    path in RELEASE_HARNESS_SCRIPTS
  }

  const RUST_FILE_NAMES: seq<string> := [
    "Cargo.toml", "Cargo.lock", "rust-toolchain", "rust-toolchain.toml", "rustfmt.toml", ".rustfmt.toml",
    "clippy.toml", ".clippy.toml"]

  predicate IsRust(path: string) {
    StartsWith(path, "crates/") || StartsWith(path, ".cargo/") || LastSegment(path) in RUST_FILE_NAMES
  }

  predicate IsInstall(path: string) {
    StartsWith(path, "scripts/install") || path == "Dockerfile" || path == "Dockerfile.dockerignore"
  }

  predicate IsCodingAgentRuntime(path: string) {
    StartsWithAny(path, ["packages/coding-agent/", "packages/agent/", "packages/ai/"])
  }

  predicate IsSdkPackageSmoke(path: string) {
    StartsWith(path, "packages/coding-agent/src/sdk/client/")
  }

  predicate IsUnscopedWrapper(path: string) {
    StartsWith(path, "packages/gajae-code/")
  }

  predicate IsReleasePublish(path: string) {
    || path == "scripts/ci-release-publish.ts"
    || path == "scripts/release-evidence.ts"
    || StartsWith(path, "packages/gajae-code/")
    || StartsWith(path, "packages/natives-")
    || path == "packages/natives/package.json"
  }

  const TAB_WORKER_PREFIXES: seq<string> := [
    "packages/coding-agent/src/tools/browser/", "packages/coding-agent/src/tools/puppeteer/",
    "packages/coding-agent/src/eval/js/", "packages/coding-agent/src/web/scrapers/",
    "packages/coding-agent/src/utils/", "packages/utils/src/", "packages/natives/"]

  const TAB_WORKER_PATHS: seq<string> := [
    "packages/coding-agent/src/tools/tool-errors.ts", "packages/coding-agent/src/tools/path-utils.ts",
    "packages/coding-agent/src/cli.ts", "packages/coding-agent/scripts/build-binary.ts",
    "packages/coding-agent/scripts/compile-args.ts", "scripts/ci-build-native.ts"]

  predicate IsTabWorkerSmoke(path: string) {
    StartsWithAny(path, TAB_WORKER_PREFIXES) || path in TAB_WORKER_PATHS
  }

  const SHARD_ONE_PREFIXES: seq<string> := [
    "packages/coding-agent/src/sdk/bus/", "packages/coding-agent/src/sdk/host/",
    "packages/coding-agent/src/coordinator-mcp/"]

  const SHARD_ONE_PATHS: seq<string> := [
    "packages/coding-agent/test/sdk-host-wiring.test.ts",
    "packages/coding-agent/test/coordinator-mcp/send-prompt-concurrency.test.ts",
    "packages/coding-agent/test/sdk-prompt-terminal-diagnostics.test.ts"]

  predicate IsShardOneCoverage(path: string) {
    StartsWithAny(path, SHARD_ONE_PREFIXES) || path in SHARD_ONE_PATHS
  }

  // ---- Risk canaries ----

  datatype RiskClass = RiskClass(
    prefixes: seq<string>, suffixes: seq<string>, segments: seq<string>, exact: seq<string>, canaries: seq<string>)

  const PROCESS_LIFECYCLE := RiskClass(
    ["packages/coding-agent/src/sdk/broker/"], ["/process.ts", "-daemon.ts"], ["websocket", "daemon-control"],
    ["crates/pi-shell/src/process.rs"], ["packages/coding-agent/" + "test/sdk-broker-restart.test.ts"])

  const FILESYSTEM_MIGRATION := RiskClass(
    ["packages/coding-agent/src/gc/", "packages/coding-agent/src/storage/"], [], ["migrate", "tmpdir"],
    [], ["packages/coding-agent/" + "test/gc-runtime.test.ts"])

  const GLOBAL_ENV_CONFIG := RiskClass(
    ["packages/coding-agent/src/config/"], [], ["agent-dir", "config-root"],
    ["packages/coding-agent/src/paths.ts"], ["packages/coding-agent/" + "test/config-cli.test.ts"])

  const SESSION_SDK_NOTIFICATIONS := RiskClass(
    ["packages/coding-agent/src/session/", "packages/coding-agent/src/sdk/", "packages/coding-agent/src/tui/"], [],
    ["session-manager", "notifications"], [],
    ["packages/coding-agent/" + "test/notifications-live-stream.test.ts",
     "packages/coding-agent/" + "test/session-manager-resident-cache.test.ts"])

  const TEST_FIXTURE_HELPER := RiskClass(
    ["packages/coding-agent/test/fixtures/", "packages/coding-agent/test/helpers/"], ["/helpers.ts", "/fixture.ts"], [],
    ["packages/coding-agent/src/test-helpers.ts"], ["packages/coding-agent/" + "test/fixture-broker-cleanup.test.ts"])

  const CI_PLANNER_MANIFEST := RiskClass(
    [], [], [],
    ["scripts/ci-dev-affected.ts", "scripts/ci-risk-canary-manifest.ts", "scripts/ci-virtual-integration.ts"],
    ["scripts/" + "ci-virtual-integration.test.ts"])

  const RISK_CLASSES: seq<RiskClass> := [
    PROCESS_LIFECYCLE, FILESYSTEM_MIGRATION, GLOBAL_ENV_CONFIG,
    SESSION_SDK_NOTIFICATIONS, TEST_FIXTURE_HELPER, CI_PLANNER_MANIFEST]

  const MAX_CANARY_TESTS := 8

  function LastIndexOf(s: string, c: char): int
    ensures -1 <= LastIndexOf(s, c) < |s|
  {
    if s == "" then -1
    else if s[|s| - 1] == c then |s| - 1
    else LastIndexOf(s[..|s| - 1], c)
  }

  function WithoutExtension(segment: string): string {
    var dot := LastIndexOf(segment, '.');
    if dot > 0 then segment[..dot] else segment
  }

  predicate MatchesPrefix(path: string, prefix: string) {
    path == prefix || StartsWith(path, if EndsWith(prefix, "/") then prefix else prefix + "/")
  }

  predicate MatchesRiskClass(path: string, risk: RiskClass) {
    || path in risk.exact
    || (exists i :: 0 <= i < |risk.prefixes| && MatchesPrefix(path, risk.prefixes[i]))
    || EndsWithAny(path, risk.suffixes)
    || (exists i :: 0 <= i < |risk.segments| &&
          exists j :: 0 <= j < |Split(path, '/')| &&
            (Split(path, '/')[j] == risk.segments[i] || WithoutExtension(Split(path, '/')[j]) == risk.segments[i]))
  }

  predicate AnyMatches(paths: seq<string>, risk: RiskClass) {
    exists i :: 0 <= i < |paths| && MatchesRiskClass(paths[i], risk)
  }

  datatype CanaryError = TooManyCanaries

  /** The inner loop of selectCanaryTestsFrom: add one by one, refuse past the cap. */
  method AddCanaries(before: set<string>, canaries: seq<string>) returns (r: Result<set<string>, CanaryError>)
    requires |before| <= MAX_CANARY_TESTS
    ensures r.Ok? ==> r.value == before + ToSet(canaries) && |r.value| <= MAX_CANARY_TESTS
    ensures r.Err? ==> |before + ToSet(canaries)| > MAX_CANARY_TESTS
  {
    var selected := before;
    for j := 0 to |canaries|
      invariant selected == before + ToSet(canaries[..j]) && |selected| <= MAX_CANARY_TESTS
    {
      assert canaries[..j + 1] == canaries[..j] + [canaries[j]];
      ToSetAppend(canaries[..j], canaries[j]);
      selected := selected + {canaries[j]};
      if |selected| > MAX_CANARY_TESTS {
        ToSetPrefix(canaries, j + 1);
        SubsetSize(selected, before + ToSet(canaries));
        return Err(TooManyCanaries);
      }
    }
    assert canaries[..|canaries|] == canaries;
    r := Ok(selected);
  }

  lemma ToSetPrefix(s: seq<string>, j: nat)
    requires j <= |s|
    ensures ToSet(s[..j]) <= ToSet(s)
  {
  }

  /** selectCanaryTestsFrom: refuses exactly when more canaries are selected than the cap allows. */
  method SelectCanaryTestsFrom(paths: seq<string>, risks: seq<RiskClass>) returns (r: Result<set<string>, CanaryError>)
    ensures r.Ok? ==> r.value == CanariesOf(paths, risks)
    ensures r.Err? <==> |CanariesOf(paths, risks)| > MAX_CANARY_TESTS
  {
    hide AnyMatches, ToSet;
    var selected: set<string> := {};
    for i := 0 to |risks|
      invariant selected == CanariesOf(paths, risks[..i]) && |selected| <= MAX_CANARY_TESTS
    {
      assert risks[..i + 1][..i] == risks[..i];
      if AnyMatches(paths, risks[i]) {
        var added := AddCanaries(selected, risks[i].canaries);
        if added.Err? {
          CanariesGrow(paths, risks, i + 1);
          SubsetSize(CanariesOf(paths, risks[..i + 1]), CanariesOf(paths, risks));
          return Err(added.error);
        }
        selected := added.value;
      }
    }
    assert risks[..|risks|] == risks;
    r := Ok(selected);
  }

  /** The canaries of every risk class that some path matches. */
  function CanariesOf(paths: seq<string>, risks: seq<RiskClass>): set<string> {
    if risks == [] then {}
    else
      var last := risks[|risks| - 1];
      CanariesOf(paths, risks[..|risks| - 1]) + if AnyMatches(paths, last) then ToSet(last.canaries) else {}
  }

  lemma {:induction false} CanariesGrow(paths: seq<string>, risks: seq<RiskClass>, i: nat)
    requires i <= |risks|
    ensures CanariesOf(paths, risks[..i]) <= CanariesOf(paths, risks)
    decreases |risks| - i
  {
    if i < |risks| {
      CanariesGrow(paths, risks, i + 1);
      assert risks[..i + 1][..i] == risks[..i];
    } else {
      assert risks[..i] == risks;
    }
  }

  /** More paths never select fewer canaries. */
  lemma {:induction false} CanariesMonotone(small: seq<string>, large: seq<string>, risks: seq<RiskClass>)
    requires forall p :: p in small ==> p in large
    ensures CanariesOf(small, risks) <= CanariesOf(large, risks)
  {
    hide MatchesRiskClass;
    if risks != [] {
      CanariesMonotone(small, large, risks[..|risks| - 1]);
      var last := risks[|risks| - 1];
      if AnyMatches(small, last) {
        var i :| 0 <= i < |small| && MatchesRiskClass(small[i], last);
        assert small[i] in large;
        var j :| 0 <= j < |large| && large[j] == small[i];
      }
    }
  }

  function TotalCanaries(risks: seq<RiskClass>): nat {
    if risks == [] then 0 else TotalCanaries(risks[..|risks| - 1]) + |risks[|risks| - 1].canaries|
  }

  lemma {:induction false} CanariesWithinTotal(paths: seq<string>, risks: seq<RiskClass>)
    ensures |CanariesOf(paths, risks)| <= TotalCanaries(risks)
  {
    hide AnyMatches;
    if risks != [] {
      var last := risks[|risks| - 1];
      CanariesWithinTotal(paths, risks[..|risks| - 1]);
      ToSetSize(last.canaries);
      UnionSize(CanariesOf(paths, risks[..|risks| - 1]), ToSet(last.canaries));
    }
  }

  lemma TotalOfSix(a: RiskClass, b: RiskClass, c: RiskClass, d: RiskClass, e: RiskClass, f: RiskClass)
    ensures TotalCanaries([a, b, c, d, e, f])
         == |a.canaries| + |b.canaries| + |c.canaries| + |d.canaries| + |e.canaries| + |f.canaries|
  {
    var r := [a, b, c, d, e, f];
    assert r[..5] == [a, b, c, d, e] && r[..5][..4] == [a, b, c, d] && [a, b, c, d][..3] == [a, b, c];
    assert TotalCanaries([a, b, c]) == |a.canaries| + |b.canaries| + |c.canaries| by {
      assert [a, b, c][..2] == [a, b] && [a, b][..1] == [a] && [a][..0] == [];
      assert TotalCanaries([a]) == |a.canaries|;
    }
    assert TotalCanaries([a, b, c, d]) == TotalCanaries([a, b, c]) + |d.canaries|;
  }

  /** All canaries of the manifest together stay under the cap, so the selector never refuses. */
  lemma CanariesWithinCap(paths: seq<string>)
    ensures |CanariesOf(paths, RISK_CLASSES)| <= MAX_CANARY_TESTS
  {
    hide CanariesOf, TotalCanaries;
    CanariesWithinTotal(paths, RISK_CLASSES);
    TotalOfSix(PROCESS_LIFECYCLE, FILESYSTEM_MIGRATION, GLOBAL_ENV_CONFIG,
               SESSION_SDK_NOTIFICATIONS, TEST_FIXTURE_HELPER, CI_PLANNER_MANIFEST);
  }

  lemma UnionSize(a: set<string>, b: set<string>)
    ensures |a + b| <= |a| + |b|
  {
    assert a + b == a + (b - a);
    SubsetSize(b - a, b);
  }
}

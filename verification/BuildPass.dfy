/**
 * Which planned tasks load and which build the native addon, and the build pass of
 * scripts/ci-dev-affected.ts: appendBuildTasks takes any plan and adds the build tasks.
 */
module BuildPass {
  import opened Lists
  import opened AffectedPaths
  import opened AffectedPlan

  // ---- Producers and consumers of the native addon ----

  predicate Consumes(task: Task) {
    match task.capabilities
    case Some(capabilities) => capabilities.nativeConsumer
    case None => NeedsNative(task.key)
  }

  predicate Produces(task: Task) {
    match task.capabilities
    case Some(capabilities) => capabilities.nativeProducer
    case None => IsNativeBuildKey(task.key)
  }

  /** Some task loads the addon only if some task builds it. */
  predicate Supplied(tasks: seq<Task>) {
    (exists i :: 0 <= i < |tasks| && Consumes(tasks[i])) ==> (exists i :: 0 <= i < |tasks| && Produces(tasks[i]))
  }

  /** The same of keys alone. */
  predicate SuppliedKeys(keys: set<string>) {
    (exists k :: k in keys && NeedsNative(k)) ==> (exists k :: k in keys && IsNativeBuildKey(k))
  }

  lemma PlainSupply(tasks: seq<Task>)
    requires Plain(tasks)
    ensures Supplied(tasks) <==> SuppliedKeys(Keys(tasks))
  {
    hide NeedsNative, Keys, IsNativeBuildKey;
    KeysByIndex(tasks);
    assert forall i :: 0 <= i < |tasks| ==> (Consumes(tasks[i]) <==> NeedsNative(tasks[i].key));
    assert forall i :: 0 <= i < |tasks| ==> (Produces(tasks[i]) <==> IsNativeBuildKey(tasks[i].key));
    if k :| k in Keys(tasks) && NeedsNative(k) {
      var i :| 0 <= i < |tasks| && tasks[i].key == k;
      assert Consumes(tasks[i]);
    }
    if k :| k in Keys(tasks) && IsNativeBuildKey(k) {
      var i :| 0 <= i < |tasks| && tasks[i].key == k;
      assert Produces(tasks[i]);
    }
  }

  /** In every targeted plan, a task that loads the native addon comes with one that builds it. */
  lemma PlanIsSupplied(w: Workspace, paths: seq<string>, tasks: seq<Task>)
    requires Plain(tasks) && Keys(tasks) == PlanKeys(w, paths)
    ensures Supplied(tasks)
  {
    hide RequestedKeys, NeedsNative, Keys, Supplied;
    NativeLinuxNeedsNothing();
    PlainSupply(tasks);
    var keys := RequestedKeys(w, paths);
    assert NativeMissing(keys) ==> NATIVE_LINUX in Keys(tasks);
    assert SuppliedKeys(Keys(tasks));
  }

  lemma NativeLinuxNeedsNothing()
    ensures !NeedsNative(NATIVE_LINUX)
  {
    assert NATIVE_LINUX[0] == 'n' && "test:"[0] == 't';
    assert forall i :: 0 <= i < |NATIVE_CONSUMERS| ==> NATIVE_CONSUMERS[i][0] != 'n';
  }

  // ---- The build pass ----

  /** A TypeScript build unit: `stable` is the encoded pair of its id and directory. */
  datatype TsUnit = TsUnit(stable: string, nativeConsumer: bool, nativeProducer: bool)

  datatype CargoUnit = CargoUnit(stable: string, nativeAddonSource: bool)

  /** The crates to build one by one, or the whole workspace when a crate name is ambiguous. */
  datatype CargoSelection = Crates(units: seq<CargoUnit>) | WorkspaceEmergency

  const EMERGENCY_KEY := "cargo-build:emergency:workspace"
  const EMERGENCY_IDENTITY := "emergency:cargo-workspace:root"

  const NATIVE_PRODUCER := Task(
    NATIVE_LINUX, Some("native:linux-x64:baseline-modern"), Some(Capabilities(true, false, false, true)))

  function TsTask(u: TsUnit): Task {
    Task("ts-build:" + ("ts:" + u.stable), Some("ts:" + u.stable),
         Some(Capabilities(false, false, u.nativeConsumer, u.nativeProducer)))
  }

  function CargoTask(u: CargoUnit): Task {
    Task("cargo-build:" + ("cargo:" + u.stable), Some("cargo:" + u.stable), Some(Capabilities(true, false, false, false)))
  }

  function CargoTasks(selection: CargoSelection): seq<Task> {
    match selection
    case Crates(units) => seq(|units|, i requires 0 <= i < |units| => CargoTask(units[i]))
    case WorkspaceEmergency => [Task(EMERGENCY_KEY, Some(EMERGENCY_IDENTITY), Some(Capabilities(true, false, false, false)))]
  }

  function WithoutNative(tasks: seq<Task>): seq<Task> {
    if tasks == [] then []
    else
      WithoutNative(tasks[..|tasks| - 1])
      + if IsNativeBuildKey(tasks[|tasks| - 1].key) then [] else [tasks[|tasks| - 1]]
  }

  predicate LegacyNeedsProducer(legacy: seq<Task>) {
    exists i :: 0 <= i < |legacy| && (IsNativeBuildKey(legacy[i].key) || NeedsNative(legacy[i].key))
  }

  predicate CargoNeedsProducer(cargo: seq<Task>, inventory: seq<CargoUnit>) {
    exists u, i :: 0 <= u < |inventory| && 0 <= i < |cargo| && inventory[u].nativeAddonSource
      && (cargo[i].key == EMERGENCY_KEY || cargo[i].identity == CargoTask(inventory[u]).identity)
  }

  predicate NeedsProducer(legacy: seq<Task>, ts: seq<TsUnit>, cargo: seq<Task>, inventory: seq<CargoUnit>) {
    || LegacyNeedsProducer(legacy)
    || (exists i :: 0 <= i < |ts| && (ts[i].nativeConsumer || ts[i].nativeProducer))
    || CargoNeedsProducer(cargo, inventory)
  }

  function AppendBuildTasks(legacy: seq<Task>, ts: seq<TsUnit>, selection: CargoSelection, inventory: seq<CargoUnit>)
    : (tasks: seq<Task>)
  {
    var cargo := CargoTasks(selection);
    WithoutNative(legacy) + (if NeedsProducer(legacy, ts, cargo, inventory) then [NATIVE_PRODUCER] else [])
    + seq(|ts|, i requires 0 <= i < |ts| => TsTask(ts[i])) + cargo
  }

  lemma {:induction false} WithoutNativeKeeps(tasks: seq<Task>)
    ensures forall t :: t in WithoutNative(tasks) <==> t in tasks && !IsNativeBuildKey(t.key)
    ensures UniqueKeys(tasks) ==> UniqueKeys(WithoutNative(tasks))
  {
    hide IsNativeBuildKey;
    if tasks != [] {
      var front, last := tasks[..|tasks| - 1], tasks[|tasks| - 1];
      WithoutNativeKeeps(front);
      assert tasks == front + [last];
      if UniqueKeys(tasks) {
        forall i | 0 <= i < |WithoutNative(front)| ensures WithoutNative(front)[i].key != last.key {
          assert WithoutNative(front)[i] in front;
        }
      }
    }
  }

  /** The build pass only adds: no key is lost, except that the older native-build key becomes the dedicated producer's. */
  lemma BuildPassKeepsPlan(legacy: seq<Task>, ts: seq<TsUnit>, selection: CargoSelection, inventory: seq<CargoUnit>, key: string)
    requires key in Keys(legacy)
    ensures key in Keys(AppendBuildTasks(legacy, ts, selection, inventory)) || key == NATIVE_BUILD
    ensures IsNativeBuildKey(key) ==> NATIVE_LINUX in Keys(AppendBuildTasks(legacy, ts, selection, inventory))
  {
    hide NeedsNative, CargoTasks, CargoNeedsProducer, WithoutNative;
    var tasks := AppendBuildTasks(legacy, ts, selection, inventory);
    WithoutNativeKeeps(legacy);
    var t :| t in legacy && t.key == key;
    if IsNativeBuildKey(key) {
      assert LegacyNeedsProducer(legacy);
      assert NATIVE_PRODUCER in tasks;
    } else {
      assert t in tasks;
    }
  }

  /** A task of the build pass loads the addon only in a plan that builds it. */
  lemma BuildPassIsSupplied(legacy: seq<Task>, ts: seq<TsUnit>, selection: CargoSelection, inventory: seq<CargoUnit>)
    requires Plain(legacy)
    ensures Supplied(AppendBuildTasks(legacy, ts, selection, inventory))
  {
    hide NeedsNative, CargoNeedsProducer, WithoutNative, IsNativeBuildKey;
    var tasks := AppendBuildTasks(legacy, ts, selection, inventory);
    var cargo := CargoTasks(selection);
    WithoutNativeKeeps(legacy);
    var kept := WithoutNative(legacy);
    if i :| 0 <= i < |tasks| && Consumes(tasks[i]) {
      assert NeedsProducer(legacy, ts, cargo, inventory) by {
        if i < |kept| {
          assert tasks[i] == kept[i] && kept[i] in legacy;
        } else if !NeedsProducer(legacy, ts, cargo, inventory) {
          assert false;
        }
      }
      assert tasks[|kept|] == NATIVE_PRODUCER;
      assert Produces(tasks[|kept|]);
    }
  }

  datatype Kind = Planned | NativeBuild | TsBuild | CargoBuild

  function KindOf(key: string): Kind {
    if IsNativeBuildKey(key) then NativeBuild
    else if StartsWith(key, "ts-build:") then TsBuild
    else if StartsWith(key, "cargo-build:") then CargoBuild
    else Planned
  }

  predicate AllKind(tasks: seq<Task>, kind: Kind) {
    forall i :: 0 <= i < |tasks| ==> KindOf(tasks[i].key) == kind
  }

  lemma UniqueByKind(a: seq<Task>, b: seq<Task>, c: seq<Task>, d: seq<Task>)
    requires UniqueKeys(a) && UniqueKeys(b) && UniqueKeys(c) && UniqueKeys(d)
    requires AllKind(a, Planned) && AllKind(b, NativeBuild) && AllKind(c, TsBuild) && AllKind(d, CargoBuild)
    ensures UniqueKeys(a + b + c + d)
  {
    hide KindOf;
  }

  lemma BuildKeyKinds(rest: string)
    ensures KindOf("ts-build:" + rest) == TsBuild && KindOf("cargo-build:" + rest) == CargoBuild
  {
    assert ("ts-build:" + rest)[0] == 't' && ("cargo-build:" + rest)[0] == 'c';
    assert NATIVE_BUILD[0] == 'n' && NATIVE_LINUX[0] == 'n' && "ts-build:"[0] == 't';
    assert "ts-build:" <= "ts-build:" + rest && "cargo-build:" <= "cargo-build:" + rest;
  }

  predicate DistinctUnits(ts: seq<TsUnit>, selection: CargoSelection) {
    && (forall i, j :: 0 <= i < j < |ts| ==> ts[i].stable != ts[j].stable)
    && (selection.Crates? ==>
          forall i, j :: 0 <= i < j < |selection.units| ==> selection.units[i].stable != selection.units[j].stable)
  }

  lemma TsTasksUnique(ts: seq<TsUnit>)
    requires forall i, j :: 0 <= i < j < |ts| ==> ts[i].stable != ts[j].stable
    ensures UniqueKeys(seq(|ts|, i requires 0 <= i < |ts| => TsTask(ts[i])))
  {
    forall i, j | 0 <= i < j < |ts| ensures TsTask(ts[i]).key != TsTask(ts[j]).key {
      DifferentRest("ts-build:" + "ts:", ts[i].stable, ts[j].stable);
      assert forall s: string :: "ts-build:" + ("ts:" + s) == ("ts-build:" + "ts:") + s;
    }
  }

  lemma DifferentRest(prefix: string, a: string, b: string)
    requires a != b
    ensures prefix + a != prefix + b
  {
    assert (prefix + a)[|prefix|..] == a && (prefix + b)[|prefix|..] == b;
  }

  lemma CargoTasksUnique(selection: CargoSelection)
    requires DistinctUnits([], selection)
    ensures UniqueKeys(CargoTasks(selection))
  {
    if selection.Crates? {
      var units := selection.units;
      forall i, j | 0 <= i < j < |units| ensures CargoTask(units[i]).key != CargoTask(units[j]).key {
        DifferentRest("cargo-build:" + "cargo:", units[i].stable, units[j].stable);
        assert forall s: string :: "cargo-build:" + ("cargo:" + s) == ("cargo-build:" + "cargo:") + s;
      }
    }
  }

  /** Whatever plan the pass is given, its result holds at most one native-build key, and that is the dedicated producer's. */
  lemma OneNativeBuild(legacy: seq<Task>, ts: seq<TsUnit>, selection: CargoSelection, inventory: seq<CargoUnit>, i: nat)
    requires i < |AppendBuildTasks(legacy, ts, selection, inventory)|
    ensures var tasks := AppendBuildTasks(legacy, ts, selection, inventory);
            IsNativeBuildKey(tasks[i].key) <==> i == |WithoutNative(legacy)| && tasks[i] == NATIVE_PRODUCER
  {
    hide CargoTasks, WithoutNative, NeedsProducer, IsNativeBuildKey, KindOf;
    var tasks := AppendBuildTasks(legacy, ts, selection, inventory);
    var kept, cargo := WithoutNative(legacy), CargoTasks(selection);
    var built := seq(|ts|, j requires 0 <= j < |ts| => TsTask(ts[j]));
    var n := if NeedsProducer(legacy, ts, cargo, inventory) then 1 else 0;
    WithoutNativeKeeps(legacy);
    ProducerKind();
    BuildTaskKinds(ts, selection);
    NativeKind(tasks[i].key);
    if i < |kept| {
      assert tasks[i] == kept[i] && kept[i] in kept;
    } else if i < |kept| + n {
      assert tasks[i] == NATIVE_PRODUCER;
    } else if i < |kept| + n + |ts| {
      assert tasks[i] == built[i - |kept| - n];
    } else {
      assert tasks[i] == cargo[i - |kept| - n - |ts|];
    }
  }

  lemma NativeKind(key: string)
    ensures KindOf(key) == NativeBuild <==> IsNativeBuildKey(key)
  {
  }

  lemma EmergencyKind()
    ensures KindOf(EMERGENCY_KEY) == CargoBuild
  {
    hide KindOf;
    BuildKeyKinds("emergency:workspace");
    assert EMERGENCY_KEY == "cargo-build:" + "emergency:workspace";
  }

  lemma BuildTaskKinds(ts: seq<TsUnit>, selection: CargoSelection)
    ensures AllKind(seq(|ts|, i requires 0 <= i < |ts| => TsTask(ts[i])), TsBuild)
    ensures AllKind(CargoTasks(selection), CargoBuild)
  {
    hide KindOf;
    EmergencyKind();
    forall i | 0 <= i < |ts| ensures KindOf(TsTask(ts[i]).key) == TsBuild {
      BuildKeyKinds("ts:" + ts[i].stable);
    }
    if selection.Crates? {
      forall i | 0 <= i < |selection.units| ensures KindOf(CargoTask(selection.units[i]).key) == CargoBuild {
        BuildKeyKinds("cargo:" + selection.units[i].stable);
      }
    }
  }

  /** Keys a planner may use: none of the prefixes of the build pass. */
  predicate NoBuildKeys(keys: set<string>) {
    forall k :: k in keys ==> !StartsWith(k, "ts-build:") && !StartsWith(k, "cargo-build:")
  }

  /** Every key of the final plan is used once. */
  lemma BuildPassKeysUnique(legacy: seq<Task>, ts: seq<TsUnit>, selection: CargoSelection, inventory: seq<CargoUnit>)
    requires UniqueKeys(legacy) && NoBuildKeys(Keys(legacy)) && DistinctUnits(ts, selection)
    ensures UniqueKeys(AppendBuildTasks(legacy, ts, selection, inventory))
  {
    hide CargoTasks, WithoutNative, NeedsProducer, IsNativeBuildKey, UniqueKeys;
    WithoutNativeKeeps(legacy);
    var kept, cargo := WithoutNative(legacy), CargoTasks(selection);
    forall i | 0 <= i < |kept| ensures KindOf(kept[i].key) == Planned {
      assert kept[i] in legacy;
      assert kept[i].key in Keys(legacy);
    }
    TsTasksUnique(ts);
    CargoTasksUnique(selection);
    BuildTaskKinds(ts, selection);
    ProducerKind();
    var producer := if NeedsProducer(legacy, ts, cargo, inventory) then [NATIVE_PRODUCER] else [];
    assert UniqueKeys(producer) by { OneIsUnique(producer); }
    UniqueByKind(kept, producer, seq(|ts|, i requires 0 <= i < |ts| => TsTask(ts[i])), cargo);
  }

  lemma OneIsUnique(tasks: seq<Task>)
    requires |tasks| <= 1
    ensures UniqueKeys(tasks)
  {
  }

  lemma ProducerKind()
    ensures KindOf(NATIVE_PRODUCER.key) == NativeBuild
  {
  }
}

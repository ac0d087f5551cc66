/** Whole runs of loads, unloads and reloads: what the graph of loaded modules always satisfies. */
module ModuleLifecycle {
  import opened Prelude
  import opened ModuleGraph

  /** The loaded modules with the order they were loaded in: `stamp` grows with every load. */
  datatype Node = Node(mods: Modules, stamp: map<Name, nat>, clock: nat)

  /** Module `x` has its hard dependency `d` loaded, running, in an accepted version and loaded earlier. */
  ghost predicate DepHolds(rules: Rules, n: Node, x: Name, d: Name) {
    DependsOn(n.mods, x, d) ==>
      && d in n.mods && rules.satisfies(n.mods[d].meta.version, n.mods[x].meta.deps[d])
      && d in n.stamp && x in n.stamp && n.stamp[d] < n.stamp[x]
  }

  ghost predicate WellFounded(rules: Rules, n: Node) {
    && (forall x, d :: DepHolds(rules, n, x, d))
    && (forall x :: x in n.mods ==> x in n.stamp && n.stamp[x] < n.clock && n.mods[x].state == Running)
  }

  /** Every hard dependency of a loaded module is loaded. */
  ghost predicate Closed(mods: Modules) {
    forall x, d :: DependsOn(mods, x, d) ==> d in mods
  }

  function Load(rules: Rules, n: Node, name: Name, meta: Meta, spawnOk: bool): Node {
    if CanLoad(rules, n.mods, name, meta) && spawnOk
    then Node(n.mods[name := Module(meta, Running)], n.stamp[name := n.clock], n.clock + 1)
    else n
  }

  ghost function Unload(n: Node, killOk: Name -> bool, name: Name): Node {
    if name in n.mods then n.(mods := UnloadOf(n.mods, killOk, name)) else n
  }

  /** What a reload is given: the new manifest, what discovery finds per module, and which spawns and kills succeed. */
  datatype Reloading = Reloading(name: Name, meta: Meta, found: Name -> Option<Meta>, spawnOk: Name -> bool, killOk: Name -> bool)

  /** One dependent: skipped when undiscovered or its requirement rejects the new version, else loaded. */
  function ReloadDependent(rules: Rules, n: Node, r: Reloading, d: Name): Node {
    var found := r.found(d);
    if found.None? || (r.name in found.value.deps && !rules.satisfies(r.meta.version, found.value.deps[r.name])) then n
    else Load(rules, n, d, found.value, r.spawnOk(d))
  }

  function ReloadDependents(rules: Rules, n: Node, r: Reloading, order: seq<Name>): Node {
    if order == [] then n
    else ReloadDependent(rules, ReloadDependents(rules, n, r, order[..|order| - 1]), r, order[|order| - 1])
  }

  /** `order` is the order in which the direct hard dependents are revisited. */
  ghost function Reload(rules: Rules, n: Node, r: Reloading, order: seq<Name>): Node {
    var unloaded := Unload(n, r.killOk, r.name);
    if CanLoad(rules, unloaded.mods, r.name, r.meta) && r.spawnOk(r.name)
    then ReloadDependents(rules, Load(rules, unloaded, r.name, r.meta, true), r, order)
    else unloaded
  }

  // ---------------------------------------------------------------------------
  // Every run keeps the graph closed, accepted and acyclic
  // ---------------------------------------------------------------------------

  lemma LoadKeepsWellFounded(rules: Rules, n: Node, name: Name, meta: Meta, spawnOk: bool)
    requires WellFounded(rules, n)
    ensures WellFounded(rules, Load(rules, n, name, meta, spawnOk))
  {
    var r := Load(rules, n, name, meta, spawnOk);
    if r != n {
      forall x, d ensures DepHolds(rules, r, x, d) {
        if DependsOn(r.mods, x, d) {
          if x == name {
            assert DepReady(rules, n.mods, meta, d);
          } else {
            assert DepHolds(rules, n, x, d);
          }
        }
      }
    }
  }

  lemma UnloadKeepsWellFounded(rules: Rules, n: Node, killOk: Name -> bool, name: Name)
    requires WellFounded(rules, n) && forall x :: killOk(x)
    ensures WellFounded(rules, Unload(n, killOk, name))
  {
    if name in n.mods {
      UnloadCascades(n.mods, killOk, name);
      var r := Unload(n, killOk, name);
      forall x, d ensures DepHolds(rules, r, x, d) {
        assert DepHolds(rules, n, x, d);
      }
    }
  }

  lemma {:induction false} ReloadDependentsKeepWellFounded(rules: Rules, n: Node, r: Reloading, order: seq<Name>)
    requires WellFounded(rules, n)
    ensures WellFounded(rules, ReloadDependents(rules, n, r, order))
  {
    if order != [] {
      var d := order[|order| - 1];
      ReloadDependentsKeepWellFounded(rules, n, r, order[..|order| - 1]);
      if r.found(d).Some? {
        LoadKeepsWellFounded(rules, ReloadDependents(rules, n, r, order[..|order| - 1]), d, r.found(d).value, r.spawnOk(d));
      }
    }
  }

  datatype Op =
    | LoadOp(name: Name, meta: Meta, spawnOk: bool)
    | UnloadOp(name: Name)
    | ReloadOp(r: Reloading, order: seq<Name>)

  ghost predicate KillsSucceed(op: Op) {
    op.ReloadOp? ==> forall x :: op.r.killOk(x)
  }

  ghost function Apply(rules: Rules, n: Node, op: Op): Node {
    match op
    case LoadOp(name, meta, spawnOk) => Load(rules, n, name, meta, spawnOk)
    case UnloadOp(name) => Unload(n, x => true, name)
    case ReloadOp(r, order) => Reload(rules, n, r, order)
  }

  ghost function Run(rules: Rules, n: Node, ops: seq<Op>): Node
    decreases ops
  {
    if ops == [] then n else Run(rules, Apply(rules, n, ops[0]), ops[1..])
  }

  /** In every run, whatever order dependents are revisited in, dependencies stay loaded, accepted and older. */
  lemma {:induction false} RunKeepsWellFounded(rules: Rules, n: Node, ops: seq<Op>)
    requires WellFounded(rules, n) && forall i :: 0 <= i < |ops| ==> KillsSucceed(ops[i])
    ensures WellFounded(rules, Run(rules, n, ops))
    decreases ops
  {
    if ops != [] {
      match ops[0] {
        case LoadOp(name, meta, spawnOk) => LoadKeepsWellFounded(rules, n, name, meta, spawnOk);
        case UnloadOp(name) => UnloadKeepsWellFounded(rules, n, x => true, name);
        case ReloadOp(r, order) =>
          assert KillsSucceed(ops[0]);
          UnloadKeepsWellFounded(rules, n, r.killOk, r.name);
          var u := Unload(n, r.killOk, r.name);
          LoadKeepsWellFounded(rules, u, r.name, r.meta, true);
          ReloadDependentsKeepWellFounded(rules, Load(rules, u, r.name, r.meta, true), r, order);
      }
      RunKeepsWellFounded(rules, Apply(rules, n, ops[0]), ops[1..]);
    }
  }

  lemma {:induction false} ChainGoesBack(rules: Rules, n: Node, killOk: Name -> bool, x: Name, m: Name, hops: seq<Name>)
    requires WellFounded(rules, n) && Chain(n.mods, killOk, x, m, hops) && hops != []
    ensures m in n.stamp && x in n.stamp && n.stamp[m] < n.stamp[x]
    decreases hops
  {
    assert DepHolds(rules, n, x, hops[0]);
    if |hops| > 1 {
      ChainGoesBack(rules, n, killOk, hops[0], m, hops[1..]);
    }
  }

  /** So the graph is closed and no module reaches itself. */
  lemma WellFoundedIsClosedAndAcyclic(rules: Rules, n: Node, killOk: Name -> bool)
    requires WellFounded(rules, n)
    ensures Closed(n.mods)
    ensures forall x, hops :: hops != [] ==> !Chain(n.mods, killOk, x, x, hops)
  {
    forall x, d | DependsOn(n.mods, x, d) ensures d in n.mods {
      assert DepHolds(rules, n, x, d);
    }
    forall x, hops | hops != [] && Chain(n.mods, killOk, x, x, hops) ensures false {
      ChainGoesBack(rules, n, killOk, x, x, hops);
    }
  }

  // ---------------------------------------------------------------------------
  // Failed kills, crashes, shutdown
  // ---------------------------------------------------------------------------

  /** With failing kills, closure survives an unload exactly when nothing left depends on a fallen module whose kill failed. */
  lemma UnloadStaysClosedIff(mods: Modules, killOk: Name -> bool, m: Name)
    requires Closed(mods) && m in mods
    ensures var left := UnloadOf(mods, killOk, m);
            Closed(left) <==>
            forall x, y :: x in left && y in mods && Falls(mods, killOk, y, m) && !killOk(y) ==> !DependsOn(mods, x, y)
  {
    UnloadCascades(mods, killOk, m);
    var left := UnloadOf(mods, killOk, m);
    if forall x, y :: x in left && y in mods && Falls(mods, killOk, y, m) && !killOk(y) ==> !DependsOn(mods, x, y) {
      forall x, d | DependsOn(left, x, d) ensures d in left {
        assert DependsOn(mods, x, d);
      }
    }
    if Closed(left) {
      forall x, y | x in left && y in mods && Falls(mods, killOk, y, m) ensures !DependsOn(mods, x, y) {
        assert DependsOn(mods, x, y) ==> DependsOn(left, x, y);
      }
    }
  }

  /** The crash handler removes the crashed module and its direct hard dependents, not theirs. */
  function CrashOf(mods: Modules, m: Name): Modules {
    mods - ({m} + HardDependents(mods, m))
  }

  lemma CrashLeavesNoDirectDependent(mods: Modules, m: Name)
    ensures Submap(CrashOf(mods, m), mods) && m !in CrashOf(mods, m)
    ensures forall x :: !DependsOn(CrashOf(mods, m), x, m)
    ensures forall x :: x in mods && x !in CrashOf(mods, m) ==> x == m || DependsOn(mods, x, m)
  {
  }

  /** A crash keeps closure exactly when no surviving module depends on a direct dependent of the crashed one. */
  lemma CrashStaysClosedIff(mods: Modules, m: Name)
    requires Closed(mods)
    ensures Closed(CrashOf(mods, m)) <==>
            forall x, y :: x in CrashOf(mods, m) && DependsOn(mods, y, m) ==> !DependsOn(mods, x, y)
  {
    var left := CrashOf(mods, m);
    if forall x, y :: x in left && DependsOn(mods, y, m) ==> !DependsOn(mods, x, y) {
      forall x, d | DependsOn(left, x, d) ensures d in left {
        assert DependsOn(mods, x, d);
        assert x !in HardDependents(mods, m);
      }
    }
    if Closed(left) {
      forall x, y | x in left && DependsOn(mods, y, m) ensures !DependsOn(mods, x, y) {
        assert DependsOn(mods, x, y) ==> DependsOn(left, x, y);
      }
    }
  }

  const Base := Module(Meta("1", map[], map[], {}), Running)
  const OnBase := Module(Meta("1", map[0 := "1"], map[], {}), Running)
  const OnMid := Module(Meta("1", map[1 := "1"], map[], {}), Running)

  /** Three modules in a line: when the base crashes, the far end stays loaded without its dependency. */
  lemma CrashCanStrandAModule()
    ensures var mods := map[0 := Base, 1 := OnBase, 2 := OnMid];
            Closed(mods) && CrashOf(mods, 0) == map[2 := OnMid] && !Closed(CrashOf(mods, 0))
  {
    var mods := map[0 := Base, 1 := OnBase, 2 := OnMid];
    assert HardDependents(mods, 0) == {1};
    assert DependsOn(CrashOf(mods, 0), 2, 1);
  }

  /** A kill that fails leaves the dependents of the removed module loaded. */
  lemma FailedKillStrandsDependents()
    ensures var mods := map[0 := Base, 1 := OnBase];
            UnloadOf(mods, x => x != 0, 0) == map[1 := OnBase] && !Closed(UnloadOf(mods, x => x != 0, 0))
  {
    var mods := map[0 := Base, 1 := OnBase];
    var killOk := x => x != 0;
    assert Chain(mods, killOk, 0, 0, []);
    forall hops ensures !Chain(mods, killOk, 1, 0, hops) {
      assert hops != [] && DependsOn(mods, 1, hops[0]) ==> hops[0] == 0;
    }
    var left := UnloadOf(mods, killOk, 0);
    assert left == map[1 := OnBase];
    assert DependsOn(left, 1, 0);
  }

  ghost function ShutdownOf(mods: Modules, killOk: Name -> bool, names: seq<Name>): Modules {
    if names == [] then mods
    else
      var left := ShutdownOf(mods, killOk, names[..|names| - 1]);
      var name := names[|names| - 1];
      if name in left then UnloadOf(left, killOk, name) else left
  }

  lemma {:induction false} ShutdownRemovesListed(mods: Modules, killOk: Name -> bool, names: seq<Name>)
    ensures Submap(ShutdownOf(mods, killOk, names), mods)
    ensures forall x :: x in names ==> x !in ShutdownOf(mods, killOk, names)
  {
    if names != [] {
      ShutdownRemovesListed(mods, killOk, names[..|names| - 1]);
      var left := ShutdownOf(mods, killOk, names[..|names| - 1]);
      var name := names[|names| - 1];
      if name in left {
        UnloadCascades(left, killOk, name);
      }
      forall x | x in names ensures x !in ShutdownOf(mods, killOk, names) {
        assert x == name || x in names[..|names| - 1];
      }
    }
  }

  /** Shutdown leaves no module loaded, in every order and whichever kills fail. */
  lemma ShutdownEmpties(mods: Modules, killOk: Name -> bool, names: seq<Name>)
    requires Enumerates(names, mods.Keys)
    ensures ShutdownOf(mods, killOk, names) == map[]
  {
    ShutdownRemovesListed(mods, killOk, names);
    forall x ensures x !in ShutdownOf(mods, killOk, names) {
      assert x in mods ==> x in mods.Keys;
    }
  }

  // ---------------------------------------------------------------------------
  // What a reload brings back
  // ---------------------------------------------------------------------------

  /** Dependencies come before the modules that need them. */
  ghost predicate Topological(mods: Modules, order: seq<Name>) {
    forall i, j :: 0 <= i < |order| && 0 <= j < |order| && DependsOn(mods, order[i], order[j]) ==> j < i
  }

  /** A reload in which nothing fails: manifests are found unchanged and the new version suits every dependent. */
  ghost predicate SmoothReload(rules: Rules, n: Node, r: Reloading, order: seq<Name>) {
    && r.name in n.mods && (forall x :: r.killOk(x) && r.spawnOk(x))
    && Enumerates(order, HardDependents(n.mods, r.name))
    && CanLoad(rules, Unload(n, r.killOk, r.name).mods, r.name, r.meta)
    && (forall x :: DependsOn(n.mods, x, r.name) ==> SmoothDependent(rules, n, r, x))
  }

  ghost predicate SmoothDependent(rules: Rules, n: Node, r: Reloading, x: Name)
    requires DependsOn(n.mods, x, r.name)
  {
    && r.found(x) == Some(n.mods[x].meta) && n.mods[x].meta.rpcOverrides <= rules.overridable
    && rules.satisfies(r.meta.version, n.mods[x].meta.deps[r.name])
  }

  /** The modules that fall are the reloaded one and its direct dependents. */
  ghost predicate OnlyDirectFall(n: Node, r: Reloading) {
    forall x :: x in n.mods && Falls(n.mods, r.killOk, x, r.name) ==> x == r.name || DependsOn(n.mods, x, r.name)
  }

  ghost function Reloaded(rules: Rules, n: Node, r: Reloading): Node {
    Load(rules, Unload(n, r.killOk, r.name), r.name, r.meta, true)
  }

  /** Loading dependents adds only listed names and changes nothing already loaded. */
  lemma {:induction false} ReloadAddsOnlyListed(rules: Rules, n: Node, r: Reloading, order: seq<Name>)
    ensures Submap(n.mods, ReloadDependents(rules, n, r, order).mods)
    ensures forall x :: x in ReloadDependents(rules, n, r, order).mods ==> x in n.mods || x in order
  {
    if order != [] {
      ReloadAddsOnlyListed(rules, n, r, order[..|order| - 1]);
    }
  }

  /** The direct dependents fell and are not loaded before their own turn. */
  lemma NotYetBack(rules: Rules, n: Node, r: Reloading, order: seq<Name>, i: nat, x: Name)
    requires WellFounded(rules, n) && SmoothReload(rules, n, r, order) && i <= |order|
    requires x in n.mods && x != r.name && Falls(n.mods, r.killOk, x, r.name) && x !in order[..i]
    ensures x !in ReloadDependents(rules, Reloaded(rules, n, r), r, order[..i]).mods
  {
    ReloadAddsOnlyListed(rules, Reloaded(rules, n, r), r, order[..i]);
  }

  lemma DirectDependentFalls(rules: Rules, n: Node, r: Reloading, order: seq<Name>, x: Name)
    requires WellFounded(rules, n) && SmoothReload(rules, n, r, order) && DependsOn(n.mods, x, r.name)
    ensures Falls(n.mods, r.killOk, x, r.name) && x != r.name
  {
    assert Chain(n.mods, r.killOk, r.name, r.name, []);
    assert ([r.name])[1..] == [];
    assert Chain(n.mods, r.killOk, x, r.name, [r.name]);
    assert DepHolds(rules, n, x, r.name);
  }

  lemma NextDependencyReady(rules: Rules, n: Node, r: Reloading, order: seq<Name>, i: nat, e: Name)
    requires WellFounded(rules, n) && SmoothReload(rules, n, r, order) && i < |order|
    requires OnlyDirectFall(n, r) && Topological(n.mods, order) && DependsOn(n.mods, order[i], e)
    requires DependsOn(n.mods, order[i], r.name)
    requires var now := ReloadDependents(rules, Reloaded(rules, n, r), r, order[..i]).mods;
             forall j :: 0 <= j < i ==> order[j] in n.mods && order[j] in now && now[order[j]] == n.mods[order[j]]
    ensures DepReady(rules, ReloadDependents(rules, Reloaded(rules, n, r), r, order[..i]).mods, n.mods[order[i]].meta, e)
  {
    ReloadAddsOnlyListed(rules, Reloaded(rules, n, r), r, order[..i]);
    assert DepHolds(rules, n, order[i], e);
    if Falls(n.mods, r.killOk, e, r.name) {
      if e == r.name {
        assert SmoothDependent(rules, n, r, order[i]);
      } else {
        assert e in HardDependents(n.mods, r.name);
        var j :| 0 <= j < |order| && order[j] == e;
        assert j < i;
      }
    }
  }

  lemma {:induction false} TopologicalReloadRestores(rules: Rules, n: Node, r: Reloading, order: seq<Name>, i: nat)
    requires WellFounded(rules, n) && SmoothReload(rules, n, r, order) && i <= |order|
    requires OnlyDirectFall(n, r) && Topological(n.mods, order)
    ensures var now := ReloadDependents(rules, Reloaded(rules, n, r), r, order[..i]).mods;
            forall j :: 0 <= j < i ==> order[j] in n.mods && order[j] in now && now[order[j]] == n.mods[order[j]]
  {
    if i > 0 {
      TopologicalReloadRestores(rules, n, r, order, i - 1);
      var d := order[i - 1];
      assert order[..i][..i - 1] == order[..i - 1];
      var before := ReloadDependents(rules, Reloaded(rules, n, r), r, order[..i - 1]);
      assert d in HardDependents(n.mods, r.name);
      assert SmoothDependent(rules, n, r, d);
      DirectDependentFalls(rules, n, r, order, d);
      NotYetBack(rules, n, r, order, i - 1, d);
      forall e | e in n.mods[d].meta.deps ensures DepReady(rules, before.mods, n.mods[d].meta, e) {
        NextDependencyReady(rules, n, r, order, i - 1, e);
      }
      assert CanLoad(rules, before.mods, d, n.mods[d].meta);
    }
  }

  /** Loading a dependent whose own dependency comes later in the order fails, for good. */
  lemma {:induction false} OutOfOrderStaysOut(rules: Rules, n: Node, r: Reloading, order: seq<Name>, i: nat, j: nat, k: nat)
    requires WellFounded(rules, n) && SmoothReload(rules, n, r, order)
    requires i < j < |order| && DependsOn(n.mods, order[i], order[j]) && i < k <= |order|
    ensures order[i] !in ReloadDependents(rules, Reloaded(rules, n, r), r, order[..k]).mods
  {
    assert order[..k][..k - 1] == order[..k - 1];
    assert order[i] in HardDependents(n.mods, r.name) && order[j] in HardDependents(n.mods, r.name);
    if k == i + 1 {
      var before := ReloadDependents(rules, Reloaded(rules, n, r), r, order[..i]);
      DirectDependentFalls(rules, n, r, order, order[i]);
      DirectDependentFalls(rules, n, r, order, order[j]);
      NotYetBack(rules, n, r, order, i, order[i]);
      NotYetBack(rules, n, r, order, i, order[j]);
      assert SmoothDependent(rules, n, r, order[i]);
      assert !DepReady(rules, before.mods, n.mods[order[i]].meta, order[j]);
    } else {
      OutOfOrderStaysOut(rules, n, r, order, i, j, k - 1);
      assert order[k - 1] != order[i];
    }
  }

  lemma OrderedReloadRestores(rules: Rules, n: Node, r: Reloading, order: seq<Name>)
    requires WellFounded(rules, n) && SmoothReload(rules, n, r, order)
    requires OnlyDirectFall(n, r) && Topological(n.mods, order)
    ensures Reload(rules, n, r, order).mods.Keys == n.mods.Keys
  {
    var done := Reload(rules, n, r, order);
    assert order[..|order|] == order;
    ReloadAddsOnlyListed(rules, Reloaded(rules, n, r), r, order);
    TopologicalReloadRestores(rules, n, r, order, |order|);
    forall x | x in n.mods ensures x in done.mods {
      if x != r.name && Falls(n.mods, r.killOk, x, r.name) {
        assert x in HardDependents(n.mods, r.name);
        var j :| 0 <= j < |order| && order[j] == x;
      }
    }
    forall x | x in done.mods ensures x in n.mods {
      if x in order {
        assert x in HardDependents(n.mods, r.name);
      }
    }
  }

  lemma RestoringReloadIsOrdered(rules: Rules, n: Node, r: Reloading, order: seq<Name>)
    requires WellFounded(rules, n) && SmoothReload(rules, n, r, order)
    requires Reload(rules, n, r, order).mods.Keys == n.mods.Keys
    ensures OnlyDirectFall(n, r) && Topological(n.mods, order)
  {
    var done := Reload(rules, n, r, order);
    assert order[..|order|] == order;
    ReloadAddsOnlyListed(rules, Reloaded(rules, n, r), r, order);
    forall x | x in n.mods && Falls(n.mods, r.killOk, x, r.name) ensures x == r.name || DependsOn(n.mods, x, r.name) {
      assert x in done.mods.Keys;
      assert x == r.name || x in HardDependents(n.mods, r.name);
    }
    forall i, j | 0 <= i < |order| && 0 <= j < |order| && DependsOn(n.mods, order[i], order[j]) ensures j < i {
      assert order[i] in HardDependents(n.mods, r.name);
      assert DepHolds(rules, n, order[i], order[j]) && order[i] in done.mods.Keys;
      if i < j {
        OutOfOrderStaysOut(rules, n, r, order, i, j, |order|);
      }
    }
  }

  /**
   A reload in which nothing fails brings every module back exactly when no module falls
   beyond the direct dependents and they are revisited dependencies first.
   */
  lemma ReloadRestoresIff(rules: Rules, n: Node, r: Reloading, order: seq<Name>)
    requires WellFounded(rules, n) && SmoothReload(rules, n, r, order)
    ensures Reload(rules, n, r, order).mods.Keys == n.mods.Keys <==> OnlyDirectFall(n, r) && Topological(n.mods, order)
  {
    if OnlyDirectFall(n, r) && Topological(n.mods, order) {
      OrderedReloadRestores(rules, n, r, order);
    }
    if Reload(rules, n, r, order).mods.Keys == n.mods.Keys {
      RestoringReloadIsOrdered(rules, n, r, order);
    }
  }

  // ---------------------------------------------------------------------------
  // Two reloads that lose a module
  // ---------------------------------------------------------------------------

  const OnBoth := Module(Meta("1", map[0 := "1", 1 := "1"], map[], {}), Running)

  /** Every version is accepted and no core method may be overridden. */
  function AnyVersion(): Rules {
    Rules((v, r) => true, {})
  }

  /** Base, a module on it, and a third one, loaded in this order. */
  function WithThird(third: Module): Node {
    Node(map[0 := Base, 1 := OnBase, 2 := third], map[0 := 0, 1 := 1, 2 := 2], 3)
  }

  /** The base is reloaded unchanged, everything is found as it was, and nothing fails. */
  function ReloadBase(third: Module): Reloading {
    Reloading(0, Base.meta, x => if x == 1 then Some(OnBase.meta) else if x == 2 then Some(third.meta) else None, x => true, x => true)
  }

  lemma ThreeAreWellFounded(third: Module)
    requires third == OnMid || third == OnBoth
    ensures WellFounded(AnyVersion(), WithThird(third))
  {
    var n := WithThird(third);
    forall x, d ensures DepHolds(AnyVersion(), n, x, d) {
    }
  }

  lemma BaseCanComeBack(third: Module)
    requires third == OnMid || third == OnBoth
    ensures var r := ReloadBase(third); CanLoad(AnyVersion(), Unload(WithThird(third), r.killOk, 0).mods, 0, r.meta)
  {
    assert Chain(WithThird(third).mods, ReloadBase(third).killOk, 0, 0, []);
  }

  /** A line of three: the far end falls with the base, is no direct dependent, and is not brought back. */
  lemma ReloadLosesAnIndirectDependent()
    ensures var n, r := WithThird(OnMid), ReloadBase(OnMid);
            && WellFounded(AnyVersion(), n) && SmoothReload(AnyVersion(), n, r, [1])
            && 2 in n.mods && 2 !in Reload(AnyVersion(), n, r, [1]).mods
  {
    var n, r := WithThird(OnMid), ReloadBase(OnMid);
    ThreeAreWellFounded(OnMid);
    BaseCanComeBack(OnMid);
    assert HardDependents(n.mods, 0) == {1};
    assert Chain(n.mods, r.killOk, 0, 0, []) && Chain(n.mods, r.killOk, 1, 0, [0]) && Chain(n.mods, r.killOk, 2, 0, [1, 0]) by {
      assert [0][1..] == [] && [1, 0][1..] == [0];
    }
    assert [1][..1] == [1];
    NotYetBack(AnyVersion(), n, r, [1], 1, 2);
  }

  lemma BothAreSmooth(order: seq<Name>)
    requires Enumerates(order, {1, 2})
    ensures SmoothReload(AnyVersion(), WithThird(OnBoth), ReloadBase(OnBoth), order)
  {
    BaseCanComeBack(OnBoth);
  }

  /** Two direct dependents, one of which needs the other: revisited first, it is not brought back. */
  lemma ReloadLosesByOrder()
    ensures var n, r := WithThird(OnBoth), ReloadBase(OnBoth);
            && WellFounded(AnyVersion(), n) && SmoothReload(AnyVersion(), n, r, [2, 1]) && OnlyDirectFall(n, r)
            && 2 in n.mods && 2 !in Reload(AnyVersion(), n, r, [2, 1]).mods
  {
    var n, r := WithThird(OnBoth), ReloadBase(OnBoth);
    ThreeAreWellFounded(OnBoth);
    BothAreSmooth([2, 1]);
    BaseCanComeBack(OnBoth);
    assert [2, 1][..2] == [2, 1];
    OutOfOrderStaysOut(AnyVersion(), n, r, [2, 1], 0, 1, 2);
  }
}

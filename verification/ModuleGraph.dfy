/**
 The loaded-module graph: what loading, unloading, reloading, a crash and shutdown do to
 the map of loaded modules and their hard dependencies.
 */
module ModuleGraph {
  import opened Prelude

  /** Module names. Only equality of names is ever used. */
  type Name = nat

  /** Manifest data: version, hard and optional dependencies with their requirements, overridden RPC methods. */
  datatype Meta = Meta(version: string, deps: map<Name, string>, optional: map<Name, string>, rpcOverrides: set<string>)

  datatype State = Initializing | Running | Stopping | Stopped | Failed

  datatype Module = Module(meta: Meta, state: State)

  type Modules = map<Name, Module>

  /** How versions satisfy requirements, and which core RPC methods a module may override. */
  datatype Rules = Rules(satisfies: (string, string) -> bool, overridable: set<string>)

  predicate DependsOn(mods: Modules, x: Name, y: Name) {
    x in mods && y in mods[x].meta.deps
  }

  function HardDependents(mods: Modules, name: Name): set<Name> {
    set x | x in mods && DependsOn(mods, x, name)
  }

  /** Dependents the unload looks at: hard or optional. */
  function Dependents(mods: Modules, name: Name): set<Name> {
    set x | x in mods && (DependsOn(mods, x, name) || name in mods[x].meta.optional)
  }

  // ---------------------------------------------------------------------------
  // Loading
  // ---------------------------------------------------------------------------

  predicate DepReady(rules: Rules, mods: Modules, meta: Meta, d: Name)
    requires d in meta.deps
  {
    && d in mods && rules.satisfies(mods[d].meta.version, meta.deps[d])
    && (mods[d].state == Running || mods[d].state == Initializing)
  }

  predicate CanLoad(rules: Rules, mods: Modules, name: Name, meta: Meta) {
    name !in mods && meta.rpcOverrides <= rules.overridable && forall d :: d in meta.deps ==> DepReady(rules, mods, meta, d)
  }

  // ---------------------------------------------------------------------------
  // The unload cascade
  // ---------------------------------------------------------------------------

  /** `x` reaches `m` over hard dependencies, and every module behind `x` on the way was killed successfully. */
  ghost predicate Chain(mods: Modules, killOk: Name -> bool, x: Name, m: Name, hops: seq<Name>)
    decreases hops
  {
    x in mods
    && if hops == [] then x == m
       else DependsOn(mods, x, hops[0]) && killOk(hops[0]) && Chain(mods, killOk, hops[0], m, hops[1..])
  }

  /** The cascade from `m` takes `x` down. */
  ghost predicate Falls(mods: Modules, killOk: Name -> bool, x: Name, m: Name) {
    exists hops :: Chain(mods, killOk, x, m, hops)
  }

  /** What unloading `m` leaves. */
  ghost function UnloadOf(mods: Modules, killOk: Name -> bool, m: Name): Modules {
    map x | x in mods && !Falls(mods, killOk, x, m) :: mods[x]
  }

  ghost predicate Submap(a: Modules, b: Modules) {
    forall x :: x in a ==> x in b && a[x] == b[x]
  }

  lemma {:induction false} ChainInLarger(a: Modules, b: Modules, killOk: Name -> bool, x: Name, m: Name, hops: seq<Name>)
    requires Submap(a, b) && Chain(a, killOk, x, m, hops)
    ensures Chain(b, killOk, x, m, hops)
    decreases hops
  {
    if hops != [] {
      ChainInLarger(a, b, killOk, hops[0], m, hops[1..]);
    }
  }

  lemma {:induction false} ChainOneMore(mods: Modules, killOk: Name -> bool, x: Name, d: Name, m: Name, hops: seq<Name>)
    requires Chain(mods, killOk, x, d, hops) && DependsOn(mods, d, m) && killOk(m) && m in mods
    ensures Chain(mods, killOk, x, m, hops + [m])
    decreases hops
  {
    if hops == [] {
      assert Chain(mods, killOk, m, m, []);
      assert ([m])[1..] == [];
    } else {
      ChainOneMore(mods, killOk, hops[0], d, m, hops[1..]);
      assert (hops + [m])[1..] == hops[1..] + [m];
    }
  }

  /** What falls with a dependent in the remaining graph falls with `m` in the whole graph. */
  lemma FallsThroughDependent(all: Modules, rest: Modules, killOk: Name -> bool, x: Name, d: Name, m: Name)
    requires Submap(rest, all) && m in all && killOk(m)
    requires Falls(rest, killOk, x, d) && DependsOn(rest, d, m)
    ensures Falls(all, killOk, x, m)
  {
    var hops :| Chain(rest, killOk, x, d, hops);
    ChainInLarger(rest, all, killOk, x, d, hops);
    ChainOneMore(all, killOk, x, d, m, hops);
  }

  /** Nothing left depends on a module that went down with a successful kill, except possibly on `m`. */
  ghost predicate NoneDependsOnFallen(all: Modules, left: Modules, killOk: Name -> bool, m: Name) {
    forall x, y :: x in left && y in all && y !in left && y != m && killOk(y) ==> !DependsOn(left, x, y)
  }

  /** The four facts that pin down the outcome of a cascade. */
  ghost predicate Cascaded(all: Modules, left: Modules, killOk: Name -> bool, m: Name) {
    && Submap(left, all) && m !in left
    && (forall x :: x in all && x !in left ==> Falls(all, killOk, x, m))
    && NoneDependsOnFallen(all, left, killOk, m)
    && (killOk(m) ==> forall x :: x in left ==> !DependsOn(left, x, m))
  }

  lemma {:induction false} ChainFalls(all: Modules, left: Modules, killOk: Name -> bool, x: Name, m: Name, hops: seq<Name>)
    requires Cascaded(all, left, killOk, m) && Chain(all, killOk, x, m, hops)
    ensures x !in left
    decreases hops
  {
    if hops != [] {
      ChainFalls(all, left, killOk, hops[0], m, hops[1..]);
    }
  }

  lemma CascadeIsExact(all: Modules, left: Modules, killOk: Name -> bool, m: Name)
    requires Cascaded(all, left, killOk, m)
    ensures left == UnloadOf(all, killOk, m)
  {
    forall x | x in all ensures x in left <==> !Falls(all, killOk, x, m) {
      if Falls(all, killOk, x, m) {
        var hops :| Chain(all, killOk, x, m, hops);
        ChainFalls(all, left, killOk, x, m, hops);
      }
    }
  }

  lemma UnloadCascades(all: Modules, killOk: Name -> bool, m: Name)
    requires m in all
    ensures Cascaded(all, UnloadOf(all, killOk, m), killOk, m)
  {
    var left := UnloadOf(all, killOk, m);
    assert Chain(all, killOk, m, m, []);
    forall x, y | x in left && y in all && y !in left && killOk(y) ensures !DependsOn(left, x, y) {
      if DependsOn(left, x, y) {
        var hops :| Chain(all, killOk, y, m, hops);
        assert ([y] + hops)[1..] == hops;
        assert Chain(all, killOk, x, m, [y] + hops);
      }
    }
  }

  /** `fallen` holds `m` and, with every member that was killed, everything that hard-depends on it. */
  ghost predicate ClosedUnderDependents(mods: Modules, killOk: Name -> bool, m: Name, fallen: set<Name>) {
    m in fallen && forall x, y :: y in fallen && killOk(y) && DependsOn(mods, x, y) ==> x in fallen
  }

  lemma {:induction false} ChainStaysIn(mods: Modules, killOk: Name -> bool, x: Name, m: Name, hops: seq<Name>, fallen: set<Name>)
    requires Chain(mods, killOk, x, m, hops) && ClosedUnderDependents(mods, killOk, m, fallen)
    ensures x in fallen
    decreases hops
  {
    if hops != [] {
      ChainStaysIn(mods, killOk, hops[0], m, hops[1..], fallen);
    }
  }

  /** What an unload removes is the least set that holds `m` and is closed under hard dependents of killed modules. */
  lemma UnloadRemovesLeastClosedSet(mods: Modules, killOk: Name -> bool, m: Name, fallen: set<Name>)
    requires m in mods
    ensures ClosedUnderDependents(mods, killOk, m, mods.Keys - UnloadOf(mods, killOk, m).Keys)
    ensures ClosedUnderDependents(mods, killOk, m, fallen) ==> mods.Keys - UnloadOf(mods, killOk, m).Keys <= fallen
    ensures Submap(UnloadOf(mods, killOk, m), mods)
  {
    UnloadCascades(mods, killOk, m);
    var left := UnloadOf(mods, killOk, m);
    var gone := mods.Keys - left.Keys;
    forall x, y | y in gone && killOk(y) && DependsOn(mods, x, y) ensures x in gone {
      assert x in left ==> DependsOn(left, x, y);
    }
    if ClosedUnderDependents(mods, killOk, m, fallen) {
      forall x | x in gone ensures x in fallen {
        var hops :| Chain(mods, killOk, x, m, hops);
        ChainStaysIn(mods, killOk, x, m, hops, fallen);
      }
    }
  }
}

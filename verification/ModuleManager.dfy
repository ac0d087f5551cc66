/** The module manager's operations on its shared map of loaded modules. */
module ModuleManager {
  import opened Prelude
  import opened ModuleGraph
  import opened ModuleLifecycle

  datatype LoadResult = Loaded | AlreadyLoaded | OverrideRefused | DependencyMissing | DependencyNotRunning | SpawnFailed

  datatype UnloadResult = Unloaded | KillFailed | NotFound

  class Manager {
    var modules: Modules
    ghost var stamp: map<Name, nat>
    ghost var clock: nat

    ghost function View(): Node
      reads this
    {
      Node(modules, stamp, clock)
    }

    /** Walks the hard dependencies in any order and reports the first that is not ready. */
    method CheckDependencies(rules: Rules, meta: Meta) returns (result: LoadResult)
      ensures result == Loaded <==> forall d :: d in meta.deps ==> DepReady(rules, modules, meta, d)
      ensures result == Loaded || result == DependencyMissing || result == DependencyNotRunning
      ensures result == DependencyNotRunning ==>
                exists d :: d in meta.deps && d in modules && modules[d].state != Running && modules[d].state != Initializing
    {
      var todo := meta.deps.Keys;
      while todo != {}
        invariant todo <= meta.deps.Keys
        invariant forall d :: d in meta.deps && d !in todo ==> DepReady(rules, modules, meta, d)
        decreases |todo|
      {
        var d :| d in todo;
        if d !in modules || !rules.satisfies(modules[d].meta.version, meta.deps[d]) {
          return DependencyMissing;
        }
        if modules[d].state != Running && modules[d].state != Initializing {
          return DependencyNotRunning;
        }
        todo := todo - {d};
      }
      result := Loaded;
    }

    method LoadModule(rules: Rules, name: Name, meta: Meta, spawnOk: bool) returns (result: LoadResult)
      modifies this
      ensures View() == Load(rules, old(View()), name, meta, spawnOk)
      ensures result == Loaded <==> CanLoad(rules, old(modules), name, meta) && spawnOk
      ensures result == AlreadyLoaded <==> name in old(modules)
      ensures result == OverrideRefused <==> name !in old(modules) && !(meta.rpcOverrides <= rules.overridable)
      ensures result == SpawnFailed <==> CanLoad(rules, old(modules), name, meta) && !spawnOk
    {
      if name in modules {
        return AlreadyLoaded;
      }
      if !(meta.rpcOverrides <= rules.overridable) {
        return OverrideRefused;
      }
      result := CheckDependencies(rules, meta);
      if result != Loaded {
        return;
      }
      if !spawnOk {
        return SpawnFailed;
      }
      modules := modules[name := Module(meta, Running)];
      stamp := stamp[name := clock];
      clock := clock + 1;
    }

    /** Removes the module, kills its process and, if that worked, does the same to what hard-depends on it. */
    method UnloadModule(name: Name, killOk: Name -> bool) returns (result: UnloadResult)
      modifies `modules
      ensures modules == Unload(old(View()), killOk, name).mods
      ensures result == if name !in old(modules) then NotFound else if killOk(name) then Unloaded else KillFailed
      decreases modules.Keys
    {
      ghost var all := modules;
      var todo := Dependents(modules, name);
      if name !in modules {
        return NotFound;
      }
      modules := modules - {name};
      assert Chain(all, killOk, name, name, []);
      if !killOk(name) {
        CascadeIsExact(all, modules, killOk, name);
        return KillFailed;
      }
      while todo != {}
        invariant Submap(modules, all) && name !in modules && modules.Keys < all.Keys
        invariant forall x :: x in all && x !in modules ==> Falls(all, killOk, x, name)
        invariant NoneDependsOnFallen(all, modules, killOk, name)
        invariant forall x :: DependsOn(modules, x, name) ==> x in todo
        decreases |todo|
      {
        var d :| d in todo;
        todo := todo - {d};
        if d in modules && name in modules[d].meta.deps {
          ghost var rest := modules;
          var _ := UnloadModule(d, killOk);
          CascadeStep(all, rest, modules, killOk, name, d);
        }
      }
      CascadeIsExact(all, modules, killOk, name);
      result := Unloaded;
    }

    /** `order` is the order in which the map yields the direct hard dependents. */
    method ReloadModule(rules: Rules, r: Reloading, order: seq<Name>) returns (result: LoadResult)
      requires Enumerates(order, HardDependents(modules, r.name))
      modifies this
      ensures View() == Reload(rules, old(View()), r, order)
      ensures result == Loaded <==>
                CanLoad(rules, Unload(old(View()), r.killOk, r.name).mods, r.name, r.meta) && r.spawnOk(r.name)
    {
      var _ := UnloadModule(r.name, r.killOk);
      result := LoadModule(rules, r.name, r.meta, r.spawnOk(r.name));
      if result != Loaded {
        return;
      }
      ghost var base := View();
      var i := 0;
      while i < |order|
        invariant 0 <= i <= |order|
        invariant View() == ReloadDependents(rules, base, r, order[..i])
      {
        var d := order[i];
        assert order[..i + 1][..i] == order[..i];
        var found := r.found(d);
        if found.Some? && (r.name in found.value.deps ==> rules.satisfies(r.meta.version, found.value.deps[r.name])) {
          var _ := LoadModule(rules, d, found.value, r.spawnOk(d));
        }
        i := i + 1;
      }
      assert order[..i] == order;
    }

    method RemoveAll(names: set<Name>)
      modifies `modules
      ensures Submap(modules, old(modules))
      ensures forall x :: x in modules <==> x in old(modules) && x !in names
    {
      var todo := names;
      while todo != {}
        invariant todo <= names && Submap(modules, old(modules))
        invariant forall x :: x in modules <==> x in old(modules) && (x in names ==> x in todo)
        decreases |todo|
      {
        var d :| d in todo;
        todo := todo - {d};
        modules := modules - {d};
      }
    }

    /** The crash handler: direct hard dependents go, without a cascade. */
    method HandleCrash(name: Name)
      modifies `modules
      ensures modules == CrashOf(old(modules), name)
    {
      var dependents := HardDependents(modules, name);
      modules := modules - {name};
      RemoveAll(dependents);
      assert modules.Keys == CrashOf(old(modules), name).Keys;
    }

    method Shutdown(names: seq<Name>, killOk: Name -> bool)
      requires Enumerates(names, modules.Keys)
      modifies `modules
      ensures modules == map[]
    {
      var i := 0;
      while i < |names|
        invariant 0 <= i <= |names|
        invariant modules == ShutdownOf(old(modules), killOk, names[..i])
      {
        assert names[..i + 1][..i] == names[..i];
        var _ := UnloadModule(names[i], killOk);
        i := i + 1;
      }
      assert names[..i] == names;
      ShutdownEmpties(old(modules), killOk, names);
    }
  }

  /** One dependent's own cascade keeps the facts about what is gone and what is left. */
  lemma CascadeStep(all: Modules, rest: Modules, left: Modules, killOk: Name -> bool, name: Name, d: Name)
    requires Submap(rest, all) && name in all && name !in rest && killOk(name) && DependsOn(rest, d, name)
    requires forall x :: x in all && x !in rest ==> Falls(all, killOk, x, name)
    requires NoneDependsOnFallen(all, rest, killOk, name)
    requires left == UnloadOf(rest, killOk, d)
    ensures Submap(left, all) && Submap(left, rest) && name !in left && d !in left && left.Keys < all.Keys
    ensures forall x :: x in all && x !in left ==> Falls(all, killOk, x, name)
    ensures NoneDependsOnFallen(all, left, killOk, name)
  {
    UnloadCascades(rest, killOk, d);
    forall x | x in all && x !in left ensures Falls(all, killOk, x, name) {
      if x in rest {
        FallsThroughDependent(all, rest, killOk, x, d, name);
      }
    }
    forall x, y | x in left && y in all && y !in left && y != name && killOk(y) ensures !DependsOn(left, x, y) {
      assert DependsOn(left, x, y) ==> DependsOn(rest, x, y);
    }
    assert left.Keys <= all.Keys && name in all.Keys;
  }
}

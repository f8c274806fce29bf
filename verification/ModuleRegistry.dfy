/** The registry as the language module keeps it: fields that the calls update in place. */
module ModuleRegistries {
  import opened Options
  import opened ModuleGraph

  class ModuleRegistry {
    /** What each module object ever made was made from. */
    var modules: seq<Origin>
    var pathToModule: map<Path, ModuleId>
    var idToModuleInfo: map<ModuleId, ModuleInfo>

    ghost predicate Valid()
      reads this
    {
      InRange(Contents())
    }

    ghost function Contents(): Registry
      reads this
    {
      Registry(modules, pathToModule, idToModuleInfo)
    }

    constructor ()
      ensures Valid() && Contents() == EMPTY
    {
      modules, pathToModule, idToModuleInfo := [], map[], map[];
    }

    method FetchESModuleTree(env: Environment, path: Path) returns (module_: Option<ModuleId>)
      requires Valid()
      modifies this
      ensures Valid() && (Contents(), module_) == Fetch(env, old(Contents()), path)
      decreases env.files.Keys - pathToModule.Keys, 0, 0
    {
      if path in pathToModule {
        return Some(pathToModule[path]);
      }
      if path !in env.files || env.files[path].Malformed? {
        return None;
      }
      var m := NewModule(SourceText(path));
      pathToModule := pathToModule[path := m];
      idToModuleInfo := idToModuleInfo[m := ModuleInfo(map[])];
      assert path in env.files.Keys - old(pathToModule.Keys) && path in pathToModule;
      var fetched := FetchAll(env, path, m, env.files[path].requests);
      if !fetched {
        pathToModule := pathToModule - {path};
        idToModuleInfo := idToModuleInfo - {m};
        return None;
      }
      return Some(m);
    }

    /** The loop over the import requests of `path`, stopping at the first that fails. */
    method FetchAll(env: Environment, path: Path, m: ModuleId, requests: seq<string>) returns (fetched: bool)
      requires Valid() && m in idToModuleInfo
      modifies this
      ensures Valid()
      ensures (Contents(), fetched) == FetchRequests(env, old(Contents()), path, m, requests)
      decreases env.files.Keys - pathToModule.Keys, |requests| + 1
    {
      var i := 0;
      while i < |requests|
        invariant i <= |requests| && Valid() && m in idToModuleInfo
        invariant old(pathToModule.Keys) <= pathToModule.Keys
        invariant FetchRequests(env, Contents(), path, m, requests[i..]) ==
                  FetchRequests(env, old(Contents()), path, m, requests)
      {
        assert requests[i..][0] == requests[i] && requests[i..][1..] == requests[i + 1..];
        var resolved := FetchOne(env, path, m, requests[i]);
        if !resolved {
          return false;
        }
        i := i + 1;
      }
      return true;
    }

    /** One import request: finds its module and records the edge to it. */
    method FetchOne(env: Environment, path: Path, m: ModuleId, specifier: string) returns (resolved: bool)
      requires Valid() && m in idToModuleInfo
      modifies this
      ensures Valid()
      ensures (Contents(), resolved) == FetchRequest(env, old(Contents()), path, m, specifier)
      decreases env.files.Keys - pathToModule.Keys, 1
    {
      var target: Option<ModuleId>;
      var kind := Classify(env, path, specifier);
      if kind.EsModule? {
        target := FetchESModuleTree(env, kind.path);
      } else if kind.Extension? {
        target := CreateExtensionModule(env, kind.name);
      } else {
        target := FetchCJSModuleAsESModule(env, kind.name);
      }
      assert (Contents(), target) == FetchTarget(env, old(Contents()), path, specifier);
      if target.None? {
        return false;
      }
      var info := idToModuleInfo[m];
      if specifier !in info.resolveCache {
        idToModuleInfo := idToModuleInfo[m := ModuleInfo(info.resolveCache[specifier := target.value])];
      }
      return true;
    }

    method NewModule(origin: Origin) returns (m: ModuleId)
      modifies `modules
      ensures m == |old(modules)| && modules == old(modules) + [origin]
    {
      m := |modules|;
      modules := modules + [origin];
    }

    method CreateExtensionModule(env: Environment, name: string) returns (module_: Option<ModuleId>)
      requires Valid()
      modifies `modules
      ensures Valid()
      ensures module_ == if env.extensionLoads(name) then Some(|old(modules)|) else None
      ensures Contents() ==
              if env.extensionLoads(name) then AddSynthetic(old(Contents()), OfExtension(name)) else old(Contents())
    {
      if !env.extensionLoads(name) {
        return None;
      }
      var m := NewModule(OfExtension(name));
      return Some(m);
    }

    method FetchCJSModuleAsESModule(env: Environment, name: string) returns (module_: Option<ModuleId>)
      requires Valid()
      modifies this
      ensures Valid()
      ensures module_ == if env.requireReturns(name) then Some(|old(modules)|) else None
      ensures Contents() ==
              if env.requireReturns(name) then AddSynthetic(old(Contents()), OfRequire(name)) else old(Contents())
    {
      if !env.requireReturns(name) {
        return None;
      }
      var m := NewModule(OfRequire(name));
      idToModuleInfo := idToModuleInfo[m := ModuleInfo(map[])];
      return Some(m);
    }

    method ResolveModule(referrer: ModuleId, specifier: string) returns (resolution: Resolution)
      ensures resolution == Resolve(Contents(), referrer, specifier)
    {
      if referrer !in idToModuleInfo {
        return Unresolved(UnknownReferrer);
      }
      var cache := idToModuleInfo[referrer].resolveCache;
      if specifier !in cache {
        return Unresolved(ModuleNotFound);
      }
      return Resolved(cache[specifier]);
    }
  }
}

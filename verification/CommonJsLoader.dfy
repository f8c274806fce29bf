/** The CommonJS loader as the script keeps it: caches, storage and require functions updated in
    place by recursive calls. */
module CommonJsLoaders {
  import opened Options
  import opened CommonJs
  import Paths

  class CommonJsLoader {
    var records: seq<Record>
    var moduleCache: map<Path, Option<RecordId>>
    var closures: seq<Closure>
    var tmpModuleStorage: seq<Option<RecordId>>

    ghost function Contents(): State
      reads this
    {
      State(records, moduleCache, closures, tmpModuleStorage)
    }

    constructor ()
      ensures Contents() == START
    {
      records, moduleCache, tmpModuleStorage := [], map[], [];
      closures := [Closure("", false, map[])];
    }

    method AddModule(m: RecordId) returns (sid: nat)
      modifies `tmpModuleStorage
      ensures sid == FirstFree(old(tmpModuleStorage)) && tmpModuleStorage == Occupy(old(tmpModuleStorage), m)
    {
      var i := 0;
      while i < |tmpModuleStorage|
        invariant i <= |tmpModuleStorage|
        invariant FirstFree(tmpModuleStorage) == i + FirstFree(tmpModuleStorage[i..])
        invariant tmpModuleStorage == old(tmpModuleStorage)
      {
        assert tmpModuleStorage[i..][1..] == tmpModuleStorage[i + 1..];
        if tmpModuleStorage[i].None? {
          tmpModuleStorage := tmpModuleStorage[i := Some(m)];
          return i;
        }
        i := i + 1;
      }
      tmpModuleStorage := tmpModuleStorage + [Some(m)];
      return |tmpModuleStorage| - 1;
    }

    method SetLocalEntry(c: ClosureId, name: string, m: Option<RecordId>)
      requires c < |closures|
      modifies `closures
      ensures Contents() == SetLocal(old(Contents()), c, name, m)
    {
      closures := closures[c := closures[c].(cache := closures[c].cache[name := m])];
    }

    method MakeRequire(dir: string, outerIsESM: bool) returns (c: ClosureId)
      modifies `closures
      ensures c == |old(closures)| && Contents() == GenRequire(old(Contents()), dir, outerIsESM)
    {
      c := |closures|;
      closures := closures + [Closure(dir, outerIsESM, map[])];
    }

    method CallRequire(env: Environment, c: ClosureId, moduleName: string) returns (outcome: Outcome)
      requires c < |closures|
      modifies this
      ensures (Contents(), outcome) == Require(env, old(Contents()), c, moduleName)
      decreases env.files - moduleCache.Keys, 1, 0
    {
      if env.original(moduleName) {
        return Got(Host);
      }
      var name := Normalize(moduleName);
      if name in closures[c].cache {
        return Cached(closures[c].cache[name]);
      }
      if name in env.builtins {
        return Got(Builtin(name));
      }
      var fullPath := Find(env, name, closures[c].dir);
      if fullPath.None? {
        return Threw;
      }
      var key := fullPath.value;
      if key in moduleCache {
        SetLocalEntry(c, name, moduleCache[key]);
        return Cached(moduleCache[key]);
      }
      outcome := LoadFile(env, c, name, key);
    }

    method LoadFile(env: Environment, c: ClosureId, name: string, path: Path) returns (outcome: Outcome)
      requires c < |closures| && path in env.files && path !in moduleCache
      modifies this
      ensures (Contents(), outcome) == Load(env, old(Contents()), c, name, path)
      decreases env.files - moduleCache.Keys, 0, 0
    {
      var m := |records|;
      var isESM := IsESM(path, closures[c].outerIsESM);
      SetLocalEntry(c, name, Some(m));
      moduleCache := moduleCache[path := Some(m)];
      records := records + [Record(path, Initial)];
      var sid := AddModule(m);
      assert Contents() == Enter(old(Contents()), c, name, path);
      assert path in env.files - old(moduleCache.Keys) && path in moduleCache;
      if !isESM && !env.readable(path) {
        return Threw;
      }
      var loaded := Try(env, m, sid, path, isESM);
      tmpModuleStorage := Release(tmpModuleStorage, sid);
      if loaded {
        return Got(Exports(m));
      }
      SetLocalEntry(c, name, None);
      moduleCache := moduleCache[path := None];
      return Threw;
    }

    /** The try block. */
    method Try(env: Environment, m: RecordId, sid: nat, path: Path, isESM: bool) returns (completed: bool)
      requires m < |records| && closures != []
      modifies this
      ensures (Contents(), completed) == Execute(env, old(Contents()), m, sid, path, isESM)
      decreases env.files - moduleCache.Keys, 4, 0
    {
      if Paths.EndsWith(path, ".json") {
        if isESM || env.json(path).Malformed? {
          return false;
        }
        if !Paths.EndsWith(path, "package.json") {
          records := records[m := records[m].(content := OfJson)];
          return true;
        }
        var json := env.json(path);
        if json.url.None? {
          return false;
        }
        var tmpRequire := MakeRequire(DirectoryOf(path), json.isModule);
        var r := CallRequire(env, tmpRequire, json.url.value);
        if r.Threw? {
          return false;
        }
        records := records[m := records[m].(content := OfPackage(r.value))];
        return true;
      }
      completed := RunModule(env, m, sid, path, isESM);
    }

    method RunModule(env: Environment, m: RecordId, sid: nat, path: Path, isESM: bool) returns (completed: bool)
      requires m < |records| && closures != []
      modifies this
      ensures (Contents(), completed) == ExecuteModule(env, old(Contents()), m, sid, path, isESM)
      decreases env.files - moduleCache.Keys, 3, 0
    {
      if sid >= |tmpModuleStorage| || tmpModuleStorage[sid].None? || tmpModuleStorage[sid].value >= |records| {
        return false;
      }
      var module_ := tmpModuleStorage[sid].value;
      records := records[module_ := records[module_].(content := OfScript)];
      if isESM {
        var evaluated := RunBody(env, 0, env.moduleBody(path).requests);
        if !evaluated || !env.moduleBody(path).completes {
          return false;
        }
        records := records[m := records[m].(content := OfModule)];
        return true;
      }
      var require := MakeRequire(DirectoryOf(path), false);
      var ran := RunBody(env, require, env.script(path).requests);
      return ran && env.script(path).completes;
    }

    method RunBody(env: Environment, c: ClosureId, requests: seq<Request>) returns (ran: bool)
      requires c < |closures|
      modifies this
      ensures (Contents(), ran) == RunScript(env, old(Contents()), c, requests)
      decreases env.files - moduleCache.Keys, 2, |requests|
    {
      var i := 0;
      while i < |requests|
        invariant i <= |requests| && c < |closures| && old(moduleCache.Keys) <= moduleCache.Keys
        invariant RunScript(env, Contents(), c, requests[i..]) == RunScript(env, old(Contents()), c, requests)
      {
        assert requests[i..][0] == requests[i] && requests[i..][1..] == requests[i + 1..];
        var outcome := CallRequire(env, c, requests[i].name);
        if outcome.Threw? && !requests[i].caught {
          return false;
        }
        i := i + 1;
      }
      return true;
    }
  }
}

/** One record per file, and caches that agree on it, over whole runs of require. */
module CommonJsCaches {
  import opened Options
  import opened CommonJs
  import Paths

  /** An entry of a require function's own cache: the record of the file that the name resolves to,
      or undefined if the load of that file has failed. */
  ghost predicate Agrees(env: Environment, s: State, c: ClosureId, name: string)
    requires c < |s.closures| && name in s.closures[c].cache
  {
    var path := Find(env, name, s.closures[c].dir);
    var entry := s.closures[c].cache[name];
    && path.Some? && path.value in s.moduleCache
    && var shared := s.moduleCache[path.value];
    && (entry.None? ==> shared.None?)
    && (entry.Some? ==>
          && entry.value < |s.records| && s.records[entry.value].path == path.value
          && (shared == entry || shared.None?))
  }

  ghost predicate Coherent(env: Environment, s: State) {
    && (forall p :: p in s.moduleCache && s.moduleCache[p].Some? ==>
          s.moduleCache[p].value < |s.records| && s.records[s.moduleCache[p].value].path == p)
    && (forall r :: 0 <= r < |s.records| ==> s.records[r].path in s.moduleCache)
    && (forall q, r :: 0 <= q < r < |s.records| ==> s.records[q].path != s.records[r].path)
    && (forall c, name :: 0 <= c < |s.closures| && name in s.closures[c].cache ==> Agrees(env, s, c, name))
  }

  lemma {:induction false} SetContentCoherent(env: Environment, s: State, m: RecordId, content: Content)
    requires Coherent(env, s) && m < |s.records|
    ensures Coherent(env, SetContent(s, m, content))
  {
    var s' := SetContent(s, m, content);
    forall c, name | 0 <= c < |s'.closures| && name in s'.closures[c].cache ensures Agrees(env, s', c, name) {
      assert Agrees(env, s, c, name);
    }
  }

  lemma GenRequireCoherent(env: Environment, s: State, dir: string, outerIsESM: bool)
    requires Coherent(env, s)
    ensures Coherent(env, GenRequire(s, dir, outerIsESM))
  {
    var s' := GenRequire(s, dir, outerIsESM);
    forall c, name | 0 <= c < |s'.closures| && name in s'.closures[c].cache ensures Agrees(env, s', c, name) {
      assert c < |s.closures|;
      assert Agrees(env, s, c, name);
    }
  }

  lemma SetLocalCoherent(env: Environment, s: State, c: ClosureId, name: string, path: Path)
    requires Coherent(env, s) && c < |s.closures|
    requires Find(env, name, s.closures[c].dir) == Some(path) && path in s.moduleCache
    ensures Coherent(env, SetLocal(s, c, name, s.moduleCache[path]))
  {
    var s' := SetLocal(s, c, name, s.moduleCache[path]);
    forall d, n | 0 <= d < |s'.closures| && n in s'.closures[d].cache ensures Agrees(env, s', d, n) {
      if d != c || n != name {
        assert Agrees(env, s, d, n);
      }
    }
  }

  lemma EnterCoherent(env: Environment, s: State, c: ClosureId, name: string, path: Path)
    requires Coherent(env, s) && c < |s.closures| && path !in s.moduleCache
    requires Find(env, name, s.closures[c].dir) == Some(path)
    ensures Coherent(env, Enter(s, c, name, path))
  {
    var s' := Enter(s, c, name, path);
    forall d, n | 0 <= d < |s'.closures| && n in s'.closures[d].cache ensures Agrees(env, s', d, n) {
      if d != c || n != name {
        assert Agrees(env, s, d, n);
      }
    }
  }

  lemma UndoCoherent(env: Environment, s: State, c: ClosureId, name: string, path: Path)
    requires Coherent(env, s) && c < |s.closures| && path in s.moduleCache
    requires Find(env, name, s.closures[c].dir) == Some(path)
    ensures Coherent(env, SetGlobal(SetLocal(s, c, name, None), path, None))
  {
    var s' := SetGlobal(SetLocal(s, c, name, None), path, None);
    forall d, n | 0 <= d < |s'.closures| && n in s'.closures[d].cache ensures Agrees(env, s', d, n) {
      if d != c || n != name {
        assert Agrees(env, s, d, n);
      }
    }
  }

  lemma SlotsDoNotMatter(env: Environment, s: State, slots: seq<Option<RecordId>>)
    requires Coherent(env, s)
    ensures Coherent(env, s.(slots := slots))
  {
    var s' := s.(slots := slots);
    forall d, n | 0 <= d < |s'.closures| && n in s'.closures[d].cache ensures Agrees(env, s', d, n) {
      assert Agrees(env, s, d, n);
    }
  }

  /** What require gives: never anything but the one record of the file that the name resolves to. */
  ghost predicate GivesTheRecord(env: Environment, s: State, c: ClosureId, moduleName: string, s': State, o: Outcome)
    requires c < |s.closures|
  {
    o.Got? && o.value.Exports? ==>
      && o.value.record < |s'.records|
      && Find(env, Normalize(moduleName), s.closures[c].dir) == Some(s'.records[o.value.record].path)
  }

  lemma {:induction false} RequireCoherent(env: Environment, s: State, c: ClosureId, moduleName: string)
    requires Coherent(env, s) && c < |s.closures|
    ensures var (s', o) := Require(env, s, c, moduleName);
      Coherent(env, s') && GivesTheRecord(env, s, c, moduleName, s', o)
    decreases env.files - s.moduleCache.Keys, 1, 0
  {
    var name := Normalize(moduleName);
    var cache := s.closures[c].cache;
    if name in cache {
      assert Agrees(env, s, c, name);
    } else if !env.original(moduleName) && name !in env.builtins {
      var path := Find(env, name, s.closures[c].dir);
      if path.Some? {
        if path.value in s.moduleCache {
          SetLocalCoherent(env, s, c, name, path.value);
        } else {
          LoadCoherent(env, s, c, name, path.value);
        }
      }
    }
  }

  lemma {:induction false} LoadCoherent(env: Environment, s: State, c: ClosureId, name: string, path: Path)
    requires Coherent(env, s) && c < |s.closures| && path !in s.moduleCache
    requires Find(env, name, s.closures[c].dir) == Some(path)
    ensures var (s', o) := Load(env, s, c, name, path);
      && Coherent(env, s')
      && (o.Got? ==> o.value.Exports? && o.value.record < |s'.records| && s'.records[o.value.record].path == path)
    decreases env.files - s.moduleCache.Keys, 0, 0
  {
    hide Coherent;
    var m, sid := |s.records|, FirstFree(s.slots);
    var s1 := Enter(s, c, name, path);
    var isESM := IsESM(path, s.closures[c].outerIsESM);
    EnterCoherent(env, s, c, name, path);
    assert path in env.files - s.moduleCache.Keys && path in s1.moduleCache;
    if isESM || env.readable(path) {
      ExecuteCoherent(env, s1, m, sid, path, isESM);
      var (s2, loaded) := Execute(env, s1, m, sid, path, isESM);
      var s3 := s2.(slots := Release(s2.slots, sid));
      SlotsDoNotMatter(env, s2, Release(s2.slots, sid));
      if !loaded {
        UndoCoherent(env, s3, c, name, path);
      }
    }
  }

  lemma {:induction false} ExecuteCoherent(
      env: Environment, s: State, m: RecordId, sid: nat, path: Path, isESM: bool)
    requires Coherent(env, s) && m < |s.records| && s.closures != []
    ensures Coherent(env, Execute(env, s, m, sid, path, isESM).0)
    decreases env.files - s.moduleCache.Keys, 4, 0
  {
    hide Coherent;
    if Paths.EndsWith(path, ".json") {
      var json := env.json(path);
      SetContentCoherent(env, s, m, OfJson);
      if Paths.EndsWith(path, "package.json") && !isESM && json.Parsed? && json.url.Some? {
        var s1 := GenRequire(s, DirectoryOf(path), json.isModule);
        GenRequireCoherent(env, s, DirectoryOf(path), json.isModule);
        RequireCoherent(env, s1, |s.closures|, json.url.value);
        var (s2, outcome) := Require(env, s1, |s.closures|, json.url.value);
        if outcome.Got? {
          SetContentCoherent(env, s2, m, OfPackage(outcome.value));
        }
      }
    } else {
      ExecuteModuleCoherent(env, s, m, sid, path, isESM);
    }
  }

  lemma {:induction false} ExecuteModuleCoherent(
      env: Environment, s: State, m: RecordId, sid: nat, path: Path, isESM: bool)
    requires Coherent(env, s) && m < |s.records| && s.closures != []
    ensures Coherent(env, ExecuteModule(env, s, m, sid, path, isESM).0)
    decreases env.files - s.moduleCache.Keys, 3, 0
  {
    hide Coherent;
    if sid < |s.slots| && s.slots[sid].Some? && s.slots[sid].value < |s.records| {
      var filled := SetContent(s, s.slots[sid].value, OfScript);
      SetContentCoherent(env, s, s.slots[sid].value, OfScript);
      if isESM {
        RunScriptCoherent(env, filled, 0, env.moduleBody(path).requests);
        SetContentCoherent(env, RunScript(env, filled, 0, env.moduleBody(path).requests).0, m, OfModule);
      } else {
        GenRequireCoherent(env, filled, DirectoryOf(path), false);
        RunScriptCoherent(env, GenRequire(filled, DirectoryOf(path), false), |s.closures|, env.script(path).requests);
      }
    }
  }

  lemma {:induction false} RunScriptCoherent(env: Environment, s: State, c: ClosureId, requests: seq<Request>)
    requires Coherent(env, s) && c < |s.closures|
    ensures Coherent(env, RunScript(env, s, c, requests).0)
    decreases env.files - s.moduleCache.Keys, 2, |requests|
  {
    hide Coherent;
    if requests != [] {
      RequireCoherent(env, s, c, requests[0].name);
      var (s1, outcome) := Require(env, s, c, requests[0].name);
      if !(outcome.Threw? && !requests[0].caught) {
        RunScriptCoherent(env, s1, c, requests[1..]);
      }
    }
  }

  /** In every run, failures included, at most one record is ever made for a file, and every cache
      entry is for it. */
  lemma {:induction false} RunCoherent(env: Environment, s: State, calls: seq<Call>)
    requires Coherent(env, s)
    ensures Coherent(env, Run(env, s, calls))
    decreases |calls|
  {
    hide Coherent;
    if calls != [] {
      if calls[0].closure < |s.closures| {
        RequireCoherent(env, s, calls[0].closure, calls[0].name);
        RunCoherent(env, Require(env, s, calls[0].closure, calls[0].name).0, calls[1..]);
      } else {
        RunCoherent(env, s, calls[1..]);
      }
    }
  }

  /** Whatever spelling is used and from whatever directory, two calls that resolve to one file and
      return its exports return those of the same record. The second call may come after the first one
      or be made while the first one is still loading: t is any state that follows both. */
  lemma AllSpellingsAgree(
      env: Environment, s: State, c: ClosureId, name: string, s1: State, d: ClosureId, other: string, t: State)
    requires Coherent(env, s) && c < |s.closures| && Coherent(env, s1) && d < |s1.closures|
    requires Coherent(env, t) && Grows(Require(env, s, c, name).0, t) && Grows(Require(env, s1, d, other).0, t)
    ensures var first, second := Require(env, s, c, name).1, Require(env, s1, d, other).1;
      first.Got? && first.value.Exports? && second.Got? && second.value.Exports?
      && Find(env, Normalize(name), s.closures[c].dir) == Find(env, Normalize(other), s1.closures[d].dir)
      ==> first == second
  {
    hide Coherent, Require, Grows, Find;
    GivesTheRecordLater(env, s, c, name, t);
    GivesTheRecordLater(env, s1, d, other, t);
    RecordsDiffer(env, t);
  }

  lemma GivesTheRecordLater(env: Environment, s: State, c: ClosureId, name: string, t: State)
    requires Coherent(env, s) && c < |s.closures| && Grows(Require(env, s, c, name).0, t)
    ensures GivesTheRecord(env, s, c, name, t, Require(env, s, c, name).1)
  {
    hide Coherent, Require, Find;
    RequireCoherent(env, s, c, name);
  }

  lemma GrowsThen(s: State, s1: State, s2: State)
    requires Grows(s, s1) && Grows(s1, s2)
    ensures Grows(s, s2)
  {
  }

  /** In particular for two calls from outside, at any two points of a run. */
  lemma RunSpellingsAgree(
      env: Environment, calls: seq<Call>, more: seq<Call>, c: ClosureId, name: string, d: ClosureId, other: string)
    requires var s := Run(env, START, calls);
      c < |s.closures| && var s1 := Run(env, Require(env, s, c, name).0, more); d < |s1.closures|
    ensures var s := Run(env, START, calls);
      var (s', first) := Require(env, s, c, name);
      var s1 := Run(env, s', more);
      var (_, second) := Require(env, s1, d, other);
      first.Got? && first.value.Exports? && second.Got? && second.value.Exports?
      && Find(env, Normalize(name), s.closures[c].dir) == Find(env, Normalize(other), s1.closures[d].dir)
      ==> first == second
  {
    hide Coherent, Require, Run, Grows;
    StartIsCoherent(env);
    RunCoherent(env, START, calls);
    var s := Run(env, START, calls);
    RequireCoherent(env, s, c, name);
    var s' := Require(env, s, c, name).0;
    RunCoherent(env, s', more);
    var s1 := Run(env, s', more);
    RequireCoherent(env, s1, d, other);
    var t := Require(env, s1, d, other).0;
    GrowsThen(s', s1, t);
    GrowsItself(t);
    AllSpellingsAgree(env, s, c, name, s1, d, other, t);
  }

  lemma GrowsItself(s: State)
    ensures Grows(s, s)
  {
  }

  lemma StartIsCoherent(env: Environment)
    ensures Coherent(env, START)
  {
  }

  lemma RecordsDiffer(env: Environment, s: State)
    requires Coherent(env, s)
    ensures forall q, r :: 0 <= q < |s.records| && 0 <= r < |s.records| && s.records[q].path == s.records[r].path ==> q == r
  {
  }

  /** While no load has failed, every require function's cache and the shared cache agree. */
  lemma CachesAgree(env: Environment, s: State, c: ClosureId, name: string)
    requires Coherent(env, s) && c < |s.closures| && name in s.closures[c].cache
    requires forall p :: p in s.moduleCache ==> s.moduleCache[p].Some?
    ensures var path := Find(env, name, s.closures[c].dir);
      path.Some? && path.value in s.moduleCache && s.closures[c].cache[name] == s.moduleCache[path.value]
  {
    assert Agrees(env, s, c, name);
  }

  /** The call makes the host load the file: nothing has been cached for it. */
  ghost predicate Loads(env: Environment, s: State, c: ClosureId, moduleName: string, path: Path) {
    && c < |s.closures|
    && !env.original(moduleName) && Normalize(moduleName) !in env.builtins
    && Normalize(moduleName) !in s.closures[c].cache
    && Find(env, Normalize(moduleName), s.closures[c].dir) == Some(path)
    && path !in s.moduleCache
  }

  /** A load that throws from the try block leaves the keys of both caches with undefined, while one
      that loadModule stops before it leaves the record. */
  lemma ThrowingLoadIsUndefined(env: Environment, s: State, c: ClosureId, moduleName: string, path: Path)
    requires Loads(env, s, c, moduleName, path) && Require(env, s, c, moduleName).1.Threw?
    ensures var s' := Require(env, s, c, moduleName).0;
      && path in s'.moduleCache && Normalize(moduleName) in s'.closures[c].cache
      && s'.moduleCache[path] == s'.closures[c].cache[Normalize(moduleName)]
      && (s'.moduleCache[path].None? <==> IsESM(path, s.closures[c].outerIsESM) || env.readable(path))
  {
  }

  /** As a script does that throws itself. */
  lemma ThrowingScriptIsUndefined(env: Environment, s: State, c: ClosureId, moduleName: string, path: Path)
    requires Loads(env, s, c, moduleName, path)
    requires !IsESM(path, s.closures[c].outerIsESM) && env.readable(path) && !Paths.EndsWith(path, ".json")
    requires !env.script(path).completes
    ensures var (s', o) := Require(env, s, c, moduleName);
      o == Threw && path in s'.moduleCache && s'.moduleCache[path].None?
  {
    var name, m, sid := Normalize(moduleName), |s.records|, FirstFree(s.slots);
    var s1 := Enter(s, c, name, path);
    assert !Execute(env, s1, m, sid, path, false).1 by {
      assert !ExecuteModule(env, s1, m, sid, path, false).1;
    }
    assert Require(env, s, c, moduleName) == Load(env, s, c, name, path);
  }

  /** A file that is required again while it is being loaded, by whatever require function and under
      whatever name, is not loaded again: the nested call gives the exports of the very record that the
      call in progress will give if its load completes. */
  lemma CyclicRequireIsShared(
      env: Environment, s: State, c: ClosureId, moduleName: string, path: Path,
      s1: State, d: ClosureId, other: string)
    requires Coherent(env, s) && Loads(env, s, c, moduleName, path)
    requires Coherent(env, s1) && Grows(Enter(s, c, Normalize(moduleName), path), s1) && d < |s1.closures|
    requires Find(env, Normalize(other), s1.closures[d].dir) == Some(path)
    requires !env.original(other) && Normalize(other) !in env.builtins
    ensures var (s2, inner) := Require(env, s1, d, other);
      && inner == Got(Exports(|s.records|)) && s2.records == s1.records && s2.moduleCache == s1.moduleCache
    ensures var outer := Require(env, s, c, moduleName).1;
      outer.Got? ==> outer == Got(Exports(|s.records|))
  {
    var name := Normalize(other);
    EntersFile(s, c, Normalize(moduleName), path);
    if name in s1.closures[d].cache {
      assert Agrees(env, s1, d, name);
    }
    hide Coherent, Grows;
    var loaded := Load(env, s, c, Normalize(moduleName), path);
    assert Require(env, s, c, moduleName) == loaded;
  }

  lemma EntersFile(s: State, c: ClosureId, name: string, path: Path)
    requires c < |s.closures|
    ensures var s1 := Enter(s, c, name, path);
      path in s1.moduleCache && s1.moduleCache[path] == Some(|s.records|)
  {
  }

  /** The rollback assigns undefined and leaves the key, so a file whose load has thrown is never
      loaded again: at any later point, be it inside another load, requiring it succeeds only for a
      require function that already holds its record, from before the failure. */
  lemma FailedLoadIsFinal(
      env: Environment, s: State, c: ClosureId, moduleName: string, path: Path,
      s1: State, d: ClosureId, other: string)
    requires Loads(env, s, c, moduleName, path) && Require(env, s, c, moduleName).1.Threw?
    requires IsESM(path, s.closures[c].outerIsESM) || env.readable(path)
    requires Grows(Require(env, s, c, moduleName).0, s1) && d < |s1.closures|
    requires Find(env, Normalize(other), s1.closures[d].dir) == Some(path)
    requires !env.original(other) && Normalize(other) !in env.builtins
    ensures var (s2, o) := Require(env, s1, d, other);
      var cache := s1.closures[d].cache;
      && s2.records == s1.records && s2.moduleCache == s1.moduleCache
      && (o.Got? <==> Normalize(other) in cache && cache[Normalize(other)].Some?)
  {
    ThrowingLoadIsUndefined(env, s, c, moduleName, path);
  }
}

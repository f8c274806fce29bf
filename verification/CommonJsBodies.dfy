/** What a call of require does, step by step: where it looks a name up, which states the body of a file
    goes through, and how its outcome follows from theirs. */
module CommonJsBodies {
  import opened Options
  import opened CommonJs
  import opened CommonJsCaches
  import Paths

  // ---------------------------------------------------------------- names

  lemma LeadingDotIsDropped(name: string)
    ensures Normalize("./" + name) == name
    ensures (|name| < 2 || name[0] != '.' || name[1] != '/') ==> Normalize(name) == name
  {
    assert ("./" + name)[2..] == name;
  }

  predicate Ends(s: string, suffix: string) {
    |suffix| <= |s| && s[|s| - |suffix|..] == suffix
  }

  /** The extension decides whether a file is an ES module; where it does not, the package does. */
  lemma KindByName(path: Path, outerIsESM: bool)
    ensures Ends(path, ".cjs") || Ends(path, ".cbc") ==> !IsESM(path, outerIsESM)
    ensures !Ends(path, ".cjs") && !Ends(path, ".cbc") && (Ends(path, ".mjs") || Ends(path, ".mbc")) ==>
      IsESM(path, outerIsESM)
    ensures !Ends(path, ".cjs") && !Ends(path, ".cbc") && !Ends(path, ".mjs") && !Ends(path, ".mbc") ==>
      IsESM(path, outerIsESM) == outerIsESM
  {
  }

  /** The directory of a file, without the separator behind it. */
  lemma DirectoryParts(dir: string, file: string)
    requires '/' !in file
    ensures DirectoryOf(dir + "/" + file) == dir
  {
    Paths.LastIs(dir, file, '/');
    assert dir + ['/'] + file == dir + "/" + file;
    assert (dir + "/" + file)[|dir|] == '/';
  }

  /** Without slashes the separator is a backslash, and every one left is doubled, for the directory is
      put into the text of a script. */
  lemma BackslashDirectory(dir: string, file: string)
    requires '/' !in dir + file && '\\' !in file
    ensures DirectoryOf(dir + "\\" + file) == DoubleBackslashes(dir) && DirectoryOf(file) == ""
  {
    Paths.LastIs(dir, file, '\\');
    assert dir + ['\\'] + file == dir + "\\" + file;
    var path := dir + "\\" + file;
    forall i | 0 <= i < |path| ensures path[i] != '/' {
      if i < |dir| {
        assert path[i] == (dir + file)[i];
      } else if i > |dir| {
        assert path[i] == (dir + file)[i - 1];
      }
    }
    assert path[..|dir|] == dir;
    forall i | 0 <= i < |file| ensures file[i] != '/' {
      assert file[i] == (dir + file)[|dir| + i];
    }
  }

  lemma {:induction false} BackslashesAreDoubled(a: string, b: string)
    ensures DoubleBackslashes(a + b) == DoubleBackslashes(a) + DoubleBackslashes(b)
    decreases |a|
  {
    if a == [] {
      assert a + b == b;
    } else {
      BackslashesAreDoubled(a[1..], b);
      NextIsDoubled(a[0], a[1..]);
      NextIsDoubled(a[0], a[1..] + b);
      assert a + b == [a[0]] + (a[1..] + b) && a == [a[0]] + a[1..];
    }
  }

  lemma NextIsDoubled(c: char, rest: string)
    ensures DoubleBackslashes([c] + rest) == (if c == '\\' then "\\\\" else [c]) + DoubleBackslashes(rest)
  {
    assert ([c] + rest)[1..] == rest;
  }

  lemma {:induction false} OthersStay(a: string)
    requires '\\' !in a
    ensures DoubleBackslashes(a) == a
    decreases |a|
  {
    if a != [] {
      OthersStay(a[1..]);
      NextIsDoubled(a[0], a[1..]);
      assert a == [a[0]] + a[1..];
    }
  }

  // ---------------------------------------------------------------- where a name is looked up

  /** Files are searched for by name, from the directory of the require function. */
  lemma FoundBySearch(env: Environment, name: string, dir: string, path: Path)
    ensures Find(env, name, dir) == Some(path) <==> env.search(name, dir) == Some(path) && path in env.files
  {
  }

  /** What is found without loading anything changes at most the cache of the require function. */
  lemma FoundAtOnce(env: Environment, s: State, c: ClosureId, moduleName: string)
    requires c < |s.closures|
    ensures var name, cache, (s', o) := Normalize(moduleName), s.closures[c].cache, Require(env, s, c, moduleName);
      && (env.original(moduleName) ==> o == Got(Host) && s' == s)
      && (!env.original(moduleName) ==>
            && (name in cache ==> s' == s && o == if cache[name].Some? then Got(Exports(cache[name].value)) else Threw)
            && (name !in cache && name in env.builtins ==> s' == s && o == Got(Builtin(name)))
            && (name !in cache && name !in env.builtins && Find(env, name, s.closures[c].dir).None? ==>
                  s' == s && o == Threw))
  {
  }

  /** A file that has been loaded before, for whatever require function, is not loaded again; this
      require function then holds what the shared cache holds. */
  lemma FoundInSharedCache(env: Environment, s: State, c: ClosureId, moduleName: string, path: Path)
    requires c < |s.closures| && !env.original(moduleName) && Normalize(moduleName) !in env.builtins
    requires Normalize(moduleName) !in s.closures[c].cache && path in s.moduleCache
    requires Find(env, Normalize(moduleName), s.closures[c].dir) == Some(path)
    ensures var (s', o) := Require(env, s, c, moduleName);
      && o == (if s.moduleCache[path].Some? then Got(Exports(s.moduleCache[path].value)) else Threw)
      && s'.closures[c].cache == s.closures[c].cache[Normalize(moduleName) := s.moduleCache[path]]
      && s'.closures[c].dir == s.closures[c].dir && s'.closures[c].outerIsESM == s.closures[c].outerIsESM
      && |s'.closures| == |s.closures|
      && (forall d :: 0 <= d < |s.closures| && d != c ==> s'.closures[d] == s.closures[d])
      && s'.records == s.records && s'.moduleCache == s.moduleCache && s'.slots == s.slots
  {
  }

  // ---------------------------------------------------------------- the body of a file

  /** The states before each request of a body, as far as it gets: every request but the last one listed
      has returned or thrown inside a try block. */
  ghost predicate Follows(env: Environment, c: ClosureId, requests: seq<Request>, states: seq<State>) {
    && 1 <= |states| <= |requests| + 1
    && (forall k :: 0 <= k < |states| ==> c < |states[k].closures|)
    && forall k :: 0 <= k < |states| - 1 ==> Continues(env, c, requests[k], states[k], states[k + 1])
  }

  ghost predicate Continues(env: Environment, c: ClosureId, request: Request, s: State, s': State)
    requires c < |s.closures|
  {
    var (after, outcome) := Require(env, s, c, request.name);
    after == s' && (outcome.Got? || request.caught)
  }

  /** The request throws and nothing catches it. */
  ghost predicate Stops(env: Environment, c: ClosureId, request: Request, s: State)
    requires c < |s.closures|
  {
    Require(env, s, c, request.name).1.Threw? && !request.caught
  }

  /** A body makes its requests in order up to the first that throws outside a try block; it is the last
      one made. */
  lemma {:induction false} BodyFollows(env: Environment, s: State, c: ClosureId, requests: seq<Request>)
    returns (states: seq<State>)
    requires c < |s.closures|
    ensures Follows(env, c, requests, states) && states[0] == s
    ensures var last := |states| - 1;
      if last == |requests| then
        RunScript(env, s, c, requests) == (states[last], true)
      else
        && Stops(env, c, requests[last], states[last])
        && RunScript(env, s, c, requests) == (Require(env, states[last], c, requests[last].name).0, false)
    decreases |requests|
  {
    hide Require;
    if requests == [] || Stops(env, c, requests[0], s) {
      states := [s];
    } else {
      var s1 := Require(env, s, c, requests[0].name).0;
      var rest := BodyFollows(env, s1, c, requests[1..]);
      states := [s] + rest;
      forall k | 0 <= k < |states| - 1 ensures Continues(env, c, requests[k], states[k], states[k + 1]) {
        if k > 0 {
          assert Continues(env, c, requests[1..][k - 1], rest[k - 1], rest[k]);
        }
      }
    }
  }

  /** There is only one way through a body. */
  lemma {:induction false} BodyIsOne(
      env: Environment, c: ClosureId, requests: seq<Request>, states: seq<State>, other: seq<State>, k: nat)
    requires Follows(env, c, requests, states) && Follows(env, c, requests, other) && states[0] == other[0]
    requires k < |states| && k < |other|
    ensures states[k] == other[k]
  {
    hide Require;
    if k > 0 {
      BodyIsOne(env, c, requests, states, other, k - 1);
      assert Continues(env, c, requests[k - 1], states[k - 1], states[k]);
      assert Continues(env, c, requests[k - 1], other[k - 1], other[k]);
    }
  }

  // ---------------------------------------------------------------- loading a file

  /** The state in which the body of a script begins: a new record in both caches and in a slot, already
      taken for a script, and a require function for the directory of the file. */
  function AtScript(s: State, c: ClosureId, name: string, path: Path): State
    requires c < |s.closures|
  {
    var m := Some(|s.records|);
    var own := s.closures[c].(cache := s.closures[c].cache[name := m]);
    State(
      s.records + [Record(path, OfScript)],
      s.moduleCache[path := m],
      s.closures[c := own] + [Closure(DirectoryOf(path), false, map[])],
      Occupy(s.slots, |s.records|))
  }

  /** The body of an ES module has no require function of its own. */
  function AtModule(s: State, c: ClosureId, name: string, path: Path): State
    requires c < |s.closures|
  {
    var begun := AtScript(s, c, name, path);
    begun.(closures := begun.closures[..|s.closures|])
  }

  /** s' is s with the slot given back and both cache entries of the load undefined. */
  ghost predicate Undone(s: State, s': State, c: ClosureId, name: string, path: Path, sid: nat) {
    && c < |s.closures|
    && s'.records == s.records && s'.slots == Release(s.slots, sid)
    && s'.moduleCache == s.moduleCache[path := None]
    && s'.closures == s.closures[c := s.closures[c].(cache := s.closures[c].cache[name := None])]
  }

  /** Loading a readable script, in full. Its record is the next one and its body runs on a require
      function of its own. The call returns the exports of the record exactly when every request of the
      body has returned or been caught and the script completes; the state is then that after its last
      request, with the slot given back. Otherwise the call throws, no request is made after the one that
      threw, and both caches hold undefined. */
  lemma ScriptLoads(env: Environment, s: State, c: ClosureId, moduleName: string, path: Path)
    returns (states: seq<State>)
    requires Loads(env, s, c, moduleName, path)
    requires !IsESM(path, s.closures[c].outerIsESM) && env.readable(path) && !Ends(path, ".json")
    ensures var name, d, requests := Normalize(moduleName), |s.closures|, env.script(path).requests;
      var (s', o) := Require(env, s, c, moduleName);
      var sid, last := FirstFree(s.slots), |states| - 1;
      && Follows(env, d, requests, states) && states[0] == AtScript(s, c, name, path)
      && if last < |requests| then
           && Stops(env, d, requests[last], states[last]) && o == Threw
           && Undone(Require(env, states[last], d, requests[last].name).0, s', c, name, path, sid)
         else if !env.script(path).completes then
           o == Threw && Undone(states[last], s', c, name, path, sid)
         else
           o == Got(Exports(|s.records|)) && s' == states[last].(slots := Release(states[last].slots, sid))
  {
    hide RunScript;
    var name := Normalize(moduleName);
    var begun := AtScript(s, c, name, path);
    states := BodyFollows(env, begun, |s.closures|, env.script(path).requests);
    ScriptIsBody(env, s, c, name, path);
    hide Load;
    assert Require(env, s, c, moduleName) == Load(env, s, c, name, path);
  }

  lemma EntersSlot(slots: seq<Option<RecordId>>, m: RecordId)
    ensures var sid, slots' := FirstFree(slots), Occupy(slots, m);
      sid < |slots'| && slots'[sid] == Some(m)
  {
  }

  lemma ScriptIsBody(env: Environment, s: State, c: ClosureId, name: string, path: Path)
    requires c < |s.closures| && path in env.files && path !in s.moduleCache
    requires !IsESM(path, s.closures[c].outerIsESM) && env.readable(path) && !Ends(path, ".json")
    ensures var (s2, ran) := RunScript(env, AtScript(s, c, name, path), |s.closures|, env.script(path).requests);
      var (s', o) := Load(env, s, c, name, path);
      var sid := FirstFree(s.slots);
      && c < |s2.closures|
      && if ran && env.script(path).completes then
           o == Got(Exports(|s.records|)) && s' == s2.(slots := Release(s2.slots, sid))
         else
           o == Threw && Undone(s2, s', c, name, path, sid)
  {
    hide RunScript;
    var s1 := Enter(s, c, name, path);
    EntersSlot(s.slots, |s.records|);
    assert SetContent(s1, |s.records|, OfScript).records == s.records + [Record(path, OfScript)];
    assert GenRequire(SetContent(s1, |s.records|, OfScript), DirectoryOf(path), false) == AtScript(s, c, name, path);
    var (s2, ran) := RunScript(env, AtScript(s, c, name, path), |s.closures|, env.script(path).requests);
    var m, sid := |s.records|, FirstFree(s.slots);
    assert ExecuteModule(env, s1, m, sid, path, false) == (s2, ran && env.script(path).completes);
    assert Execute(env, s1, m, sid, path, false) == (s2, ran && env.script(path).completes);
  }

  /** Loading an ES module goes the same way on the global require function; what require then returns
      is the namespace of the module. */
  lemma ModuleLoads(env: Environment, s: State, c: ClosureId, moduleName: string, path: Path)
    returns (states: seq<State>)
    requires Loads(env, s, c, moduleName, path)
    requires IsESM(path, s.closures[c].outerIsESM) && !Ends(path, ".json")
    ensures var name, requests := Normalize(moduleName), env.moduleBody(path).requests;
      var (s', o) := Require(env, s, c, moduleName);
      var sid, last, m := FirstFree(s.slots), |states| - 1, |s.records|;
      && Follows(env, 0, requests, states) && states[0] == AtModule(s, c, name, path)
      && if last < |requests| then
           && Stops(env, 0, requests[last], states[last]) && o == Threw
           && Undone(Require(env, states[last], 0, requests[last].name).0, s', c, name, path, sid)
         else if !env.moduleBody(path).completes then
           o == Threw && Undone(states[last], s', c, name, path, sid)
         else
           && o == Got(Exports(m)) && m < |states[last].records|
           && s' == states[last].(slots := Release(states[last].slots, sid),
                                  records := states[last].records[m := Record(path, OfModule)])
  {
    hide RunScript;
    var name := Normalize(moduleName);
    var begun := AtModule(s, c, name, path);
    states := BodyFollows(env, begun, 0, env.moduleBody(path).requests);
    ModuleIsBody(env, s, c, name, path);
    hide Load;
    assert Require(env, s, c, moduleName) == Load(env, s, c, name, path);
  }

  lemma RecordOf(s: State, c: ClosureId, name: string, path: Path, s2: State)
    requires c < |s.closures| && Grows(AtModule(s, c, name, path), s2)
    ensures |s.records| < |s2.records| && s2.records[|s.records|].path == path && c < |s2.closures|
  {
  }

  lemma ModuleExecutes(env: Environment, s: State, c: ClosureId, name: string, path: Path)
    requires c < |s.closures| && !Ends(path, ".json")
    ensures var (s2, ran) := RunScript(env, AtModule(s, c, name, path), 0, env.moduleBody(path).requests);
      var m := |s.records|;
      && m < |s2.records| && s2.records[m].path == path && c < |s2.closures|
      && Execute(env, Enter(s, c, name, path), m, FirstFree(s.slots), path, true) ==
           if ran && env.moduleBody(path).completes then (SetContent(s2, m, OfModule), true) else (s2, false)
  {
    hide RunScript, Occupy;
    var s1, m, sid := Enter(s, c, name, path), |s.records|, FirstFree(s.slots);
    EntersSlot(s.slots, m);
    assert SetContent(s1, m, OfScript).records == s.records + [Record(path, OfScript)];
    assert SetContent(s1, m, OfScript) == AtModule(s, c, name, path);
    var s2 := RunScript(env, AtModule(s, c, name, path), 0, env.moduleBody(path).requests).0;
    RecordOf(s, c, name, path, s2);
    assert Execute(env, s1, m, sid, path, true) == ExecuteModule(env, s1, m, sid, path, true);
  }

  lemma ModuleIsBody(env: Environment, s: State, c: ClosureId, name: string, path: Path)
    requires c < |s.closures| && path in env.files && path !in s.moduleCache
    requires IsESM(path, s.closures[c].outerIsESM) && !Ends(path, ".json")
    ensures var (s2, ran) := RunScript(env, AtModule(s, c, name, path), 0, env.moduleBody(path).requests);
      var (s', o) := Load(env, s, c, name, path);
      var sid, m := FirstFree(s.slots), |s.records|;
      && c < |s2.closures| && m < |s2.records|
      && if ran && env.moduleBody(path).completes then
           && o == Got(Exports(m))
           && s' == s2.(slots := Release(s2.slots, sid), records := s2.records[m := Record(path, OfModule)])
         else
           o == Threw && Undone(s2, s', c, name, path, sid)
  {
    hide RunScript, Execute, Enter, AtModule, Release;
    ModuleExecutes(env, s, c, name, path);
  }

  /** A .json file gives its own value, and a package.json what a require function for its directory gives
      for its entry point. */
  lemma JsonLoads(env: Environment, s: State, c: ClosureId, moduleName: string, path: Path)
    requires Loads(env, s, c, moduleName, path) && Ends(path, ".json")
    requires IsESM(path, s.closures[c].outerIsESM) || env.readable(path)
    ensures var name, m, sid := Normalize(moduleName), |s.records|, FirstFree(s.slots);
      var (s', o) := Require(env, s, c, moduleName);
      var json, begun := env.json(path), Enter(s, c, name, path);
      if IsESM(path, s.closures[c].outerIsESM) || json.Malformed? then
        o == Threw && Undone(begun, s', c, name, path, sid)
      else if !Ends(path, "package.json") then
        && o == Got(Exports(m)) && s'.records == s.records + [Record(path, OfJson)]
        && s'.slots == Release(begun.slots, sid) && s'.moduleCache == begun.moduleCache
        && s'.closures == begun.closures
      else if json.url.None? then
        o == Threw && Undone(begun, s', c, name, path, sid)
      else
        var own := begun.(closures := begun.closures + [Closure(DirectoryOf(path), json.isModule, map[])]);
        var (s2, inner) := Require(env, own, |s.closures|, json.url.value);
        if inner.Threw? then o == Threw && Undone(s2, s', c, name, path, sid)
        else
          && o == Got(Exports(m)) && m < |s2.records|
          && s' == s2.(slots := Release(s2.slots, sid),
                       records := s2.records[m := s2.records[m].(content := OfPackage(inner.value))])
  {
    hide ExecuteModule;
    var name, m, sid := Normalize(moduleName), |s.records|, FirstFree(s.slots);
    assert Require(env, s, c, moduleName) == Load(env, s, c, name, path);
    LoadBegins(s, c, name, path);
    var isESM := IsESM(path, s.closures[c].outerIsESM);
    var s1 := Enter(s, c, name, path);
    var (s2, loaded) := Execute(env, s1, m, sid, path, isESM);
    assert isESM || env.json(path).Malformed? ==> (s2, loaded) == (s1, false);
  }

  /** executeModule finds its record by slot; one that is not there makes it throw. */
  lemma LostRecordThrows(env: Environment, s: State, m: RecordId, sid: nat, path: Path, isESM: bool)
    requires m < |s.records| && s.closures != [] && (sid >= |s.slots| || s.slots[sid].None?)
    ensures ExecuteModule(env, s, m, sid, path, isESM) == (s, false)
  {
  }

  /** What Enter has done when the file is read. */
  lemma LoadBegins(s: State, c: ClosureId, name: string, path: Path)
    requires c < |s.closures|
    ensures var s1, m := Enter(s, c, name, path), |s.records|;
      && s1.records == s.records + [Record(path, Initial)]
      && s1.moduleCache == s.moduleCache[path := Some(m)]
      && s1.closures == s.closures[c := s.closures[c].(cache := s.closures[c].cache[name := Some(m)])]
      && s1.slots == Occupy(s.slots, m)
  {
  }
}

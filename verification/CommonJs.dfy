/** CommonJS require (lib/pps.js): the cache shared by all directories, the cache of each require
    function, and the storage of the modules being loaded. Keys of the caches are never deleted; a
    failed load assigns undefined, which is None here. */
module CommonJs {
  import opened Options
  import Paths

  type Path = string
  type RecordId = nat
  type ClosureId = nat

  /** What the body of a script does: it calls require, each time inside a try block or not, and
      then completes or throws. For an ES module that is what its fetch and its evaluation do. */
  datatype Request = Request(name: string, caught: bool)

  datatype Script = Script(requests: seq<Request>, completes: bool)

  /** What parsing a .json file gives. `url` is the entry point of a package.json, if there is one
      that a CommonJS module may use. */
  datatype Json = Malformed | Parsed(isModule: bool, url: Option<string>)

  datatype Environment = Environment(
    files: set<Path>,
    search: (string, string) -> Option<Path>,
    original: string -> bool,
    builtins: set<string>,
    readable: Path -> bool,
    script: Path -> Script,
    moduleBody: Path -> Script,
    json: Path -> Json)

  /** What require returns: a value of the host's own require, a built-in module, or the exports of
      a module record. */
  datatype Value = Host | Builtin(name: string) | Exports(record: RecordId)

  datatype Outcome = Threw | Got(value: Value)

  /** How the exports of a record came about. */
  datatype Content = Initial | OfScript | OfModule | OfJson | OfPackage(value: Value)

  datatype Record = Record(path: Path, content: Content)

  /** A require function: the directory it resolves against, whether it was made for the entry point
      of an ES package, and its own cache. */
  datatype Closure = Closure(dir: string, outerIsESM: bool, cache: map<string, Option<RecordId>>)

  datatype State = State(
    records: seq<Record>,
    moduleCache: map<Path, Option<RecordId>>,
    closures: seq<Closure>,
    slots: seq<Option<RecordId>>)

  /** At the start there is one require function, for no directory: the global one, which ES modules
      use and through which their CommonJS imports are loaded. */
  const START := State([], map[], [Closure("", false, map[])], [])

  // ---------------------------------------------------------------- names and paths

  function Normalize(name: string): string {
    if Paths.StartsWith(name, "./") then name[2..] else name
  }

  function DoubleBackslashes(s: string): string {
    if s == [] then [] else (if s[0] == '\\' then "\\\\" else [s[0]]) + DoubleBackslashes(s[1..])
  }

  function DirectoryOf(path: Path): string {
    if '/' in path then
      var n := Paths.AfterLast(path, '/');
      path[..n - 1]
    else
      var n := Paths.AfterLast(path, '\\');
      DoubleBackslashes(path[..if n == 0 then 0 else n - 1])
  }

  /** The path a name resolves to; the search only finds files that exist. */
  function Find(env: Environment, name: string, dir: string): Option<Path> {
    match env.search(name, dir)
    case None => None
    case Some(path) => if path in env.files then Some(path) else None
  }

  function IsESM(path: Path, outerIsESM: bool): bool {
    !Paths.EndsWith(path, ".cjs") && !Paths.EndsWith(path, ".cbc") &&
    (outerIsESM || Paths.EndsWith(path, ".mjs") || Paths.EndsWith(path, ".mbc"))
  }

  // ---------------------------------------------------------------- the storage of modules being loaded

  /** addModule: the first slot that is free, or a new one. */
  function FirstFree(slots: seq<Option<RecordId>>): (sid: nat)
    ensures sid <= |slots|
    ensures sid < |slots| ==> slots[sid].None?
    ensures forall i :: 0 <= i < sid ==> slots[i].Some?
  {
    if slots == [] || slots[0].None? then 0 else 1 + FirstFree(slots[1..])
  }

  function Occupy(slots: seq<Option<RecordId>>, m: RecordId): seq<Option<RecordId>> {
    var sid := FirstFree(slots);
    if sid < |slots| then slots[sid := Some(m)] else slots + [Some(m)]
  }

  function Release(slots: seq<Option<RecordId>>, sid: nat): seq<Option<RecordId>> {
    if sid < |slots| then slots[sid := None] else slots
  }

  // ---------------------------------------------------------------- state updates

  function SetLocal(s: State, c: ClosureId, name: string, m: Option<RecordId>): State
    requires c < |s.closures|
  {
    s.(closures := s.closures[c := s.closures[c].(cache := s.closures[c].cache[name := m])])
  }

  function SetGlobal(s: State, path: Path, m: Option<RecordId>): State {
    s.(moduleCache := s.moduleCache[path := m])
  }

  function SetContent(s: State, m: RecordId, content: Content): State
    requires m < |s.records|
  {
    s.(records := s.records[m := s.records[m].(content := content)])
  }

  function GenRequire(s: State, dir: string, outerIsESM: bool): State {
    s.(closures := s.closures + [Closure(dir, outerIsESM, map[])])
  }

  /** What one call finds it leaves as it is: the entries of the shared cache, the paths of the records
      and the directories of the require functions. */
  ghost predicate Grows(s: State, s': State) {
    && (forall p :: p in s.moduleCache ==> p in s'.moduleCache && s'.moduleCache[p] == s.moduleCache[p])
    && |s.records| <= |s'.records|
    && (forall r :: 0 <= r < |s.records| ==> s'.records[r].path == s.records[r].path)
    && |s.closures| <= |s'.closures|
    && (forall c :: 0 <= c < |s.closures| ==>
          s'.closures[c].dir == s.closures[c].dir && s'.closures[c].outerIsESM == s.closures[c].outerIsESM)
  }

  // ---------------------------------------------------------------- require

  function Require(env: Environment, s: State, c: ClosureId, moduleName: string): (result: (State, Outcome))
    requires c < |s.closures|
    ensures Grows(s, result.0)
    decreases env.files - s.moduleCache.Keys, 1, 0
  {
    if env.original(moduleName) then (s, Got(Host))
    else
      var name := Normalize(moduleName);
      var cache := s.closures[c].cache;
      if name in cache then (s, Cached(cache[name]))
      else if name in env.builtins then (s, Got(Builtin(name)))
      else
        match Find(env, name, s.closures[c].dir)
        case None => (s, Threw)
        case Some(path) =>
          if path in s.moduleCache then
            (SetLocal(s, c, name, s.moduleCache[path]), Cached(s.moduleCache[path]))
          else Load(env, s, c, name, path)
  }

  /** Reading .exports of a cache entry. */
  function Cached(m: Option<RecordId>): Outcome {
    if m.None? then Threw else Got(Exports(m.value))
  }

  /** The state with a new record for the path, in both caches and in a slot. */
  function Enter(s: State, c: ClosureId, name: string, path: Path): State
    requires c < |s.closures|
  {
    var m := |s.records|;
    var s1 := SetGlobal(SetLocal(s, c, name, Some(m)), path, Some(m));
    s1.(records := s1.records + [Record(path, Initial)], slots := Occupy(s.slots, m))
  }

  function Load(env: Environment, s: State, c: ClosureId, name: string, path: Path): (result: (State, Outcome))
    requires c < |s.closures| && path in env.files && path !in s.moduleCache
    ensures Grows(s, result.0)
    decreases env.files - s.moduleCache.Keys, 0, 0
  {
    var m, sid := |s.records|, FirstFree(s.slots);
    var s1 := Enter(s, c, name, path);
    var isESM := IsESM(path, s.closures[c].outerIsESM);
    assert path in env.files - s.moduleCache.Keys && path in s1.moduleCache;
    if !isESM && !env.readable(path) then
      (s1, Threw)
    else
      var (s2, loaded) := Execute(env, s1, m, sid, path, isESM);
      var s3 := s2.(slots := Release(s2.slots, sid));
      if loaded then (s3, Got(Exports(m)))
      else (SetGlobal(SetLocal(s3, c, name, None), path, None), Threw)
  }

  /** The try block: whether it completes. */
  function Execute(env: Environment, s: State, m: RecordId, sid: nat, path: Path, isESM: bool)
    : (result: (State, bool))
    requires m < |s.records| && s.closures != []
    ensures Grows(s, result.0)
    decreases env.files - s.moduleCache.Keys, 4, 0
  {
    if Paths.EndsWith(path, ".json") then
      if isESM || env.json(path).Malformed? then (s, false)
      else if !Paths.EndsWith(path, "package.json") then (SetContent(s, m, OfJson), true)
      else
        var json := env.json(path);
        if json.url.None? then (s, false)
        else
          var s1 := GenRequire(s, DirectoryOf(path), json.isModule);
          var (s2, outcome) := Require(env, s1, |s.closures|, json.url.value);
          match outcome
          case Threw => (s2, false)
          case Got(value) => (SetContent(s2, m, OfPackage(value)), true)
    else ExecuteModule(env, s, m, sid, path, isESM)
  }

  /** executeModule finds the record to fill by its slot. */
  function ExecuteModule(env: Environment, s: State, m: RecordId, sid: nat, path: Path, isESM: bool)
    : (result: (State, bool))
    requires m < |s.records| && s.closures != []
    ensures Grows(s, result.0)
    decreases env.files - s.moduleCache.Keys, 3, 0
  {
    if sid >= |s.slots| || s.slots[sid].None? || s.slots[sid].value >= |s.records| then (s, false)
    else
      var filled := SetContent(s, s.slots[sid].value, OfScript);
      if isESM then
        var body := env.moduleBody(path);
        var (s2, ran) := RunScript(env, filled, 0, body.requests);
        if ran && body.completes then (SetContent(s2, m, OfModule), true) else (s2, false)
      else
        var s1 := GenRequire(filled, DirectoryOf(path), false);
        var script := env.script(path);
        var (s2, ran) := RunScript(env, s1, |s.closures|, script.requests);
        (s2, ran && script.completes)
  }

  /** The calls of require that a script makes. */
  function RunScript(env: Environment, s: State, c: ClosureId, requests: seq<Request>): (result: (State, bool))
    requires c < |s.closures|
    ensures Grows(s, result.0)
    decreases env.files - s.moduleCache.Keys, 2, |requests|
  {
    if requests == [] then (s, true)
    else
      var (s1, outcome) := Require(env, s, c, requests[0].name);
      if outcome.Threw? && !requests[0].caught then (s1, false)
      else RunScript(env, s1, c, requests[1..])
  }

  /** A call of a require function from outside any load. */
  datatype Call = Call(closure: ClosureId, name: string)

  function Run(env: Environment, s: State, calls: seq<Call>): (s': State)
    ensures Grows(s, s')
    decreases |calls|
  {
    if calls == [] then s
    else
      var s1 := if calls[0].closure < |s.closures| then Require(env, s, calls[0].closure, calls[0].name).0 else s;
      Run(env, s1, calls[1..])
  }
}

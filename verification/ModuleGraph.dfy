/** The ES module registry and the depth-first fetch of an import graph (src/module.cpp).

    Module objects are fresh numbers, so a path that is fetched again gets a different module.
    The functions here give the effect of each call on the registry as a value; class
    ModuleRegistry in ModuleRegistry.dfy performs the same calls by updating its fields. */
module ModuleGraph {
  import opened Options
  import Paths

  type Path = string
  type ModuleId = nat

  /** What reading and compiling one file gives: nothing usable, or its import requests. */
  datatype SourceFile = Malformed | Parsed(requests: seq<string>)

  /** Everything the registry asks of the world while it fetches. A path outside `files`
      cannot be read. */
  datatype Environment = Environment(
    files: map<Path, SourceFile>,
    search: (Path, string) -> Option<Path>,
    packageMain: Path -> Option<string>,
    extensionLoads: string -> bool,
    requireReturns: string -> bool)

  datatype RequestKind =
    | Extension(name: string)
    | EsModule(path: Path)
    | CommonJs(name: string)

  /** Which of the three ways of resolving a request applies to `specifier` imported by `referrer`. */
  function Classify(env: Environment, referrer: Path, specifier: string): RequestKind {
    if Paths.StartsWith(specifier, ":") then
      Extension(specifier[1..])
    else
      match env.search(Paths.Directory(referrer), specifier)
      case None => CommonJs(specifier)
      case Some(found) =>
        var name := Paths.FileName(found);
        if Paths.EndsWith(name, "package.json") then
          CommonJsOf(PackageEntry(env, found), specifier)
        else if Paths.EndsWith(name, ".mjs") || Paths.EndsWith(name, ".js") then
          EsModule(found)
        else
          CommonJsOf(found, specifier)
  }

  /** The ES entry point that a package.json names, when it names one that exists. */
  function PackageEntry(env: Environment, package: Path): Path {
    match env.packageMain(package)
    case None => package
    case Some(main) =>
      match env.search(package, main)
      case None => package
      case Some(entry) => entry
  }

  function CommonJsOf(found: Path, specifier: string): RequestKind {
    CommonJs(if Paths.Extension(found) == ".cjs" then found else specifier)
  }

  /** A request that fails without fetching any other ES module. */
  predicate FailsOutright(env: Environment, kind: RequestKind) {
    match kind
    case Extension(name) => !env.extensionLoads(name)
    case EsModule(_) => false
    case CommonJs(name) => !env.requireReturns(name)
  }

  /** What a module object was made from: the source text of a file, an extension, the value that
      require gave for a name, or something the embedder's own resolver knows. */
  datatype Origin = SourceText(path: Path) | OfExtension(name: string) | OfRequire(name: string) | Foreign

  datatype ModuleInfo = ModuleInfo(resolveCache: map<string, ModuleId>)

  /** `modules` is every module object ever made, `paths` is _pathToModule and `infos` is
      _idToModuleInfo keyed by module identity. */
  datatype Registry = Registry(
    modules: seq<Origin>,
    paths: map<Path, ModuleId>,
    infos: map<ModuleId, ModuleInfo>)

  const EMPTY := Registry([], map[], map[])

  predicate InRange(r: Registry) {
    && (forall p :: p in r.paths ==> r.paths[p] < |r.modules|)
    && (forall m :: m in r.infos ==> m < |r.modules|)
  }

  /** Every entry of r is still there, unchanged, in r'; entries for other files are of new modules. */
  ghost predicate Extends(r: Registry, r': Registry) {
    && r.modules <= r'.modules
    && r.paths.Keys <= r'.paths.Keys
    && (forall p :: p in r.paths ==> r'.paths[p] == r.paths[p])
    && (forall p :: p in r'.paths && p !in r.paths ==> r'.paths[p] >= |r.modules|)
    && r.infos.Keys <= r'.infos.Keys
    && (forall m :: m in r.infos ==> r'.infos[m] == r.infos[m])
  }

  /** As Extends, except that the entry of module m may have gained resolved requests. */
  ghost predicate ExtendsBut(r: Registry, r': Registry, m: ModuleId) {
    && r.modules <= r'.modules
    && r.paths.Keys <= r'.paths.Keys
    && (forall p :: p in r.paths ==> r'.paths[p] == r.paths[p])
    && (forall p :: p in r'.paths && p !in r.paths ==> r'.paths[p] >= |r.modules|)
    && r.infos.Keys <= r'.infos.Keys
    && (forall n :: n in r.infos && n != m ==> r'.infos[n] == r.infos[n])
    && (m in r.infos ==> forall s :: s in r.infos[m].resolveCache ==>
          s in r'.infos[m].resolveCache
          && r'.infos[m].resolveCache[s] == r.infos[m].resolveCache[s])
  }

  /** Registers the module compiled from `path`. */
  function Register(r: Registry, path: Path): Registry {
    var m := |r.modules|;
    Registry(r.modules + [SourceText(path)], r.paths[path := m], r.infos[m := ModuleInfo(map[])])
  }

  function Unregister(r: Registry, path: Path, m: ModuleId): Registry {
    r.(paths := r.paths - {path}, infos := r.infos - {m})
  }

  /** A new module without source text; those made for extensions get no entry of their own. */
  function AddSynthetic(r: Registry, origin: Origin): Registry {
    var m := |r.modules|;
    Registry(r.modules + [origin], r.paths, if origin.OfExtension? then r.infos else r.infos[m := ModuleInfo(map[])])
  }

  function OriginOf(kind: RequestKind): Origin {
    match kind
    case Extension(name) => OfExtension(name)
    case EsModule(path) => SourceText(path)
    case CommonJs(name) => OfRequire(name)
  }

  /** resolveCache.emplace: the first module recorded for a specifier stays. */
  function AddEdge(r: Registry, m: ModuleId, specifier: string, target: ModuleId): Registry
    requires m in r.infos
  {
    var cache := r.infos[m].resolveCache;
    if specifier in cache then r
    else r.(infos := r.infos[m := ModuleInfo(cache[specifier := target])])
  }

  lemma ExtendsRegistered(r: Registry, path: Path, r': Registry)
    requires InRange(r) && path !in r.paths
    requires InRange(r') && ExtendsBut(Register(r, path), r', |r.modules|)
    ensures path in r'.paths && r'.paths[path] == |r.modules|
    ensures Extends(r, r')
    ensures var r2 := Unregister(r', path, |r.modules|);
      path !in r2.paths && InRange(r2) && Extends(r, r2)
  {
  }

  /** FetchESModuleTree: the registry afterwards, and the module if the fetch succeeded. */
  function Fetch(env: Environment, r: Registry, path: Path): (result: (Registry, Option<ModuleId>))
    requires InRange(r)
    ensures InRange(result.0) && Extends(r, result.0)
    ensures result.1.Some? <==> path in result.0.paths
    ensures result.1.Some? ==> result.1.value == result.0.paths[path]
    ensures path in r.paths ==> result == (r, Some(r.paths[path]))
    decreases env.files.Keys - r.paths.Keys, 0, 0
  {
    if path in r.paths then (r, Some(r.paths[path]))
    else if path !in env.files || env.files[path].Malformed? then (r, None)
    else
      var m := |r.modules|;
      var r0 := Register(r, path);
      assert path in env.files.Keys - r.paths.Keys && path in r0.paths;
      var (r', fetched) := FetchRequests(env, r0, path, m, env.files[path].requests);
      ExtendsRegistered(r, path, r');
      if fetched then (r', Some(m)) else (Unregister(r', path, m), None)
  }

  /** The loop over the import requests of the module m that was compiled from `path`. */
  function FetchRequests(env: Environment, r: Registry, path: Path, m: ModuleId, requests: seq<string>)
    : (result: (Registry, bool))
    requires InRange(r) && m in r.infos
    ensures InRange(result.0) && ExtendsBut(r, result.0, m)
    decreases env.files.Keys - r.paths.Keys, |requests| + 1
  {
    if requests == [] then (r, true)
    else
      var (r', resolved) := FetchRequest(env, r, path, m, requests[0]);
      if resolved then FetchRequests(env, r', path, m, requests[1..]) else (r', false)
  }

  /** One request: whether it resolves, and if it does the edge to its module is recorded. */
  function FetchRequest(env: Environment, r: Registry, path: Path, m: ModuleId, specifier: string)
    : (result: (Registry, bool))
    requires InRange(r) && m in r.infos
    ensures InRange(result.0) && ExtendsBut(r, result.0, m)
    ensures result.1 ==> specifier in result.0.infos[m].resolveCache
    decreases env.files.Keys - r.paths.Keys, 1
  {
    var (r', target) := FetchTarget(env, r, path, specifier);
    if target.Some? then (AddEdge(r', m, specifier, target.value), true) else (r', false)
  }

  /** The module that a request resolves to, if it does. */
  function FetchTarget(env: Environment, r: Registry, path: Path, specifier: string)
    : (result: (Registry, Option<ModuleId>))
    requires InRange(r)
    ensures InRange(result.0) && Extends(r, result.0)
    ensures result.1.Some? ==> result.1.value < |result.0.modules|
    decreases env.files.Keys - r.paths.Keys, 0, 1
  {
    var kind := Classify(env, path, specifier);
    if kind.EsModule? then Fetch(env, r, kind.path)
    else if FailsOutright(env, kind) then (r, None)
    else (AddSynthetic(r, OriginOf(kind)), Some(|r.modules|))
  }

  /** Fetch of a file that is not registered, unfolded once. */
  lemma FetchOfNew(env: Environment, r: Registry, path: Path)
    requires InRange(r) && path !in r.paths
    ensures path in env.files && env.files[path].Parsed? ==>
      var r0 := Register(r, path);
      && InRange(r0) && |r.modules| in r0.infos && r0.paths.Keys == r.paths.Keys + {path}
      && env.files.Keys - r0.paths.Keys < env.files.Keys - r.paths.Keys
      && var (r', fetched) := FetchRequests(env, r0, path, |r.modules|, env.files[path].requests);
         Fetch(env, r, path) == if fetched then (r', Some(|r.modules|)) else (Unregister(r', path, |r.modules|), None)
    ensures path !in env.files || env.files[path].Malformed? ==> Fetch(env, r, path) == (r, None)
  {
    assert path in env.files ==> path in env.files.Keys - r.paths.Keys;
  }

  /** The loop over the requests, unfolded once. */
  lemma FetchRequestsOnce(env: Environment, r: Registry, path: Path, m: ModuleId, requests: seq<string>)
    requires InRange(r) && m in r.infos
    ensures requests == [] ==> FetchRequests(env, r, path, m, requests) == (r, true)
    ensures requests != [] ==>
      var (r1, resolved) := FetchRequest(env, r, path, m, requests[0]);
      && (resolved <==> FetchTarget(env, r, path, requests[0]).1.Some?)
      && r1.paths == FetchTarget(env, r, path, requests[0]).0.paths
      && InRange(r1) && m in r1.infos && r.paths.Keys <= r1.paths.Keys
      && FetchRequests(env, r, path, m, requests) ==
           if resolved then FetchRequests(env, r1, path, m, requests[1..]) else (r1, false)
  {
  }

  /** ResolveModule: the module recorded for `specifier` when the referrer was fetched. */
  datatype ResolveError = UnknownReferrer | ModuleNotFound

  datatype Resolution = Resolved(target: ModuleId) | Unresolved(error: ResolveError)

  function Resolve(r: Registry, referrer: ModuleId, specifier: string): Resolution {
    if referrer !in r.infos then Unresolved(UnknownReferrer)
    else if specifier !in r.infos[referrer].resolveCache then Unresolved(ModuleNotFound)
    else Resolved(r.infos[referrer].resolveCache[specifier])
  }
}

/** What an import request comes to, in terms of its characters, of what the search finds for it and of
    the registry before and after: which requests are imports of ES modules, and what is recorded for
    the others. */
module RequestMeaning {
  import opened Options
  import opened ModuleGraph
  import opened FetchInvariants
  import opened FetchOutcome
  import opened FetchRuns
  import Paths

  predicate Ends(s: string, suffix: string) {
    |suffix| <= |s| && s[|s| - |suffix|..] == suffix
  }

  /** dir is p up to and including its last separator. */
  predicate IsDirOf(dir: string, p: Path) {
    dir <= p && (dir == "" || dir[|dir| - 1] == '/') && '/' !in p[|dir|..]
  }

  predicate ForExtension(s: string) {
    s != "" && s[0] == ':'
  }

  /** The request is for the ES module in the file q. */
  predicate ForEsModule(env: Environment, dir: string, s: string, q: Path) {
    !ForExtension(s) && env.search(dir, s) == Some(q) && (Ends(q, ".js") || Ends(q, ".mjs"))
  }

  /** The file that any other request stands for, if the search finds one: for a package.json the entry
      point of an ES package, if it names one that is found. */
  function FileFor(env: Environment, dir: string, s: string): Option<Path> {
    match env.search(dir, s)
    case None => None
    case Some(q) =>
      if !Ends(q, "package.json") || env.packageMain(q).None? then Some(q)
      else
        match env.search(q, env.packageMain(q).value)
        case None => Some(q)
        case Some(entry) => Some(entry)
  }

  /** What require is then called with: the path of a .cjs file, and otherwise the specifier itself. */
  function NameToRequire(env: Environment, dir: string, s: string): string {
    match FileFor(env, dir, s)
    case None => s
    case Some(q) => if Ends(q, ".cjs") && |q| > 4 && q[|q| - 5] != '/' then q else s
  }

  ghost predicate ForRequire(env: Environment, dir: string, s: string) {
    !ForExtension(s) && forall q :: !ForEsModule(env, dir, s, q)
  }

  // ---------------------------------------------------------------- file names

  lemma DirectoryIs(dir: string, p: Path)
    requires IsDirOf(dir, p)
    ensures Paths.Directory(p) == dir && Paths.FileName(p) == p[|dir|..]
  {
    Paths.PathParts(dir, p[|dir|..]);
    assert dir + p[|dir|..] == p;
  }

  /** A suffix without separators is one of the path exactly when it is one of its file name. */
  lemma NameEnds(q: Path, suffix: string)
    requires '/' !in suffix
    ensures Paths.EndsWith(Paths.FileName(q), suffix) <==> Ends(q, suffix)
  {
    if Ends(q, suffix) {
      Paths.InSuffix(q, |q| - |suffix|, Paths.AfterLast(q, '/') - 1);
    }
  }

  /** The last dot of a name, found from the end of the name and from its extension. */
  lemma DotGivesEnd(name: string, ending: string)
    requires ending != ""
    ensures var n := Paths.AfterLast(name, '.');
      n > 1 && name[n - 1..] == ending ==> Ends(name, ending) && |name| > |ending|
  {
    hide Paths.AfterLast;
  }

  lemma SplitEnd(s: string, suffix: string)
    requires Ends(s, suffix)
    ensures s == s[..|s| - |suffix|] + suffix
  {
    assert s == s[..|s| - |suffix|] + s[|s| - |suffix|..];
  }

  lemma EndGivesDot(name: string, ext: string)
    requires '.' !in ext && Ends(name, "." + ext) && |name| > |ext| + 1
    ensures var n := Paths.AfterLast(name, '.'); n > 1 && name[n - 1..] == "." + ext
  {
    hide Paths.AfterLast, Ends;
    SplitEnd(name, "." + ext);
    var stem := name[..|name| - |"." + ext|];
    Paths.DottedName(stem, ext);
    Regroup(stem, ".", ext);
  }

  lemma Regroup(a: string, b: string, c: string)
    ensures a + (b + c) == a + b + c
  {
  }

  lemma CjsName(name: string)
    ensures var n := Paths.AfterLast(name, '.');
      (name != ".." && n > 1 && name[n - 1..] == ".cjs") <==> Ends(name, ".cjs") && |name| > 4
  {
    hide Paths.AfterLast, Ends;
    assert "." + "cjs" == ".cjs";
    DotGivesEnd(name, ".cjs");
    if Ends(name, ".cjs") && |name| > 4 {
      EndGivesDot(name, "cjs");
    }
  }

  /** The file name of a path that ends without separators reaches further exactly when the character
      before the end is none. */
  lemma NameReaches(q: Path, k: nat)
    requires k <= |q| && '/' !in q[|q| - k..]
    ensures |Paths.FileName(q)| > k <==> |q| > k && q[|q| - k - 1] != '/'
  {
    var n: int := Paths.AfterLast(q, '/');
    assert q[0..] == q;
    Paths.InSuffix(q, n, |q| - k - 1);
    Paths.InSuffix(q, |q| - k, n - 1);
  }

  lemma SameEnds(q: Path, suffix: string)
    requires '/' !in suffix
    ensures Ends(Paths.FileName(q), suffix) <==> Ends(q, suffix)
  {
    NameEnds(q, suffix);
  }

  lemma CjsReaches(q: Path)
    requires Ends(q, ".cjs")
    ensures |Paths.FileName(q)| > 4 <==> |q| > 4 && q[|q| - 5] != '/'
  {
    NameReaches(q, 4);
  }

  lemma CjsEnds(q: Path)
    ensures Paths.Extension(q) == ".cjs" <==> Ends(q, ".cjs") && |q| > 4 && q[|q| - 5] != '/'
  {
    hide Paths.AfterLast, Paths.FileName, Ends;
    SameEnds(q, ".cjs");
    CjsName(Paths.FileName(q));
    if Ends(q, ".cjs") {
      CjsReaches(q);
    }
  }

  lemma LastChar(s: string, suffix: string)
    requires suffix != "" && Ends(s, suffix)
    ensures s[|s| - 1] == suffix[|suffix| - 1]
  {
    assert s[|s| - |suffix|..][|suffix| - 1] == s[|s| - 1];
  }

  lemma PackageIsNotEs(q: Path)
    requires Ends(q, "package.json")
    ensures !Ends(q, ".js") && !Ends(q, ".mjs")
  {
    LastChar(q, "package.json");
    if Ends(q, ".js") {
      LastChar(q, ".js");
    }
    if Ends(q, ".mjs") {
      LastChar(q, ".mjs");
    }
  }

  lemma ExtensionKind(env: Environment, p: Path, s: string)
    ensures ForExtension(s) <==> Classify(env, p, s).Extension?
    ensures ForExtension(s) ==> Classify(env, p, s) == Extension(s[1..])
  {
    if ForExtension(s) {
      assert s == [s[0]] + s[1..];
    }
  }

  lemma FoundEs(env: Environment, p: Path, s: string, q: Path)
    requires !ForExtension(s) && env.search(Paths.Directory(p), s) == Some(q) && (Ends(q, ".js") || Ends(q, ".mjs"))
    ensures Classify(env, p, s) == EsModule(q)
  {
    hide Paths.FileName, Paths.Directory, Paths.Extension, Paths.EndsWith, Ends;
    if Ends(q, "package.json") {
      PackageIsNotEs(q);
    }
    FileNameTests(q);
    ExtensionKind(env, p, s);
  }

  lemma FoundPackage(env: Environment, p: Path, dir: string, s: string, q: Path)
    requires !ForExtension(s) && Paths.Directory(p) == dir && env.search(dir, s) == Some(q) && Ends(q, "package.json")
    ensures Classify(env, p, s) == CommonJs(NameToRequire(env, dir, s))
  {
    hide Paths.FileName, Paths.Directory, Paths.Extension, Paths.EndsWith, PackageEntry, FileFor, Ends, ForExtension;
    FileNameTests(q);
    ExtensionKind(env, p, s);
    PackageFile(env, dir, s, q);
    CjsEnds(PackageEntry(env, q));
  }

  lemma FoundOther(env: Environment, p: Path, dir: string, s: string, q: Path)
    requires !ForExtension(s) && Paths.Directory(p) == dir && env.search(dir, s) == Some(q)
    requires !Ends(q, "package.json") && !Ends(q, ".js") && !Ends(q, ".mjs")
    ensures Classify(env, p, s) == CommonJs(NameToRequire(env, dir, s))
  {
    hide Paths.FileName, Paths.Directory, Paths.Extension, Paths.EndsWith, PackageEntry, Ends, ForExtension;
    FileNameTests(q);
    ExtensionKind(env, p, s);
    CjsEnds(q);
  }

  lemma FoundKind(env: Environment, p: Path, dir: string, s: string, q: Path)
    requires IsDirOf(dir, p) && !ForExtension(s) && env.search(dir, s) == Some(q)
    ensures Classify(env, p, s) ==
      if Ends(q, ".js") || Ends(q, ".mjs") then EsModule(q) else CommonJs(NameToRequire(env, dir, s))
  {
    hide Classify, Ends, NameToRequire, Paths.Directory, ForExtension;
    DirectoryIs(dir, p);
    if Ends(q, ".js") || Ends(q, ".mjs") {
      FoundEs(env, p, s, q);
    } else if Ends(q, "package.json") {
      FoundPackage(env, p, dir, s, q);
    } else {
      FoundOther(env, p, dir, s, q);
    }
  }

  lemma FileNameTests(q: Path)
    ensures Paths.EndsWith(Paths.FileName(q), ".js") <==> Ends(q, ".js")
    ensures Paths.EndsWith(Paths.FileName(q), ".mjs") <==> Ends(q, ".mjs")
    ensures Paths.EndsWith(Paths.FileName(q), "package.json") <==> Ends(q, "package.json")
  {
    NameEnds(q, ".js");
    NameEnds(q, ".mjs");
    NameEnds(q, "package.json");
  }

  lemma PackageFile(env: Environment, dir: string, s: string, q: Path)
    requires env.search(dir, s) == Some(q) && Ends(q, "package.json")
    ensures FileFor(env, dir, s) == Some(PackageEntry(env, q))
  {
  }

  lemma Kinds(env: Environment, p: Path, dir: string, s: string)
    requires IsDirOf(dir, p)
    ensures ForExtension(s) ==> Classify(env, p, s) == Extension(s[1..])
    ensures forall q :: ForEsModule(env, dir, s, q) <==> Classify(env, p, s) == EsModule(q)
    ensures ForRequire(env, dir, s) ==> Classify(env, p, s) == CommonJs(NameToRequire(env, dir, s))
  {
    ExtensionKind(env, p, s);
    if !ForExtension(s) {
      match env.search(dir, s)
      case None => DirectoryIs(dir, p);
      case Some(q) =>
        FoundKind(env, p, dir, s, q);
        hide Classify, NameToRequire, Ends;
        assert Ends(q, ".js") || Ends(q, ".mjs") ==> ForEsModule(env, dir, s, q);
    }
  }

  // ---------------------------------------------------------------- what a fetch records

  /** t is a module of the kind, and made from what, the request s in the directory dir asks for. */
  ghost predicate Answers(env: Environment, r: Registry, dir: string, s: string, t: ModuleId) {
    && t < |r.modules|
    && (ForExtension(s) ==> r.modules[t] == OfExtension(s[1..]) && t !in r.infos && env.extensionLoads(s[1..]))
    && (forall q :: ForEsModule(env, dir, s, q) ==> q in r.paths && r.paths[q] == t && r.modules[t] == SourceText(q))
    && (ForRequire(env, dir, s) ==>
          var name := NameToRequire(env, dir, s);
          r.modules[t] == OfRequire(name) && t in r.infos && r.infos[t] == ModuleInfo(map[]) && env.requireReturns(name))
  }

  /** In a closed registry every import of every registered file has been answered. */
  lemma RegisteredImportsAnswered(env: Environment, r: Registry, p: Path, dir: string, s: string)
    requires Closed(env, r) && p in r.paths && IsDirOf(dir, p) && s in Requests(env, p)
    ensures var resolution := Resolve(r, r.paths[p], s);
      resolution.Resolved? && Answers(env, r, dir, s, resolution.target)
  {
    assert GoodEntry(env, r, p) && Complete(env, r, p);
    var t := Cache(r, p)[s];
    assert GoodEdge(env, r, p, s, t) && TrackedEdge(env, r, p, s);
    Kinds(env, p, dir, s);
    assert SyntheticEntries(r);
  }

  /** After a successful fetch from a closed registry, every import of the file has been answered: an
      import of an ES module by the module that its file is registered under, one of an extension by a
      module made for the extension, and every other one by a module with an entry of its own, made from
      what require returned for the file or the specifier. */
  lemma FetchedImportsAnswered(env: Environment, r: Registry, p: Path, dir: string, s: string)
    requires Closed(env, r) && Fetch(env, r, p).1.Some? && IsDirOf(dir, p) && s in Requests(env, p)
    ensures var (r', m) := Fetch(env, r, p);
      var resolution := Resolve(r', m.value, s);
      resolution.Resolved? && Answers(env, r', dir, s, resolution.target)
  {
    SuccessAddsReachable(env, r, p);
    RegisteredImportsAnswered(env, Fetch(env, r, p).0, p, dir, s);
  }

  /** What a file does not import does not resolve from it, and nothing resolves from a module that is
      not tracked. */
  lemma OtherwiseUnresolved(env: Environment, r: Registry, p: Path, m: ModuleId, s: string)
    requires WellBuilt(env, r, {})
    ensures p in r.paths && s !in Requests(env, p) ==> Resolve(r, r.paths[p], s) == Unresolved(ModuleNotFound)
    ensures m !in r.infos ==> Resolve(r, m, s) == Unresolved(UnknownReferrer)
  {
    if p in r.paths {
      assert GoodEntry(env, r, p);
      if s in Cache(r, p) {
        assert GoodEdge(env, r, p, s, Cache(r, p)[s]);
      }
    }
  }

  /** A module handed over by the embedder's own resolver is tracked, without resolutions and under no
      path. */
  lemma ForeignIsTracked(env: Environment, r: Registry, s: string)
    requires InRange(r)
    ensures var m, r' := |r.modules|, Perform(env, r, TrackForeign);
      && r'.modules == r.modules + [Foreign] && r'.paths == r.paths
      && r'.infos == r.infos[m := ModuleInfo(map[])] && Resolve(r', m, s) == Unresolved(ModuleNotFound)
  {
  }

  /** The modules made for the requests that are not for ES modules are new ones. */
  lemma {:induction false} RequestsMakeNew(
      env: Environment, r: Registry, path: Path, m: ModuleId, requests: seq<string>, s: string)
    requires InRange(r) && m in r.infos && FetchRequests(env, r, path, m, requests).1
    requires s in requests && !Classify(env, path, s).EsModule? && s !in r.infos[m].resolveCache
    ensures var cache := FetchRequests(env, r, path, m, requests).0.infos[m].resolveCache;
      s in cache && cache[s] >= |r.modules|
    decreases |requests|
  {
    hide Classify;
    var (r1, resolved) := FetchRequest(env, r, path, m, requests[0]);
    var rest := FetchRequests(env, r1, path, m, requests[1..]).0;
    FetchRequestsOnce(env, r, path, m, requests);
    if s in r1.infos[m].resolveCache {
      FirstAnswerIsNew(env, r, path, m, requests[0], s);
    } else {
      assert requests[0] != s;
      RequestsMakeNew(env, r1, path, m, requests[1..], s);
    }
  }

  lemma FirstAnswerIsNew(env: Environment, r: Registry, path: Path, m: ModuleId, specifier: string, s: string)
    requires InRange(r) && m in r.infos && s !in r.infos[m].resolveCache
    requires FetchRequest(env, r, path, m, specifier).1 && !Classify(env, path, s).EsModule?
    requires s in FetchRequest(env, r, path, m, specifier).0.infos[m].resolveCache
    ensures FetchRequest(env, r, path, m, specifier).0.infos[m].resolveCache[s] >= |r.modules|
  {
    var (r', target) := FetchTarget(env, r, path, specifier);
    assert r'.infos[m] == r.infos[m];
  }

  lemma FetchedSyntheticIsNew(env: Environment, r: Registry, p: Path, dir: string, s: string)
    requires InRange(r) && p !in r.paths && Fetch(env, r, p).1.Some?
    requires IsDirOf(dir, p) && s in Requests(env, p) && (ForExtension(s) || ForRequire(env, dir, s))
    ensures var (r', m) := Fetch(env, r, p);
      var resolution := Resolve(r', m.value, s);
      resolution.Resolved? ==> resolution.target > |r.modules|
  {
    Kinds(env, p, dir, s);
    FetchOfNew(env, r, p);
    RequestsMakeNew(env, Register(r, p), p, |r.modules|, env.files[p].requests, s);
  }

  // ---------------------------------------------------------------- when a fetch succeeds

  /** The request needs no other file: its module is there, or can be made. */
  ghost predicate AtHand(env: Environment, r: Registry, dir: string, s: string) {
    && (ForExtension(s) ==> env.extensionLoads(s[1..]))
    && (forall q :: ForEsModule(env, dir, s, q) ==> q in r.paths)
    && (ForRequire(env, dir, s) ==> env.requireReturns(NameToRequire(env, dir, s)))
  }

  /** A file whose ES imports are registered is fetched exactly when it compiles, its extensions load and
      its CommonJS imports can be required. */
  lemma LastFileFetchedIff(env: Environment, r: Registry, p: Path, dir: string)
    requires WellBuilt(env, r, {}) && p !in r.paths && IsDirOf(dir, p)
    requires forall s, q :: s in Requests(env, p) && ForEsModule(env, dir, s, q) ==> q in r.paths
    ensures Fetch(env, r, p).1.Some? <==>
      p in env.files && env.files[p].Parsed? && forall s :: s in Requests(env, p) ==> AtHand(env, r, dir, s)
  {
    hide WellBuilt, Fetch;
    forall s | s in Requests(env, p)
      ensures FailsOutright(env, Classify(env, p, s)) <==> !AtHand(env, r, dir, s)
    {
      Kinds(env, p, dir, s);
      if Classify(env, p, s).EsModule? {
        assert ForEsModule(env, dir, s, Classify(env, p, s).path);
      }
    }
    FetchFailsIff(env, r, {}, p);
    if Broken(env, p) {
      BrokenIsDoomed(env, r.paths.Keys, p);
    }
    if ps :| DoomedBy(env, r.paths.Keys, p, ps) {
      ImportsLeaveNothing(env, r, p, dir, ps);
    }
  }

  lemma ImportsLeaveNothing(env: Environment, r: Registry, p: Path, dir: string, ps: seq<Path>)
    requires IsDirOf(dir, p) && DoomedBy(env, r.paths.Keys, p, ps)
    requires forall s, q :: s in Requests(env, p) && ForEsModule(env, dir, s, q) ==> q in r.paths
    ensures |ps| == 1
  {
    if |ps| > 1 {
      assert Imports(env, ps[0], ps[1]);
      var s :| s in Requests(env, p) && Classify(env, p, s) == EsModule(ps[1]);
      Kinds(env, p, dir, s);
    }
  }
}

/** Whole runs of the registry: any sequence of outermost fetches, and what the import resolution
    callback can rely on. */
module FetchRuns {
  import opened Options
  import opened ModuleGraph
  import opened FetchInvariants
  import opened FetchOutcome

  /** TrackForeign registers a module handed over by the embedder's own resolver. */
  datatype Operation = FetchPath(path: Path) | TrackForeign

  function Perform(env: Environment, r: Registry, op: Operation): (r': Registry)
    requires InRange(r)
    ensures InRange(r') && Extends(r, r')
  {
    match op
    case FetchPath(path) => Fetch(env, r, path).0
    case TrackForeign => AddSynthetic(r, Foreign)
  }

  function Run(env: Environment, r: Registry, ops: seq<Operation>): (r': Registry)
    requires InRange(r)
    ensures InRange(r') && Extends(r, r')
    decreases |ops|
  {
    if ops == [] then r else Run(env, Perform(env, r, ops[0]), ops[1..])
  }

  /** Fetching `path` fails after a request that succeeded led back to a file still being fetched.
      This is a property of the files alone. */
  ghost predicate Poisonous(env: Environment, path: Path) {
    Doomed(env, {}, path) && Strands(env, {}, path)
  }

  ghost predicate Harmless(env: Environment, op: Operation) {
    op.FetchPath? ==> !Poisonous(env, op.path)
  }

  /** No run leaves a half-built entry behind, whatever fails in it. */
  lemma {:induction false} RunStaysWellBuilt(env: Environment, r: Registry, ops: seq<Operation>)
    requires WellBuilt(env, r, {})
    ensures WellBuilt(env, Run(env, r, ops), {})
    decreases |ops|
  {
    hide WellBuilt;
    TrackedIsTrackedOrErased(env, r, {});
    if ops != [] {
      PerformStaysWellBuilt(env, r, ops[0]);
      RunStaysWellBuilt(env, Perform(env, r, ops[0]), ops[1..]);
    }
  }

  lemma PerformStaysWellBuilt(env: Environment, r: Registry, op: Operation)
    requires WellBuilt(env, r, {})
    ensures WellBuilt(env, Perform(env, r, op), {})
  {
    match op
    case FetchPath(path) => FetchKeeps(env, r, path, {});
    case TrackForeign => AddSyntheticKeeps(env, r, {}, Foreign);
  }

  /** A run ends with every edge tracked exactly when it began that way and no path it fetched is
      poisonous; other failures do no lasting harm. */
  lemma {:induction false} RunClosedIff(env: Environment, r: Registry, ops: seq<Operation>)
    requires WellBuilt(env, r, {})
    ensures Closed(env, Run(env, r, ops)) <==> Closed(env, r) && forall op :: op in ops ==> Harmless(env, op)
    decreases |ops|
  {
    hide WellBuilt, Closed, Harmless, Perform;
    TrackedIsTrackedOrErased(env, r, {});
    if ops != [] {
      PerformStaysWellBuilt(env, r, ops[0]);
      PerformClosedIff(env, r, ops[0]);
      RunClosedIff(env, Perform(env, r, ops[0]), ops[1..]);
    }
  }

  lemma PerformClosedIff(env: Environment, r: Registry, op: Operation)
    requires WellBuilt(env, r, {})
    ensures Closed(env, Perform(env, r, op)) <==> Closed(env, r) && Harmless(env, op)
  {
    hide WellBuilt, Tracked, Strands, Doomed;
    TrackedIsTrackedOrErased(env, r, {});
    PerformStaysWellBuilt(env, r, op);
    if !Closed(env, r) {
      LostEdgeStaysLost(env, r, Perform(env, r, op));
    } else if op.TrackForeign? {
      AddSyntheticKeeps(env, r, {}, Foreign);
    } else if Fetch(env, r, op.path).1.Some? {
      FetchKeeps(env, r, op.path, {});
      FinishedIsNotDoomed(env, Fetch(env, r, op.path).0, {}, op.path);
    } else {
      FailureIsDoomed(env, r, {}, op.path);
      FailureClosedIff(env, r, op.path);
    }
  }

  lemma LostEdgeStaysLost(env: Environment, r: Registry, r': Registry)
    requires WellBuilt(env, r, {}) && !Tracked(env, r)
    requires Extends(r, r') && WellBuilt(env, r', {})
    ensures !Tracked(env, r')
  {
    var p, s :| p in r.paths && s in Cache(r, p) && !TrackedEdge(env, r, p, s);
    assert GoodEntry(env, r, p) && GoodEdge(env, r, p, s, Cache(r, p)[s]);
    UntrackedStays(env, r, r', p, s);
  }

  lemma UntrackedStays(env: Environment, r: Registry, r': Registry, p: Path, s: string)
    requires p in r.paths && r.paths[p] in r.infos && s in Cache(r, p) && Cache(r, p)[s] < |r.modules|
    requires Extends(r, r') && !TrackedEdge(env, r, p, s)
    ensures p in r'.paths && r'.paths[p] in r'.infos && Cache(r', p) == Cache(r, p) && !TrackedEdge(env, r', p, s)
  {
    hide Classify;
  }

  lemma EmptyIsClosed(env: Environment)
    ensures Closed(env, EMPTY)
  {
  }

  /** In a run that fetches no poisonous path, the import callback never misses on anything that a
      registered module imports its way to, each ES import leads to the module its file is
      registered under, and the same referrer and specifier keep giving the same module in any
      continuation of the run, failures included. */
  lemma ResolutionNeverMisses(
      env: Environment, ops: seq<Operation>, later: seq<Operation>, p: Path, q: Path, s: string)
    requires forall op :: op in ops ==> Harmless(env, op)
    requires p in Run(env, EMPTY, ops).paths && Reaches(env, p, q) && s in Requests(env, q)
    ensures var r := Run(env, EMPTY, ops);
      && q in r.paths
      && var resolution := Resolve(r, r.paths[q], s);
      && resolution.Resolved?
      && Resolve(Run(env, r, later), r.paths[q], s) == resolution
      && (var kind := Classify(env, q, s);
          kind.EsModule? ==> kind.path in r.paths && resolution.target == r.paths[kind.path])
  {
    var r := Run(env, EMPTY, ops);
    EmptyIsClosed(env);
    RunClosedIff(env, EMPTY, ops);
    var ps :| WalkFromTo(env, ps, p, q);
    WalkStaysFinished(env, r, {}, ps);
    assert GoodEntry(env, r, q) && Complete(env, r, q);
    assert TrackedEdge(env, r, q, s);
  }

  /** What a poisonous fetch costs: some file it leaves registered has an import that resolves to a
      module the registry no longer knows, so resolving any import of that module fails, and
      fetching the file again only returns the registered module. */
  lemma PoisonIsObservable(env: Environment, r: Registry, path: Path) returns (p: Path, s: string)
    requires Closed(env, r) && Poisonous(env, path)
    ensures var r' := Fetch(env, r, path).0;
      && p in r'.paths && s in Requests(env, p)
      && Fetch(env, r', p) == (r', Some(r'.paths[p]))
      && Resolve(r', r'.paths[p], s).Resolved?
      && forall z :: Resolve(r', Resolve(r', r'.paths[p], s).target, z) == Unresolved(UnknownReferrer)
  {
    hide Doomed, Strands, StrandsFrom;
    PerformClosedIff(env, r, FetchPath(path));
    PerformStaysWellBuilt(env, r, FetchPath(path));
    var r' := Fetch(env, r, path).0;
    FetchKeeps(env, r, path, {});
    p, s :| p in r'.paths && s in Cache(r', p) && !TrackedEdge(env, r', p, s);
    assert GoodEntry(env, r', p) && GoodEdge(env, r', p, s, Cache(r', p)[s]);
    assert ErasedEdge(env, r, r', p, s);
  }

  /** a.js imports b.js and then c.js, which does not exist; b.js imports a.js. */
  const CYCLE_WITH_A_GAP := Environment(
    map["a.js" := Parsed(["b.js", "c.js"]), "b.js" := Parsed(["a.js"])],
    (dir: Path, specifier: string) => Some(specifier),
    (package: Path) => None,
    (name: string) => false,
    (name: string) => false)

  lemma PlainName(name: string)
    requires |name| == 4 && name[1..] == ".js" && name[0] != ':' && name[0] != '/'
    ensures forall p :: Classify(CYCLE_WITH_A_GAP, p, name) == EsModule(name)
  {
    assert forall i :: 1 <= i < 4 ==> name[i] == name[1..][i - 1];
    assert Paths.FileName(name) == name;
    assert Paths.EndsWith(name, ".js");
  }

  lemma ClassifyCycle()
    ensures var env := CYCLE_WITH_A_GAP;
      && (forall p :: Classify(env, p, "b.js") == EsModule("b.js"))
      && (forall p :: Classify(env, p, "a.js") == EsModule("a.js"))
      && (forall p :: Classify(env, p, "c.js") == EsModule("c.js"))
  {
    assert "b.js"[1..] == "a.js"[1..] == "c.js"[1..] == ".js";
    PlainName("a.js");
    PlainName("b.js");
    PlainName("c.js");
  }

  lemma CycleImports()
    ensures var env := CYCLE_WITH_A_GAP;
      Imports(env, "a.js", "b.js") && Imports(env, "a.js", "c.js") && Imports(env, "b.js", "a.js")
  {
    var env := CYCLE_WITH_A_GAP;
    ClassifyCycle();
    hide Classify;
    assert Requests(env, "a.js")[0] == "b.js" && Requests(env, "a.js")[1] == "c.js";
    assert Requests(env, "b.js")[0] == "a.js";
    assert "b.js" in Requests(env, "a.js") && "c.js" in Requests(env, "a.js") && "a.js" in Requests(env, "b.js");
  }

  lemma BIsNotDoomed()
    ensures !Doomed(CYCLE_WITH_A_GAP, {"a.js"}, "b.js")
  {
    hide Classify, Imports;
    if Doomed(CYCLE_WITH_A_GAP, {"a.js"}, "b.js") {
      var ps :| DoomedBy(CYCLE_WITH_A_GAP, {"a.js"}, "b.js", ps);
      BImportsOnlyA(ps);
      BIsNotBroken();
      assert false;
    }
  }

  lemma BIsNotBroken()
    ensures !Broken(CYCLE_WITH_A_GAP, "b.js")
  {
    ClassifyCycle();
    hide Classify;
    assert Requests(CYCLE_WITH_A_GAP, "b.js") == ["a.js"];
  }

  lemma BImportsOnlyA(ps: seq<Path>)
    requires Walk(CYCLE_WITH_A_GAP, ps) && ps[0] == "b.js"
    ensures |ps| == 1 || ps[1] == "a.js"
  {
    ClassifyCycle();
    if |ps| > 1 {
      assert Imports(CYCLE_WITH_A_GAP, ps[0], ps[1]);
      assert Requests(CYCLE_WITH_A_GAP, "b.js") == ["a.js"];
    }
  }

  /** The comment at the rollback promises that no half-built module is left for the next import
      to pick up; here b.js is left, with its import of a.js leading nowhere. */
  lemma RollbackCanStrand()
    ensures Poisonous(CYCLE_WITH_A_GAP, "a.js")
    ensures !Closed(CYCLE_WITH_A_GAP, Run(CYCLE_WITH_A_GAP, EMPTY, [FetchPath("a.js")]))
  {
    var env := CYCLE_WITH_A_GAP;
    ClassifyCycle();
    CycleImports();
    BIsNotDoomed();
    hide Classify, Closed, Run, Requests;
    assert DoomedBy(env, {}, "a.js", ["a.js", "c.js"]);
    assert DoomedBy(env, {"a.js"}, "c.js", ["c.js"]);
    assert WalkFromTo(env, ["b.js", "a.js"], "b.js", "a.js");
    assert ["b.js", "c.js"][1..] == ["c.js"];
    assert !Strands(env, {"a.js"}, "c.js");
    assert ReachesAny(env, "b.js", {"a.js"});
    assert StrandsFrom(env, {"a.js"}, "a.js", ["b.js", "c.js"]);
    assert {} + {"a.js"} == {"a.js"};
    EmptyIsClosed(env);
    RunClosedIff(env, EMPTY, [FetchPath("a.js")]);
    assert FetchPath("a.js") in [FetchPath("a.js")];
  }

  /** What a poisonous fetch leaves registered are files that exist, without the one it was asked for. */
  lemma SurvivorExists(env: Environment, r: Registry, path: Path) returns (p: Path)
    requires Closed(env, r) && Poisonous(env, path)
    ensures var r' := Fetch(env, r, path).0;
      p in r'.paths && path !in r'.paths && p in env.files && Fetch(env, r', p).1.Some?
  {
    hide Doomed, Strands;
    var s: string;
    p, s := PoisonIsObservable(env, r, path);
    PerformStaysWellBuilt(env, r, FetchPath(path));
    assert GoodEntry(env, Fetch(env, r, path).0, p);
    assert Fetch(env, r, path).1.None? by {
      if Fetch(env, r, path).1.Some? {
        PerformClosedIff(env, r, FetchPath(path));
        FetchKeeps(env, r, path, {});
        assert false;
      }
    }
  }

  /** After such a failure a fetch can succeed although its file imports its way to a missing one:
      b.js is still registered. */
  lemma StrandedFetchSucceeds()
    ensures var env := CYCLE_WITH_A_GAP;
      && Fetch(env, Fetch(env, EMPTY, "a.js").0, "b.js").1.Some?
      && Reaches(env, "b.js", "c.js") && Broken(env, "c.js")
  {
    hide Fetch, Poisonous, Imports, Closed, Requests;
    RollbackCanStrand();
    CycleImports();
    EmptyIsClosed(CYCLE_WITH_A_GAP);
    var p := SurvivorExists(CYCLE_WITH_A_GAP, EMPTY, "a.js");
    assert p == "b.js";
    assert WalkFromTo(CYCLE_WITH_A_GAP, ["b.js", "a.js", "c.js"], "b.js", "c.js");
  }
}

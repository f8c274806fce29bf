/** What every fetch keeps: no half-built entry outside the fetches still in progress, and where
    the recorded edges of the import graph lead. */
module FetchInvariants {
  import opened Options
  import opened ModuleGraph

  /** The import requests of a file; none if it does not compile. */
  function Requests(env: Environment, p: Path): seq<string> {
    if p in env.files && env.files[p].Parsed? then env.files[p].requests else []
  }

  /** The file at p has a request that resolves to the ES module file q. */
  ghost predicate Imports(env: Environment, p: Path, q: Path) {
    exists s :: s in Requests(env, p) && Classify(env, p, s) == EsModule(q)
  }

  /** Fetching p itself, apart from the ES modules it imports, cannot succeed. */
  ghost predicate Broken(env: Environment, p: Path) {
    || p !in env.files
    || env.files[p].Malformed?
    || exists s :: s in Requests(env, p) && FailsOutright(env, Classify(env, p, s))
  }

  /** A walk along imports in the file system. */
  ghost predicate Walk(env: Environment, ps: seq<Path>) {
    && |ps| > 0
    && forall k :: 0 <= k < |ps| - 1 ==> Imports(env, ps[k], ps[k + 1])
  }

  ghost predicate WalkFromTo(env: Environment, ps: seq<Path>, p: Path, q: Path) {
    Walk(env, ps) && ps[0] == p && ps[|ps| - 1] == q
  }

  ghost predicate Reaches(env: Environment, p: Path, q: Path) {
    exists ps :: WalkFromTo(env, ps, p, q)
  }

  /** The recorded resolutions of the module registered for p. */
  function Cache(r: Registry, p: Path): map<string, ModuleId>
    requires p in r.paths && r.paths[p] in r.infos
  {
    r.infos[r.paths[p]].resolveCache
  }

  /** A recorded resolution leads to a module of the kind, and for ES modules the file, that the
      request asks for. */
  ghost predicate GoodEdge(env: Environment, r: Registry, p: Path, s: string, target: ModuleId) {
    var kind := Classify(env, p, s);
    && s in Requests(env, p)
    && !FailsOutright(env, kind)
    && target < |r.modules|
    && r.modules[target] == OriginOf(kind)
  }

  ghost predicate GoodEntry(env: Environment, r: Registry, p: Path)
    requires p in r.paths
  {
    && r.paths[p] < |r.modules| && r.modules[r.paths[p]] == SourceText(p)
    && r.paths[p] in r.infos
    && p in env.files && env.files[p].Parsed?
    && forall s :: s in Cache(r, p) ==> GoodEdge(env, r, p, s, Cache(r, p)[s])
  }

  /** Every request of p has a resolveCache entry. */
  ghost predicate Complete(env: Environment, r: Registry, p: Path)
    requires p in r.paths && r.paths[p] in r.infos
  {
    forall s :: s in Requests(env, p) ==> s in Cache(r, p)
  }

  /** Modules without source text have an empty entry of their own, but for those of extensions. */
  ghost predicate SyntheticEntries(r: Registry) {
    forall m :: 0 <= m < |r.modules| && !r.modules[m].SourceText? ==>
      if r.modules[m].OfExtension? then m !in r.infos else m in r.infos && r.infos[m] == ModuleInfo(map[])
  }

  /** The registry is well built but for the files whose fetch is in progress. */
  ghost predicate WellBuilt(env: Environment, r: Registry, active: set<Path>) {
    && InRange(r)
    && active <= r.paths.Keys
    && (forall p :: p in r.paths ==> GoodEntry(env, r, p))
    && (forall p :: p in r.paths && p !in active ==> Complete(env, r, p))
    && (forall m :: m in r.infos && r.modules[m].SourceText? ==>
          r.modules[m].path in r.paths && r.paths[r.modules[m].path] == m)
    && SyntheticEntries(r)
  }

  /** If the request s of p is for an ES module then `target` is what its file is registered under. */
  ghost predicate LeadsTo(env: Environment, r: Registry, p: Path, s: string, target: ModuleId) {
    var kind := Classify(env, p, s);
    kind.EsModule? ==> kind.path in r.paths && r.paths[kind.path] == target
  }

  ghost predicate TrackedEdge(env: Environment, r: Registry, p: Path, s: string)
    requires p in r.paths && r.paths[p] in r.infos && s in Cache(r, p)
  {
    LeadsTo(env, r, p, s, Cache(r, p)[s])
  }

  /** Every ES edge leads to the module that its file is registered under. */
  ghost predicate Tracked(env: Environment, r: Registry)
    requires forall p :: p in r.paths ==> r.paths[p] in r.infos
  {
    forall p, s :: p in r.paths && s in Cache(r, p) ==> TrackedEdge(env, r, p, s)
  }

  /** The edge was recorded since `before` and leads back to a module made since then whose file
      imports its way to p, and which has been unregistered again. */
  ghost predicate ErasedEdge(env: Environment, before: Registry, r: Registry, p: Path, s: string)
    requires p in r.paths && r.paths[p] in r.infos && s in Cache(r, p)
  {
    var kind := Classify(env, p, s);
    && kind.EsModule?
    && kind.path !in r.paths
    && p !in before.paths
    && Cache(r, p)[s] >= |before.modules|
    && Reaches(env, kind.path, p)
  }

  ghost predicate TrackedOrErased(env: Environment, before: Registry, r: Registry)
    requires forall p :: p in r.paths ==> r.paths[p] in r.infos
  {
    forall p, s :: p in r.paths && s in Cache(r, p) ==>
      TrackedEdge(env, r, p, s) || ErasedEdge(env, before, r, p, s)
  }

  /** Every file registered since `before` is one that `path` imports its way to. */
  ghost predicate OnlyAdds(env: Environment, before: Registry, r: Registry, path: Path) {
    forall p :: p in r.paths && p !in before.paths ==> Reaches(env, path, p)
  }

  // ---------------------------------------------------------------- walks

  lemma ReachesSelf(env: Environment, p: Path)
    ensures Reaches(env, p, p)
  {
    assert WalkFromTo(env, [p], p, p);
  }

  lemma WalkCons(env: Environment, p: Path, ps: seq<Path>)
    requires Walk(env, ps) && Imports(env, p, ps[0])
    ensures Walk(env, [p] + ps)
  {
    var all := [p] + ps;
    forall k | 0 <= k < |all| - 1 ensures Imports(env, all[k], all[k + 1]) {
      if k > 0 {
        assert all[k] == ps[k - 1] && all[k + 1] == ps[k];
      }
    }
  }

  lemma ReachesCons(env: Environment, p: Path, q: Path, z: Path)
    requires Imports(env, p, q) && Reaches(env, q, z)
    ensures Reaches(env, p, z)
  {
    var ps :| WalkFromTo(env, ps, q, z);
    WalkCons(env, p, ps);
    assert WalkFromTo(env, [p] + ps, p, z);
  }

  lemma ReachesThenImports(env: Environment, p: Path, q: Path, z: Path)
    requires Reaches(env, p, q) && Imports(env, q, z)
    ensures Reaches(env, p, z)
  {
    var ps :| WalkFromTo(env, ps, p, q);
    assert WalkFromTo(env, ps + [z], p, z);
  }

  // ---------------------------------------------------------------- one fetch

  /** One fetch keeps the registry well built whatever is in progress; when it succeeds every edge
      stays tracked, and when it fails the only other edges lead to modules this failure erased. */
  lemma {:induction false} FetchKeeps(env: Environment, r: Registry, path: Path, active: set<Path>)
    requires WellBuilt(env, r, active)
    ensures var (r', m) := Fetch(env, r, path);
      && WellBuilt(env, r', active)
      && OnlyAdds(env, r, r', path)
      && (Tracked(env, r) ==> if m.Some? then Tracked(env, r') else TrackedOrErased(env, r, r'))
    decreases env.files.Keys - r.paths.Keys, 0, 0
  {
    hide WellBuilt, GoodEntry, Tracked, TrackedOrErased, Fetch, FetchRequests, Reaches;
    TrackedIsTrackedOrErased(env, r, active);
    if path !in r.paths {
      FetchOfNew(env, r, path);
    }
    if path !in r.paths && path in env.files && env.files[path].Parsed? {
      var m := |r.modules|;
      var r0 := Register(r, path);
      var requests := env.files[path].requests;
      RegisterKeeps(env, r, path, active);
      FetchRequestsKeeps(env, r0, path, active + {path}, 0);
      assert Requests(env, path)[0..] == requests;
      var (r', fetched) := FetchRequests(env, r0, path, m, requests);
      ReachesSelf(env, path);
      if fetched {
        assert active + {path} - {path} == active by { assert path !in active; }
      } else {
        UnregisterKeeps(env, r, r', path, active);
      }
    }
  }

  lemma TrackedIsTrackedOrErased(env: Environment, r: Registry, active: set<Path>)
    requires WellBuilt(env, r, active)
    ensures InRange(r) && active <= r.paths.Keys
    ensures forall p :: p in r.paths ==> r.paths[p] in r.infos
    ensures Tracked(env, r) ==> TrackedOrErased(env, r, r)
  {
    assert forall p :: p in r.paths ==> GoodEntry(env, r, p);
  }

  /** An entry that is unchanged stays good and complete while modules are made. */
  lemma EntryStays(env: Environment, r: Registry, r': Registry, p: Path)
    requires p in r.paths && GoodEntry(env, r, p) && r.modules <= r'.modules
    requires p in r'.paths && r'.paths[p] == r.paths[p]
    requires r.paths[p] in r'.infos && r'.infos[r.paths[p]] == r.infos[r.paths[p]]
    ensures GoodEntry(env, r', p) && (Complete(env, r, p) ==> Complete(env, r', p))
  {
    forall s | s in Cache(r', p) ensures GoodEdge(env, r', p, s, Cache(r', p)[s]) {
      assert GoodEdge(env, r, p, s, Cache(r, p)[s]);
    }
  }

  /** A tracked edge stays tracked while paths are registered. */
  lemma EdgeStays(env: Environment, r: Registry, r': Registry, p: Path, s: string)
    requires p in r.paths && r.paths[p] in r.infos && s in Cache(r, p) && TrackedEdge(env, r, p, s)
    requires p in r'.paths && r'.paths[p] in r'.infos && s in Cache(r', p) && Cache(r', p)[s] == Cache(r, p)[s]
    requires forall q :: q in r.paths ==> q in r'.paths && r'.paths[q] == r.paths[q]
    ensures TrackedEdge(env, r', p, s)
  {
  }

  lemma SyntheticAfterMaking(r: Registry, r': Registry)
    requires SyntheticEntries(r) && InRange(r)
    requires |r'.modules| == |r.modules| + 1 && r'.modules[..|r.modules|] == r.modules
    requires var m, origin := |r.modules|, r'.modules[|r.modules|];
      r'.infos == if origin.OfExtension? then r.infos else r.infos[m := ModuleInfo(map[])]
    ensures SyntheticEntries(r')
  {
    assert forall m :: 0 <= m < |r.modules| ==> r'.modules[..|r.modules|][m] == r'.modules[m];
  }

  lemma SyntheticAfterUnregister(r: Registry, path: Path, m: ModuleId)
    requires SyntheticEntries(r) && m < |r.modules| && r.modules[m].SourceText?
    ensures SyntheticEntries(Unregister(r, path, m))
  {
  }

  lemma RegisterKeeps(env: Environment, r: Registry, path: Path, active: set<Path>)
    requires WellBuilt(env, r, active)
    requires path !in r.paths && path in env.files && env.files[path].Parsed?
    ensures var r0 := Register(r, path);
      WellBuilt(env, r0, active + {path}) && (Tracked(env, r) ==> Tracked(env, r0))
  {
    hide GoodEdge, TrackedEdge, Complete, SyntheticEntries;
    var r0 := Register(r, path);
    SyntheticAfterMaking(r, r0);
    forall p | p in r0.paths ensures GoodEntry(env, r0, p) && (p !in active + {path} ==> Complete(env, r0, p)) {
      if p != path {
        EntryStays(env, r, r0, p);
      }
    }
    if Tracked(env, r) {
      forall p, s | p in r0.paths && s in Cache(r0, p) ensures TrackedEdge(env, r0, p, s) {
        EdgeStays(env, r, r0, p, s);
      }
    }
  }

  lemma UnregisterKeeps(env: Environment, r: Registry, r': Registry, path: Path, active: set<Path>)
    requires WellBuilt(env, r, active) && path !in r.paths
    requires WellBuilt(env, r', active + {path}) && r'.paths[path] == |r.modules|
    requires ExtendsBut(Register(r, path), r', |r.modules|)
    requires OnlyAdds(env, r, r', path)
    ensures var r2 := Unregister(r', path, |r.modules|);
      && WellBuilt(env, r2, active)
      && OnlyAdds(env, r, r2, path)
      && (Tracked(env, r) && TrackedOrErased(env, Register(r, path), r') ==> TrackedOrErased(env, r, r2))
  {
    hide Tracked, ErasedEdge, TrackedEdge, Reaches;
    UnregisterStaysWellBuilt(env, r, r', path, active);
    var r2 := Unregister(r', path, |r.modules|);
    if Tracked(env, r) && TrackedOrErased(env, Register(r, path), r') {
      forall p, s | p in r2.paths && s in Cache(r2, p)
        ensures TrackedEdge(env, r2, p, s) || ErasedEdge(env, r, r2, p, s)
      {
        UnregisterEdge(env, r, r', path, p, s);
      }
    }
  }

  lemma UnregisterStaysWellBuilt(env: Environment, r: Registry, r': Registry, path: Path, active: set<Path>)
    requires WellBuilt(env, r, active) && path !in r.paths
    requires WellBuilt(env, r', active + {path}) && r'.paths[path] == |r.modules|
    ensures var r2 := Unregister(r', path, |r.modules|);
      && WellBuilt(env, r2, active)
      && forall p :: p in r2.paths ==> r'.paths[p] in r'.infos && r'.paths[p] != |r.modules|
  {
    hide GoodEdge, SyntheticEntries;
    var m := |r.modules|;
    var r2 := Unregister(r', path, m);
    assert GoodEntry(env, r', path);
    SyntheticAfterUnregister(r', path, m);
    forall p | p in r2.paths
      ensures r'.paths[p] != m && GoodEntry(env, r2, p) && (p !in active ==> Complete(env, r2, p))
    {
      assert GoodEntry(env, r', p);
      EntryStays(env, r', r2, p);
    }
  }

  lemma UnregisterEdge(env: Environment, r: Registry, r': Registry, path: Path, p: Path, s: string)
    requires path !in r.paths && forall q :: q in r.paths ==> r.paths[q] in r.infos && r.paths[q] != |r.modules|
    requires Tracked(env, r)
    requires ExtendsBut(Register(r, path), r', |r.modules|) && r'.paths[path] == |r.modules|
    requires OnlyAdds(env, r, r', path)
    requires p in r'.paths && p != path && r'.paths[p] in r'.infos && r'.paths[p] != |r.modules|
    requires s in Cache(r', p)
    requires TrackedEdge(env, r', p, s) || ErasedEdge(env, Register(r, path), r', p, s)
    ensures var r2 := Unregister(r', path, |r.modules|);
      TrackedEdge(env, r2, p, s) || ErasedEdge(env, r, r2, p, s)
  {
    if p in r.paths {
      assert Cache(r', p) == Cache(r, p);
      assert TrackedEdge(env, r, p, s);
    }
  }

  /** The loop over the requests of the file `path`, whose own fetch is among those in progress,
      from the i-th request on. */
  lemma {:induction false} FetchRequestsKeeps(env: Environment, r: Registry, path: Path, active: set<Path>, i: nat)
    requires WellBuilt(env, r, active) && path in active
    requires i <= |Requests(env, path)|
    requires forall j :: 0 <= j < i ==> Requests(env, path)[j] in Cache(r, path)
    ensures var (r', fetched) := FetchRequests(env, r, path, r.paths[path], Requests(env, path)[i..]);
      && WellBuilt(env, r', if fetched then active - {path} else active)
      && OnlyAdds(env, r, r', path)
      && (Tracked(env, r) ==> if fetched then Tracked(env, r') else TrackedOrErased(env, r, r'))
    decreases env.files.Keys - r.paths.Keys, |Requests(env, path)| - i + 1
  {
    hide WellBuilt, GoodEntry, Tracked, TrackedOrErased, OnlyAdds, FetchRequest, Requests, Walk;
    TrackedIsTrackedOrErased(env, r, active);
    if i == |Requests(env, path)| {
      AllResolved(env, r, path, active);
    } else {
      var requests := Requests(env, path)[i..];
      assert requests[1..] == Requests(env, path)[i + 1..];
      FetchRequestKeeps(env, r, path, active, requests[0]);
      var (r1, resolved) := FetchRequest(env, r, path, r.paths[path], requests[0]);
      if resolved {
        FetchRequestsKeeps(env, r1, path, active, i + 1);
        var (r', fetched) := FetchRequests(env, r1, path, r.paths[path], requests[1..]);
        OnlyAddsThen(env, r, r1, r', path);
        if Tracked(env, r) && !fetched {
          TrackedIsTrackedOrErased(env, r', active);
          SinceEarlier(env, r, r1, r');
        }
      }
    }
  }

  lemma AllResolved(env: Environment, r: Registry, path: Path, active: set<Path>)
    requires WellBuilt(env, r, active) && path in active
    requires forall s :: s in Requests(env, path) ==> s in Cache(r, path)
    ensures WellBuilt(env, r, active - {path}) && OnlyAdds(env, r, r, path)
  {
    assert Complete(env, r, path);
  }

  lemma OnlyAddsThen(env: Environment, r: Registry, r1: Registry, r': Registry, path: Path)
    requires OnlyAdds(env, r, r1, path) && OnlyAdds(env, r1, r', path)
    ensures OnlyAdds(env, r, r', path)
  {
  }

  lemma SinceEarlier(env: Environment, r: Registry, r1: Registry, r': Registry)
    requires r.paths.Keys <= r1.paths.Keys && |r.modules| <= |r1.modules|
    requires forall p :: p in r'.paths ==> r'.paths[p] in r'.infos
    requires TrackedOrErased(env, r1, r')
    ensures TrackedOrErased(env, r, r')
  {
    forall p, e | p in r'.paths && e in Cache(r', p)
      ensures TrackedEdge(env, r', p, e) || ErasedEdge(env, r, r', p, e)
    {
      assert TrackedEdge(env, r', p, e) || ErasedEdge(env, r1, r', p, e);
    }
  }

  /** One request of `path`, with the edge it records. */
  lemma {:induction false} FetchRequestKeeps(
      env: Environment, r: Registry, path: Path, active: set<Path>, s: string)
    requires WellBuilt(env, r, active) && path in active && s in Requests(env, path)
    ensures var (r', resolved) := FetchRequest(env, r, path, r.paths[path], s);
      && WellBuilt(env, r', active)
      && OnlyAdds(env, r, r', path)
      && (Tracked(env, r) ==> if resolved then Tracked(env, r') else TrackedOrErased(env, r, r'))
    decreases env.files.Keys - r.paths.Keys, 1
  {
    hide WellBuilt, GoodEntry, Tracked, TrackedOrErased, Fetch, Requests;
    TrackedIsTrackedOrErased(env, r, active);
    FetchTargetKeeps(env, r, path, active, s);
    var (r', target) := FetchTarget(env, r, path, s);
    if target.Some? {
      AddEdgeKeeps(env, r', path, active, s, target.value);
    }
  }

  /** Besides what a fetch keeps, the module that a request resolves to is a good edge target. */
  lemma {:induction false} FetchTargetKeeps(
      env: Environment, r: Registry, path: Path, active: set<Path>, s: string)
    requires WellBuilt(env, r, active) && path in active && s in Requests(env, path)
    ensures var (r', target) := FetchTarget(env, r, path, s);
      && WellBuilt(env, r', active)
      && OnlyAdds(env, r, r', path)
      && (target.Some? ==> GoodEdge(env, r', path, s, target.value))
      && (target.Some? ==> LeadsTo(env, r', path, s, target.value))
      && (Tracked(env, r) ==> if target.Some? then Tracked(env, r') else TrackedOrErased(env, r, r'))
    decreases env.files.Keys - r.paths.Keys, 0, 1
  {
    var kind := Classify(env, path, s);
    if kind.EsModule? {
      FetchKeeps(env, r, kind.path, active);
      var (r', target) := Fetch(env, r, kind.path);
      forall p | p in r'.paths && p !in r.paths ensures Reaches(env, path, p) {
        ReachesCons(env, path, kind.path, p);
      }
      if target.Some? { assert GoodEntry(env, r', kind.path); }
    } else if !FailsOutright(env, kind) {
      AddSyntheticKeeps(env, r, active, OriginOf(kind));
    }
  }

  lemma AddSyntheticKeeps(env: Environment, r: Registry, active: set<Path>, origin: Origin)
    requires WellBuilt(env, r, active) && !origin.SourceText?
    ensures var r' := AddSynthetic(r, origin);
      WellBuilt(env, r', active) && (Tracked(env, r) ==> Tracked(env, r'))
  {
    hide GoodEdge, TrackedEdge, Complete, SyntheticEntries;
    var r' := AddSynthetic(r, origin);
    SyntheticAfterMaking(r, r');
    forall p | p in r'.paths ensures GoodEntry(env, r', p) && (p !in active ==> Complete(env, r', p)) {
      EntryStays(env, r, r', p);
    }
    if Tracked(env, r) {
      forall p, s | p in r'.paths && s in Cache(r', p) ensures TrackedEdge(env, r', p, s) {
        EdgeStays(env, r, r', p, s);
      }
    }
  }

  lemma AddEdgeKeeps(env: Environment, r: Registry, path: Path, active: set<Path>, s: string, target: ModuleId)
    requires WellBuilt(env, r, active) && path in active
    requires GoodEdge(env, r, path, s, target)
    ensures var r' := AddEdge(r, r.paths[path], s, target);
      && WellBuilt(env, r', active)
      && (Tracked(env, r) && LeadsTo(env, r, path, s, target) ==> Tracked(env, r'))
  {
    hide AddEdge, Tracked, TrackedEdge, GoodEdge, GoodEntry, LeadsTo, SyntheticEntries;
    AddEdgeChanges(env, r, path, active, s, target);
    AddEdgeStaysWellBuilt(env, r, path, active, s, target);
    if Tracked(env, r) && LeadsTo(env, r, path, s, target) {
      AddEdgeStaysTracked(env, r, path, s, target);
    }
  }

  /** Only the entry of the importing file changes. */
  lemma AddEdgeChanges(env: Environment, r: Registry, path: Path, active: set<Path>, s: string, target: ModuleId)
    requires WellBuilt(env, r, active) && path in active
    ensures forall p :: p in r.paths ==> r.paths[p] in r.infos
    ensures forall p :: p in r.paths && p != path ==> r.paths[p] != r.paths[path]
    ensures var m, r' := r.paths[path], AddEdge(r, r.paths[path], s, target);
      && r'.modules == r.modules && r'.paths == r.paths && r'.infos.Keys == r.infos.Keys
      && (forall n :: n in r.infos && n != m ==> r'.infos[n] == r.infos[n])
      && m < |r.modules| && r.modules[m].SourceText?
  {
    hide GoodEdge, SyntheticEntries;
    forall p | p in r.paths ensures r.paths[p] in r.infos && (p != path ==> r.paths[p] != r.paths[path]) {
      assert GoodEntry(env, r, p) && GoodEntry(env, r, path);
    }
    assert GoodEntry(env, r, path);
  }

  lemma AddEdgeStaysWellBuilt(
      env: Environment, r: Registry, path: Path, active: set<Path>, s: string, target: ModuleId)
    requires WellBuilt(env, r, active) && path in active && GoodEdge(env, r, path, s, target)
    ensures forall p :: p in r.paths ==> r.paths[p] in r.infos
    ensures WellBuilt(env, AddEdge(r, r.paths[path], s, target), active)
  {
    AddEdgeChanges(env, r, path, active, s, target);
    hide AddEdge, GoodEdge, GoodEntry, Complete, SyntheticEntries;
    var r' := AddEdge(r, r.paths[path], s, target);
    forall p | p in r'.paths ensures GoodEntry(env, r', p) && (p !in active ==> Complete(env, r', p)) {
      if p == path {
        AddEdgeKeepsOwnEntry(env, r, path, s, target);
      } else {
        EntryStays(env, r, r', p);
      }
    }
    SyntheticEntriesStay(r, r', r.paths[path]);
  }

  lemma SyntheticEntriesStay(r: Registry, r': Registry, m: ModuleId)
    requires SyntheticEntries(r) && r'.modules == r.modules && r'.infos.Keys == r.infos.Keys
    requires m < |r.modules| && r.modules[m].SourceText?
    requires forall n :: n in r.infos && n != m ==> r'.infos[n] == r.infos[n]
    ensures SyntheticEntries(r')
  {
  }

  lemma AddEdgeStaysTracked(env: Environment, r: Registry, path: Path, s: string, target: ModuleId)
    requires path in r.paths && forall p :: p in r.paths ==> r.paths[p] in r.infos
    requires forall p :: p in r.paths && p != path ==> r.paths[p] != r.paths[path]
    requires Tracked(env, r) && LeadsTo(env, r, path, s, target)
    ensures var r' := AddEdge(r, r.paths[path], s, target);
      (forall p :: p in r'.paths ==> r'.paths[p] in r'.infos) && Tracked(env, r')
  {
    hide TrackedEdge, LeadsTo;
    var r' := AddEdge(r, r.paths[path], s, target);
    forall p, e | p in r'.paths && e in Cache(r', p) ensures TrackedEdge(env, r', p, e) {
      if p == path && e !in Cache(r, p) {
        NewEdgeIsTracked(env, r, path, s, target);
      } else {
        EdgeStays(env, r, r', p, e);
      }
    }
  }

  lemma AddEdgeKeepsOwnEntry(env: Environment, r: Registry, path: Path, s: string, target: ModuleId)
    requires path in r.paths && GoodEntry(env, r, path) && GoodEdge(env, r, path, s, target)
    ensures GoodEntry(env, AddEdge(r, r.paths[path], s, target), path)
  {
    var r' := AddEdge(r, r.paths[path], s, target);
    forall e | e in Cache(r', path) ensures GoodEdge(env, r', path, e, Cache(r', path)[e]) {
      if e in Cache(r, path) {
        assert GoodEdge(env, r, path, e, Cache(r, path)[e]);
      }
    }
  }

  lemma NewEdgeIsTracked(env: Environment, r: Registry, path: Path, s: string, target: ModuleId)
    requires path in r.paths && r.paths[path] in r.infos && s !in Cache(r, path) && LeadsTo(env, r, path, s, target)
    ensures var r' := AddEdge(r, r.paths[path], s, target);
      s in Cache(r', path) && TrackedEdge(env, r', path, s)
  {
  }
}

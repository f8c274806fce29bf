/** When a fetch succeeds and what a failed one leaves behind, stated on the import graph of the
    files alone. */
module FetchOutcome {
  import opened Options
  import opened ModuleGraph
  import opened FetchInvariants

  /** No fetch in progress, nothing half built, every ES edge tracked. */
  ghost predicate Closed(env: Environment, r: Registry) {
    WellBuilt(env, r, {}) && Tracked(env, r)
  }

  ghost predicate Avoids(ps: seq<Path>, avoid: set<Path>) {
    forall k :: 0 <= k < |ps| ==> ps[k] !in avoid
  }

  /** A walk from p that stays clear of `avoid` comes to a file that cannot be fetched. */
  ghost predicate DoomedBy(env: Environment, avoid: set<Path>, p: Path, ps: seq<Path>) {
    Walk(env, ps) && ps[0] == p && Avoids(ps, avoid) && Broken(env, ps[|ps| - 1])
  }

  ghost predicate Doomed(env: Environment, avoid: set<Path>, p: Path) {
    exists ps :: DoomedBy(env, avoid, p, ps)
  }

  ghost predicate ReachesAny(env: Environment, p: Path, targets: set<Path>) {
    exists q :: q in targets && Reaches(env, p, q)
  }

  // ---------------------------------------------------------------- success

  lemma FinishedIsNotBroken(env: Environment, r: Registry, active: set<Path>, p: Path)
    requires WellBuilt(env, r, active) && p in r.paths && p !in active
    ensures !Broken(env, p)
  {
    assert GoodEntry(env, r, p) && Complete(env, r, p);
    forall s | s in Requests(env, p) ensures !FailsOutright(env, Classify(env, p, s)) {
      assert GoodEdge(env, r, p, s, Cache(r, p)[s]);
    }
  }

  /** A finished file is not broken, and what it imports is registered. */
  lemma FinishedFile(env: Environment, r: Registry, active: set<Path>, p: Path)
    requires WellBuilt(env, r, active) && Tracked(env, r)
    requires p in r.paths && p !in active
    ensures !Broken(env, p)
    ensures forall q :: Imports(env, p, q) ==> q in r.paths
  {
    FinishedIsNotBroken(env, r, active, p);
    assert GoodEntry(env, r, p) && Complete(env, r, p);
    forall q | Imports(env, p, q) ensures q in r.paths {
      var s :| s in Requests(env, p) && Classify(env, p, s) == EsModule(q);
      assert TrackedEdge(env, r, p, s);
    }
  }

  /** From a finished file a walk stays among finished files until it meets a fetch in progress. */
  lemma {:induction false} WalkStaysFinished(env: Environment, r: Registry, active: set<Path>, ps: seq<Path>)
    requires WellBuilt(env, r, active) && Tracked(env, r)
    requires Walk(env, ps) && ps[0] in r.paths && Avoids(ps, active)
    ensures ps[|ps| - 1] in r.paths
  {
    hide WellBuilt, Tracked, Broken;
    if |ps| > 1 {
      FinishedFile(env, r, active, ps[0]);
      assert Imports(env, ps[0], ps[1]);
      forall k | 0 <= k < |ps[1..]| - 1 ensures Imports(env, ps[1..][k], ps[1..][k + 1]) {
        assert Imports(env, ps[k + 1], ps[k + 2]);
      }
      WalkStaysFinished(env, r, active, ps[1..]);
    }
  }

  lemma FinishedIsNotDoomed(env: Environment, r: Registry, active: set<Path>, p: Path)
    requires WellBuilt(env, r, active) && Tracked(env, r)
    requires p in r.paths && p !in active
    ensures !Doomed(env, active, p)
  {
    hide WellBuilt, Tracked, Broken;
    if Doomed(env, active, p) {
      var ps :| DoomedBy(env, active, p, ps);
      WalkStaysFinished(env, r, active, ps);
      FinishedFile(env, r, active, ps[|ps| - 1]);
      assert false;
    }
  }

  lemma NoRequestFailsOutright(env: Environment, p: Path, s: string)
    requires !Broken(env, p) && s in Requests(env, p)
    ensures !FailsOutright(env, Classify(env, p, s))
  {
  }

  lemma BrokenIsDoomed(env: Environment, avoid: set<Path>, p: Path)
    requires Broken(env, p) && p !in avoid
    ensures Doomed(env, avoid, p)
  {
    assert DoomedBy(env, avoid, p, [p]);
  }

  lemma ImporterIsDoomed(env: Environment, avoid: set<Path>, p: Path, q: Path)
    requires p !in avoid && Imports(env, p, q) && Doomed(env, avoid + {p}, q)
    ensures Doomed(env, avoid, p)
  {
    hide Imports, Broken;
    var ps :| DoomedBy(env, avoid + {p}, q, ps);
    WalkCons(env, p, ps);
    assert DoomedBy(env, avoid, p, [p] + ps);
  }

  /** A fetch that fails has a reason: the files it imports its way to, without passing through one
      that was registered before, include one that cannot be fetched. */
  lemma {:induction false} FailureIsDoomed(env: Environment, r: Registry, avoid: set<Path>, path: Path)
    requires InRange(r) && avoid <= r.paths.Keys && Fetch(env, r, path).1.None?
    ensures Doomed(env, avoid, path)
    decreases env.files.Keys - r.paths.Keys, 0, 0
  {
    hide Fetch, FetchRequests, InRange, Register, Doomed, Imports;
    if Broken(env, path) {
      BrokenIsDoomed(env, avoid, path);
    } else {
      FetchOfNew(env, r, path);
      var q := RequestsFailureIsDoomed(
        env, Register(r, path), avoid + {path}, path, |r.modules|, env.files[path].requests);
      ImporterIsDoomed(env, avoid, path, q);
    }
  }

  lemma {:induction false} RequestsFailureIsDoomed(
      env: Environment, r: Registry, avoid: set<Path>, path: Path, m: ModuleId, requests: seq<string>)
    returns (q: Path)
    requires InRange(r) && m in r.infos && avoid <= r.paths.Keys && !Broken(env, path)
    requires forall s :: s in requests ==> s in Requests(env, path)
    requires !FetchRequests(env, r, path, m, requests).1
    ensures Imports(env, path, q) && Doomed(env, avoid, q)
    decreases env.files.Keys - r.paths.Keys, |requests| + 1
  {
    hide Doomed, Broken, Fetch, FetchRequests, FetchRequest, InRange, Classify;
    FetchRequestsOnce(env, r, path, m, requests);
    var s := requests[0];
    NoRequestFailsOutright(env, path, s) by { assert s in requests; }
    var (r1, resolved) := FetchRequest(env, r, path, m, s);
    if resolved {
      q := RequestsFailureIsDoomed(env, r1, avoid, path, m, requests[1..]);
    } else {
      q := Classify(env, path, s).path;
      FailureIsDoomed(env, r, avoid, q);
    }
  }

  /** What the files registered by a fetch import is registered too. */
  ghost predicate ImportsRegistered(env: Environment, before: Registry, r: Registry) {
    forall p, q :: p in r.paths && p !in before.paths && Imports(env, p, q) ==> q in r.paths
  }

  lemma {:induction false} SuccessRegistersImports(env: Environment, r: Registry, path: Path)
    requires InRange(r) && Fetch(env, r, path).1.Some?
    ensures ImportsRegistered(env, r, Fetch(env, r, path).0)
    decreases env.files.Keys - r.paths.Keys, 0, 0
  {
    hide Fetch, FetchRequests, InRange, Register;
    if path !in r.paths {
      FetchOfNew(env, r, path);
      RequestsRegisterImports(env, Register(r, path), path, |r.modules|, env.files[path].requests);
    }
  }

  lemma {:induction false} RequestsRegisterImports(
      env: Environment, r: Registry, path: Path, m: ModuleId, requests: seq<string>)
    requires InRange(r) && m in r.infos && FetchRequests(env, r, path, m, requests).1
    ensures var r' := FetchRequests(env, r, path, m, requests).0;
      && ImportsRegistered(env, r, r')
      && forall s :: s in requests && Classify(env, path, s).EsModule? ==> Classify(env, path, s).path in r'.paths
    decreases env.files.Keys - r.paths.Keys, |requests| + 1
  {
    hide Imports, Fetch, FetchRequests, FetchRequest, InRange, Classify;
    FetchRequestsOnce(env, r, path, m, requests);
    if requests != [] {
      var (r1, resolved) := FetchRequest(env, r, path, m, requests[0]);
      if Classify(env, path, requests[0]).EsModule? {
        SuccessRegistersImports(env, r, Classify(env, path, requests[0]).path);
      }
      assert ImportsRegistered(env, r, r1);
      RequestsRegisterImports(env, r1, path, m, requests[1..]);
      assert requests == [requests[0]] + requests[1..];
    }
  }

  /** A walk from a newly registered file that stays clear of the files registered before ends at a
      newly registered one. */
  lemma {:induction false} WalkStaysNew(env: Environment, r: Registry, r': Registry, ps: seq<Path>)
    requires ImportsRegistered(env, r, r')
    requires Walk(env, ps) && ps[0] in r'.paths && Avoids(ps, r.paths.Keys)
    ensures ps[|ps| - 1] in r'.paths
  {
    if |ps| > 1 {
      assert Imports(env, ps[0], ps[1]);
      assert ps[1] in r'.paths by { assert ps[0] !in r.paths; }
      forall k | 0 <= k < |ps[1..]| - 1 ensures Imports(env, ps[1..][k], ps[1..][k + 1]) {
        assert Imports(env, ps[k + 1], ps[k + 2]);
      }
      WalkStaysNew(env, r, r', ps[1..]);
    }
  }

  /** Whatever is registered, complete or in progress, and whatever has failed before: a fetch fails
      exactly when the files it imports its way to, without passing through a registered one, include
      one that is broken. */
  lemma FetchFailsIff(env: Environment, r: Registry, active: set<Path>, path: Path)
    requires WellBuilt(env, r, active)
    ensures Fetch(env, r, path).1.None? <==> Doomed(env, r.paths.Keys, path)
  {
    hide WellBuilt, Broken;
    TrackedIsTrackedOrErased(env, r, active);
    FetchKeeps(env, r, path, active);
    var (r', m) := Fetch(env, r, path);
    if m.None? {
      FailureIsDoomed(env, r, r.paths.Keys, path);
    } else if Doomed(env, r.paths.Keys, path) {
      var ps :| DoomedBy(env, r.paths.Keys, path, ps);
      SuccessRegistersImports(env, r, path);
      WalkStaysNew(env, r, r', ps);
      FinishedIsNotBroken(env, r', active, ps[|ps| - 1]);
      assert false;
    }
  }

  /** When no earlier failure has left an edge untracked, that is exactly when it imports its way to
      a broken file at all. */
  lemma FetchSucceedsIff(env: Environment, r: Registry, path: Path)
    requires Closed(env, r)
    ensures Fetch(env, r, path).1.Some? <==> forall q :: Reaches(env, path, q) ==> !Broken(env, q)
  {
    hide WellBuilt, Tracked, Broken;
    TrackedIsTrackedOrErased(env, r, {});
    FetchKeeps(env, r, path, {});
    var (r', m) := Fetch(env, r, path);
    if m.Some? {
      forall q | Reaches(env, path, q) ensures !Broken(env, q) {
        var ps :| WalkFromTo(env, ps, path, q);
        WalkStaysFinished(env, r', {}, ps);
        FinishedFile(env, r', {}, q);
      }
    } else {
      FetchFailsIff(env, r, {}, path);
      var ps :| DoomedBy(env, r.paths.Keys, path, ps);
      assert WalkFromTo(env, ps, path, ps[|ps| - 1]);
    }
  }

  /** A successful fetch keeps the registry closed and adds exactly the files that `path` imports
      its way to. */
  lemma SuccessAddsReachable(env: Environment, r: Registry, path: Path)
    requires Closed(env, r) && Fetch(env, r, path).1.Some?
    ensures var r' := Fetch(env, r, path).0;
      Closed(env, r') && forall q :: q in r'.paths <==> q in r.paths || Reaches(env, path, q)
  {
    hide WellBuilt, Tracked, Broken;
    TrackedIsTrackedOrErased(env, r, {});
    FetchKeeps(env, r, path, {});
    var (r', m) := Fetch(env, r, path);
    forall q | Reaches(env, path, q) ensures q in r'.paths {
      var ps :| WalkFromTo(env, ps, path, q);
      WalkStaysFinished(env, r', {}, ps);
    }
  }

  // ---------------------------------------------------------------- failure

  /** Rollback: the requested path is unregistered, everything registered before is as it was,
      every surviving entry is complete, and an ES edge of a survivor that is not tracked was
      recorded by this fetch and leads back to a module erased by it, along an import cycle. */
  lemma FailureRollsBack(env: Environment, r: Registry, path: Path)
    requires Closed(env, r) && Fetch(env, r, path).1.None?
    ensures var r' := Fetch(env, r, path).0;
      && path !in r'.paths
      && Extends(r, r')
      && WellBuilt(env, r', {})
      && forall p, s, q :: p in r'.paths && s in Requests(env, p) && Classify(env, p, s) == EsModule(q) ==>
           || (q in r'.paths && r'.paths[q] == Cache(r', p)[s])
           || (&& q !in r'.paths && p !in r.paths && Cache(r', p)[s] >= |r.modules|
               && Imports(env, p, q) && Reaches(env, q, p))
  {
    FetchKeeps(env, r, path, {});
    var r' := Fetch(env, r, path).0;
    forall p, s, q | p in r'.paths && s in Requests(env, p) && Classify(env, p, s) == EsModule(q)
      ensures
        || (q in r'.paths && r'.paths[q] == Cache(r', p)[s])
        || (&& q !in r'.paths && p !in r.paths && Cache(r', p)[s] >= |r.modules|
            && Imports(env, p, q) && Reaches(env, q, p))
    {
      assert Complete(env, r', p);
      assert TrackedEdge(env, r', p, s) || ErasedEdge(env, r, r', p, s);
    }
  }

  /** With no import cycle a failed fetch leaves the registry closed. */
  lemma FailureOnAcyclicGraph(env: Environment, r: Registry, path: Path)
    requires Closed(env, r) && Fetch(env, r, path).1.None?
    requires forall p, q :: Imports(env, p, q) ==> !Reaches(env, q, p)
    ensures Closed(env, Fetch(env, r, path).0)
  {
    FailureRollsBack(env, r, path);
    var r' := Fetch(env, r, path).0;
    forall p, s | p in r'.paths && s in Cache(r', p) ensures TrackedEdge(env, r', p, s) {
      assert GoodEntry(env, r', p);
      assert GoodEdge(env, r', p, s, Cache(r', p)[s]);
      if Classify(env, p, s).EsModule? {
        assert Imports(env, p, Classify(env, p, s).path);
      }
    }
  }

  // ---------------------------------------------------------------- stranded edges, exactly

  /** Fetching p while `active` is in progress fails, and before it does, some request that
      succeeded has led back to a file whose fetch is in progress (p or one of `active`). */
  ghost predicate Strands(env: Environment, active: set<Path>, p: Path)
    requires p !in active
    decreases env.files.Keys - active, 0, 0
  {
    p in env.files && env.files[p].Parsed? &&
    (assert p in env.files.Keys - active;
     StrandsFrom(env, active + {p}, p, env.files[p].requests))
  }

  ghost predicate StrandsFrom(env: Environment, active: set<Path>, p: Path, requests: seq<string>)
    decreases env.files.Keys - active, 1, |requests|
  {
    requests != [] &&
    var rest := StrandsFrom(env, active, p, requests[1..]);
    match Classify(env, p, requests[0])
    case EsModule(q) =>
      if q in active then rest
      else if Doomed(env, active, q) then Strands(env, active, q)
      else ReachesAny(env, q, active) || rest
    case other => !FailsOutright(env, other) && rest
  }

  /** A finished file imports one whose fetch is in progress. */
  ghost predicate Points(env: Environment, r: Registry, active: set<Path>) {
    exists p, q :: p in r.paths && p !in active && q in active && Imports(env, p, q)
  }

  /** A finished file imports one whose fetch is in progress or that is not registered. */
  ghost predicate Dangles(env: Environment, r: Registry, active: set<Path>) {
    exists p, q :: p in r.paths && p !in active && Imports(env, p, q) && (q in active || q !in r.paths)
  }

  lemma {:induction false} WalkIntoActive(env: Environment, r: Registry, active: set<Path>, ps: seq<Path>)
    requires WellBuilt(env, r, active) && Tracked(env, r)
    requires Walk(env, ps) && ps[0] in r.paths && ps[0] !in active && ps[|ps| - 1] in active
    ensures Points(env, r, active)
  {
    hide WellBuilt, Tracked, Broken;
    FinishedFile(env, r, active, ps[0]);
    assert Imports(env, ps[0], ps[1]);
    if ps[1] !in active {
      forall k | 0 <= k < |ps[1..]| - 1 ensures Imports(env, ps[1..][k], ps[1..][k + 1]) {
        assert Imports(env, ps[k + 1], ps[k + 2]);
      }
      WalkIntoActive(env, r, active, ps[1..]);
    }
  }

  /** When the imports of q have been fetched, a finished file points into `active` exactly when
      one did before or q imports its way there. */
  lemma PointsAfterFetch(env: Environment, r: Registry, active: set<Path>, q: Path)
    requires WellBuilt(env, r, active) && Tracked(env, r) && q !in active
    requires Fetch(env, r, q).1.Some?
    ensures Points(env, Fetch(env, r, q).0, active) <==> Points(env, r, active) || ReachesAny(env, q, active)
  {
    hide WellBuilt, Tracked, Broken;
    TrackedIsTrackedOrErased(env, r, active);
    FetchKeeps(env, r, q, active);
    var r' := Fetch(env, r, q).0;
    if Points(env, r', active) {
      var p, a :| p in r'.paths && p !in active && a in active && Imports(env, p, a);
      if p !in r.paths {
        ReachesThenImports(env, q, p, a);
      }
    }
    if ReachesAny(env, q, active) {
      var a :| a in active && Reaches(env, q, a);
      var ps :| WalkFromTo(env, ps, q, a);
      WalkIntoActive(env, r', active, ps);
    }
  }

  lemma TrackedDoesNotDangle(env: Environment, r: Registry, active: set<Path>)
    requires WellBuilt(env, r, active) && Tracked(env, r)
    ensures Dangles(env, r, active) <==> Points(env, r, active)
  {
    hide WellBuilt, Tracked;
    if Dangles(env, r, active) {
      var p, q :| p in r.paths && p !in active && Imports(env, p, q) && (q in active || q !in r.paths);
      FinishedFile(env, r, active, p);
    }
  }

  lemma {:induction false} FailedFetchDangles(env: Environment, r: Registry, active: set<Path>, path: Path)
    requires WellBuilt(env, r, active) && Tracked(env, r)
    requires Fetch(env, r, path).1.None?
    ensures path !in active
    ensures Dangles(env, Fetch(env, r, path).0, active) <==>
      Points(env, r, active) || Strands(env, active, path)
    decreases env.files.Keys - r.paths.Keys, 0, 0
  {
    hide WellBuilt, Tracked, Broken, Dangles, Points, Fetch, FetchRequests, StrandsFrom;
    TrackedIsTrackedOrErased(env, r, active);
    FetchOfNew(env, r, path);
    if path !in env.files || env.files[path].Malformed? {
      TrackedDoesNotDangle(env, r, active);
    } else {
      var r0 := Register(r, path);
      RegisterKeeps(env, r, path, active);
      assert Requests(env, path)[0..] == env.files[path].requests;
      FailedRequestsDangle(env, r0, active + {path}, path, 0);
      var r' := FetchRequests(env, r0, path, |r.modules|, env.files[path].requests).0;
      PointsAfterRegister(env, r, active, path);
      DanglesAfterUnregister(env, r', active, path, |r.modules|);
    }
  }

  lemma PointsAfterRegister(env: Environment, r: Registry, active: set<Path>, path: Path)
    requires WellBuilt(env, r, active) && Tracked(env, r) && path !in r.paths
    ensures Points(env, Register(r, path), active + {path}) <==> Points(env, r, active)
  {
    hide WellBuilt, Tracked;
    forall p | p in r.paths && p !in active ensures !Imports(env, p, path) {
      FinishedFile(env, r, active, p);
    }
    if Points(env, Register(r, path), active + {path}) {
      var p, q :| p in Register(r, path).paths && p !in active + {path} && q in active + {path} && Imports(env, p, q);
      assert p in r.paths && q in active;
    }
    if Points(env, r, active) {
      var p, q :| p in r.paths && p !in active && q in active && Imports(env, p, q);
      assert p != path;
      assert p in Register(r, path).paths && q in active + {path};
    }
  }

  lemma DanglesAfterUnregister(env: Environment, r: Registry, active: set<Path>, path: Path, m: ModuleId)
    ensures Dangles(env, Unregister(r, path, m), active) <==> Dangles(env, r, active + {path})
  {
    var r' := Unregister(r, path, m);
    if Dangles(env, r', active) {
      var p, q :| p in r'.paths && p !in active && Imports(env, p, q) && (q in active || q !in r'.paths);
      assert p in r.paths && p !in active + {path};
      assert q in active + {path} || q !in r.paths;
    }
    if Dangles(env, r, active + {path}) {
      var p, q :| p in r.paths && p !in active + {path} && Imports(env, p, q) && (q in active + {path} || q !in r.paths);
      assert p in r'.paths && p !in active;
    }
  }

  lemma {:induction false} FailedRequestsDangle(
      env: Environment, r: Registry, active: set<Path>, path: Path, i: nat)
    requires WellBuilt(env, r, active) && Tracked(env, r) && path in active
    requires i <= |Requests(env, path)|
    requires !FetchRequests(env, r, path, r.paths[path], Requests(env, path)[i..]).1
    ensures var requests := Requests(env, path)[i..];
      Dangles(env, FetchRequests(env, r, path, r.paths[path], requests).0, active) <==>
      Points(env, r, active) || StrandsFrom(env, active, path, requests)
    decreases env.files.Keys - r.paths.Keys, |Requests(env, path)| - i + 1
  {
    hide WellBuilt, Tracked, Broken, Dangles, Points, Fetch, FetchRequests;
    TrackedIsTrackedOrErased(env, r, active);
    var requests := Requests(env, path)[i..];
    FetchRequestsOnce(env, r, path, r.paths[path], requests);
    var s := requests[0];
    assert requests[1..] == Requests(env, path)[i + 1..];
    FetchRequestKeeps(env, r, path, active, s);
    RequestPoints(env, r, active, path, s);
    var (r1, resolved) := FetchRequest(env, r, path, r.paths[path], s);
    if resolved {
      FailedRequestsDangle(env, r1, active, path, i + 1);
    } else if Classify(env, path, s).EsModule? {
      FailedFetchDangles(env, r, active, Classify(env, path, s).path);
      FailureIsDoomed(env, r, active, Classify(env, path, s).path);
    } else {
      TrackedDoesNotDangle(env, r, active);
    }
  }

  /** What one request that resolves contributes. */
  lemma RequestPoints(env: Environment, r: Registry, active: set<Path>, path: Path, s: string)
    requires WellBuilt(env, r, active) && Tracked(env, r) && path in active
    ensures var kind := Classify(env, path, s);
      var (r1, resolved) := FetchRequest(env, r, path, r.paths[path], s);
      resolved ==>
        (if kind.EsModule? && kind.path !in active then
           !Doomed(env, active, kind.path)
           && (Points(env, r1, active) <==> Points(env, r, active) || ReachesAny(env, kind.path, active))
         else
           (Points(env, r1, active) <==> Points(env, r, active)))
  {
    hide WellBuilt, Tracked, Broken;
    TrackedIsTrackedOrErased(env, r, active);
    var kind := Classify(env, path, s);
    if kind.EsModule? {
      FetchKeeps(env, r, kind.path, active);
      var (r', m) := Fetch(env, r, kind.path);
      if m.Some? && kind.path !in active {
        PointsAfterFetch(env, r, active, kind.path);
        FinishedIsNotDoomed(env, r', active, kind.path);
      }
    }
  }

  /** A failed fetch leaves the registry closed exactly when no request that succeeded on the way
      had led back to a file still being fetched. */
  lemma FailureClosedIff(env: Environment, r: Registry, path: Path)
    requires Closed(env, r) && Fetch(env, r, path).1.None?
    ensures Closed(env, Fetch(env, r, path).0) <==> !Strands(env, {}, path)
  {
    hide WellBuilt, Tracked, TrackedOrErased, Strands, Dangles, Fetch;
    TrackedIsTrackedOrErased(env, r, {});
    FailedFetchDangles(env, r, {}, path);
    FetchKeeps(env, r, path, {});
    ClosedUnlessDangling(env, r, Fetch(env, r, path).0);
  }

  lemma ClosedUnlessDangling(env: Environment, r: Registry, r': Registry)
    requires Closed(env, r) && WellBuilt(env, r', {}) && TrackedOrErased(env, r, r')
    ensures Closed(env, r') <==> !Dangles(env, r', {})
  {
    if Closed(env, r') {
      TrackedDoesNotDangle(env, r', {});
    } else {
      var p, s :| p in r'.paths && s in Cache(r', p) && !TrackedEdge(env, r', p, s);
      assert GoodEdge(env, r', p, s, Cache(r', p)[s]);
      assert ErasedEdge(env, r, r', p, s);
      assert Imports(env, p, Classify(env, p, s).path);
    }
  }
}

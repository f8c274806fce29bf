/** The storage of the modules being loaded: its live slots hold the records of the loads in progress,
    and of the loads that loadModule has stopped before the try block. */
module CommonJsSlots {
  import opened Options
  import opened CommonJs
  import opened CommonJsCaches

  type Slots = seq<Option<RecordId>>

  /** Occupied slots are left alone. */
  ghost predicate Keeps(slots: Slots, slots': Slots) {
    |slots| <= |slots'| && forall i :: 0 <= i < |slots| && slots[i].Some? ==> slots'[i] == slots[i]
  }

  /** Every slot is as it was; slots added since are free. */
  ghost predicate Restored(slots: Slots, slots': Slots) {
    && |slots| <= |slots'|
    && (forall i :: 0 <= i < |slots| ==> slots'[i] == slots[i])
    && (forall i :: |slots| <= i < |slots'| ==> slots'[i].None?)
  }

  ghost predicate Occupied(slots: Slots, slots': Slots, i: int) {
    0 <= i < |slots'| && slots'[i].Some? && (i < |slots| ==> slots[i].None?)
  }

  ghost predicate Holds(slots: Slots, slots': Slots, r: RecordId) {
    exists i :: Occupied(slots, slots', i) && slots'[i] == Some(r)
  }

  /** The record is the one that its file is registered with, and its exports are still the initial
      ones: nothing has been made of the load. */
  ghost predicate Bare(s: State, r: RecordId) {
    && r < |s.records| && s.records[r].content.Initial?
    && s.records[r].path in s.moduleCache && s.moduleCache[s.records[r].path] == Some(r)
  }

  /** The require function takes the name for the file, as a CommonJS module or JSON. */
  ghost predicate AsksForScript(env: Environment, f: Closure, name: string, path: Path) {
    && !env.original(name) && Normalize(name) !in env.builtins
    && Find(env, Normalize(name), f.dir) == Some(path)
    && !IsESM(path, f.outerIsESM)
  }

  ghost predicate Asked(env: Environment, s: State, path: Path) {
    exists c, name :: 0 <= c < |s.closures| && AsksForScript(env, s.closures[c], name, path)
  }

  /** The record of a file that some require function asks for as a script and that cannot be read. */
  ghost predicate Abandoned(env: Environment, s: State, r: RecordId) {
    Bare(s, r) && !env.readable(s.records[r].path) && Asked(env, s, s.records[r].path)
  }

  /** From s to s' occupied slots are left alone, every slot that is newly occupied holds an abandoned
      record made since, and every record made since that has come to nothing but is still registered
      is held by exactly one of them. Earlier records are as they were, but for those of `but`. */
  ghost predicate Accounts(env: Environment, s: State, s': State, but: set<RecordId>) {
    && Keeps(s.slots, s'.slots)
    && |s.records| <= |s'.records|
    && (forall r :: 0 <= r < |s.records| && r !in but ==> s'.records[r] == s.records[r])
    && (forall r :: |s.records| <= r < |s'.records| ==> s'.records[r].path in s'.moduleCache)
    && (forall i :: Occupied(s.slots, s'.slots, i) ==>
          |s.records| <= s'.slots[i].value && Abandoned(env, s', s'.slots[i].value))
    && (forall i, j :: Occupied(s.slots, s'.slots, i) && Occupied(s.slots, s'.slots, j) && i != j ==>
          s'.slots[i] != s'.slots[j])
    && (forall r :: |s.records| <= r && Bare(s', r) ==> Holds(s.slots, s'.slots, r))
  }

  // ---------------------------------------------------------------- steps

  lemma AbandonedStays(env: Environment, s: State, s': State, r: RecordId)
    requires Abandoned(env, s, r) && Grows(s, s') && s'.records[r] == s.records[r]
    ensures Abandoned(env, s', r)
  {
    var path := s.records[r].path;
    var c, name :| 0 <= c < |s.closures| && AsksForScript(env, s.closures[c], name, path);
    assert AsksForScript(env, s'.closures[c], name, path);
  }

  lemma OccupiedThen(slots: Slots, slots1: Slots, slots2: Slots)
    requires Keeps(slots, slots1) && Keeps(slots1, slots2)
    ensures Keeps(slots, slots2)
    ensures forall i :: Occupied(slots, slots2, i) <==> Occupied(slots, slots1, i) || Occupied(slots1, slots2, i)
    ensures forall i :: Occupied(slots, slots1, i) ==> slots2[i] == slots1[i]
    ensures forall r: RecordId :: Holds(slots, slots1, r) || Holds(slots1, slots2, r) ==> Holds(slots, slots2, r)
  {
    forall r: RecordId | Holds(slots, slots1, r) ensures Holds(slots, slots2, r) {
      var i :| Occupied(slots, slots1, i) && slots1[i] == Some(r);
      assert Occupied(slots, slots2, i);
    }
    forall r: RecordId | Holds(slots1, slots2, r) ensures Holds(slots, slots2, r) {
      var i :| Occupied(slots1, slots2, i) && slots2[i] == Some(r);
      assert Occupied(slots, slots2, i);
    }
  }

  lemma AccountsThen(env: Environment, s: State, s1: State, s2: State, but: set<RecordId>)
    requires Accounts(env, s, s1, but) && Accounts(env, s1, s2, but) && Grows(s1, s2)
    requires forall r :: r in but ==> r < |s.records|
    ensures Accounts(env, s, s2, but)
  {
    hide Holds, Asked, Keeps;
    OccupiedThen(s.slots, s1.slots, s2.slots);
    forall i | Occupied(s.slots, s1.slots, i) ensures Abandoned(env, s2, s2.slots[i].value) {
      AbandonedStays(env, s1, s2, s1.slots[i].value);
    }
    forall r: RecordId | |s.records| <= r && Bare(s2, r) ensures Holds(s.slots, s2.slots, r) {
      if r < |s1.records| {
        assert Bare(s1, r);
      }
    }
  }

  lemma SameSlots(env: Environment, s: State, s': State, but: set<RecordId>)
    requires s'.slots == s.slots && |s'.records| == |s.records|
    requires forall r :: 0 <= r < |s.records| && r !in but ==> s'.records[r] == s.records[r]
    ensures Accounts(env, s, s', but)
  {
  }

  lemma Widen(env: Environment, s: State, s': State, but: set<RecordId>)
    requires Accounts(env, s, s', {})
    ensures Accounts(env, s, s', but)
  {
  }

  lemma OccupyTakesOne(slots: Slots, m: RecordId)
    ensures var sid, slots' := FirstFree(slots), Occupy(slots, m);
      && sid < |slots'| && slots'[sid] == Some(m)
      && Keeps(slots, slots')
      && |slots'| == (if sid < |slots| then |slots| else |slots| + 1)
      && (forall i :: 0 <= i < |slots| && i != sid ==> slots'[i] == slots[i])
      && (forall i :: Occupied(slots, slots', i) <==> i == sid)
  {
  }

  /** A load that loadModule stops: its record is all it leaves. */
  lemma StoppedLoadAccounts(env: Environment, s: State, c: ClosureId, name: string, path: Path)
    requires c < |s.closures| && path !in s.moduleCache && !env.readable(path)
    requires AsksForScript(env, s.closures[c], name, path)
    ensures Accounts(env, s, Enter(s, c, Normalize(name), path), {})
  {
    var s' := Enter(s, c, Normalize(name), path);
    OccupyTakesOne(s.slots, |s.records|);
    assert AsksForScript(env, s'.closures[c], name, path);
    assert Occupied(s.slots, s'.slots, FirstFree(s.slots));
  }

  /** A load that the try block ends: its slot is free again, and its record is filled or no longer
      registered. */
  lemma EndedLoadAccounts(env: Environment, s: State, s1: State, s2: State, s': State, m: RecordId, path: Path)
    requires m == |s.records| && |s1.records| == m + 1 && s1.records[..m] == s.records
    requires s1.slots == Occupy(s.slots, m)
    requires path in s1.moduleCache && s1.moduleCache[path] == Some(m)
    requires Accounts(env, s1, s2, {m}) && Grows(s1, s2) && s2.records[m].path == path
    requires s'.records == s2.records && s'.slots == Release(s2.slots, FirstFree(s.slots))
    requires |s'.closures| == |s2.closures| && forall d :: 0 <= d < |s2.closures| ==>
      s'.closures[d].dir == s2.closures[d].dir && s'.closures[d].outerIsESM == s2.closures[d].outerIsESM
    requires (s'.moduleCache == s2.moduleCache && !s2.records[m].content.Initial?)
      || s'.moduleCache == s2.moduleCache[path := None]
    ensures Accounts(env, s, s', {})
  {
    hide Asked, Abandoned, Holds, Keeps, Grows;
    FreedSlots(s.slots, s2.slots, m);
    GrowsKeepsEntry(s1, s2, path);
    assert !Bare(s', m);
    forall i | Occupied(s1.slots, s2.slots, i) ensures Abandoned(env, s', s2.slots[i].value) {
      UnlessEnded(env, s2, s', m, path, s2.slots[i].value);
    }
    forall r: RecordId | |s.records| <= r && Bare(s', r) ensures Holds(s.slots, s'.slots, r) {
      assert Bare(s2, r);
    }
  }

  lemma GrowsKeepsEntry(s: State, s': State, path: Path)
    requires Grows(s, s') && path in s.moduleCache
    ensures path in s'.moduleCache && s'.moduleCache[path] == s.moduleCache[path]
  {
  }

  /** The slot of a load is taken and given back. */
  lemma FreedSlots(slots: Slots, slots2: Slots, m: RecordId)
    requires Keeps(Occupy(slots, m), slots2)
    ensures var slots1, slots' := Occupy(slots, m), Release(slots2, FirstFree(slots));
      && Keeps(slots, slots')
      && (forall i :: Occupied(slots, slots', i) <==> Occupied(slots1, slots2, i))
      && (forall i :: Occupied(slots, slots', i) ==> slots'[i] == slots2[i])
      && (forall r: RecordId :: Holds(slots1, slots2, r) ==> Holds(slots, slots', r))
  {
    var sid := FirstFree(slots);
    OccupyTakesOne(slots, m);
    assert slots2[sid] == Some(m);
    var slots1, slots' := Occupy(slots, m), Release(slots2, sid);
    forall i ensures Occupied(slots, slots', i) <==> Occupied(slots1, slots2, i) {
    }
    forall r: RecordId | Holds(slots1, slots2, r) ensures Holds(slots, slots', r) {
      var i :| Occupied(slots1, slots2, i) && slots2[i] == Some(r);
      assert Occupied(slots, slots', i);
    }
  }

  lemma UnlessEnded(env: Environment, s: State, s': State, m: RecordId, path: Path, r: RecordId)
    requires Abandoned(env, s, r) && r != m && path in s.moduleCache && s.moduleCache[path] == Some(m)
    requires s'.records == s.records
    requires |s'.closures| == |s.closures| && forall d :: 0 <= d < |s.closures| ==>
      s'.closures[d].dir == s.closures[d].dir && s'.closures[d].outerIsESM == s.closures[d].outerIsESM
    requires s'.moduleCache == s.moduleCache || s'.moduleCache == s.moduleCache[path := None]
    ensures Abandoned(env, s', r)
  {
    var c, name :| 0 <= c < |s.closures| && AsksForScript(env, s.closures[c], name, s.records[r].path);
    assert AsksForScript(env, s'.closures[c], name, s.records[r].path);
  }

  // ---------------------------------------------------------------- require

  lemma {:induction false} RequireAccounts(env: Environment, s: State, c: ClosureId, moduleName: string)
    requires c < |s.closures|
    ensures Accounts(env, s, Require(env, s, c, moduleName).0, {})
    decreases env.files - s.moduleCache.Keys, 1, 0
  {
    hide Accounts;
    var name := Normalize(moduleName);
    SameSlots(env, s, s, {});
    if name !in s.closures[c].cache && !env.original(moduleName) && name !in env.builtins {
      var path := Find(env, name, s.closures[c].dir);
      if path.Some? {
        if path.value in s.moduleCache {
          SameSlots(env, s, SetLocal(s, c, name, s.moduleCache[path.value]), {});
        } else {
          LoadAccounts(env, s, c, moduleName, path.value);
        }
      }
    }
  }

  lemma EnterSlots(s: State, c: ClosureId, name: string, path: Path)
    requires c < |s.closures|
    ensures var m, s1 := |s.records|, Enter(s, c, name, path);
      && |s1.records| == m + 1 && s1.records[..m] == s.records && s1.records[m].path == path
      && s1.slots == Occupy(s.slots, m) && |s1.closures| == |s.closures|
      && path in s1.moduleCache && s1.moduleCache[path] == Some(m)
      && s1.moduleCache.Keys == s.moduleCache.Keys + {path}
      && FirstFree(s.slots) < |s1.slots| && s1.slots[FirstFree(s.slots)] == Some(m)
  {
    OccupyTakesOne(s.slots, |s.records|);
  }

  lemma {:induction false} LoadAccounts(env: Environment, s: State, c: ClosureId, moduleName: string, path: Path)
    requires c < |s.closures| && path !in s.moduleCache
    requires !env.original(moduleName) && Normalize(moduleName) !in env.builtins
    requires Find(env, Normalize(moduleName), s.closures[c].dir) == Some(path)
    ensures Accounts(env, s, Load(env, s, c, Normalize(moduleName), path).0, {})
    decreases env.files - s.moduleCache.Keys, 0, 0
  {
    hide Accounts, Enter, Execute, Occupy, FirstFree;
    var m, sid := |s.records|, FirstFree(s.slots);
    var s1 := Enter(s, c, Normalize(moduleName), path);
    var isESM := IsESM(path, s.closures[c].outerIsESM);
    EnterSlots(s, c, Normalize(moduleName), path);
    assert path in env.files - s.moduleCache.Keys;
    if !isESM && !env.readable(path) {
      StoppedLoadAccounts(env, s, c, moduleName, path);
    } else {
      ExecuteAccounts(env, s1, m, sid, path, isESM);
      var (s2, _) := Execute(env, s1, m, sid, path, isESM);
      EndedLoadAccounts(env, s, s1, s2, Load(env, s, c, Normalize(moduleName), path).0, m, path);
    }
  }

  /** The record of a load that completes is filled. */
  lemma {:induction false} ExecuteAccounts(
      env: Environment, s: State, m: RecordId, sid: nat, path: Path, isESM: bool)
    requires m < |s.records| && s.closures != [] && sid < |s.slots| && s.slots[sid] == Some(m)
    ensures var (s', loaded) := Execute(env, s, m, sid, path, isESM);
      Accounts(env, s, s', {m}) && (loaded ==> !s'.records[m].content.Initial?)
    decreases env.files - s.moduleCache.Keys, 4, 0
  {
    hide Accounts;
    var s' := Execute(env, s, m, sid, path, isESM).0;
    if Paths.EndsWith(path, ".json") {
      var json := env.json(path);
      SameSlots(env, s, s, {m});
      SameSlots(env, s, SetContent(s, m, OfJson), {m});
      if Paths.EndsWith(path, "package.json") && !isESM && json.Parsed? && json.url.Some? {
        var s1 := GenRequire(s, DirectoryOf(path), json.isModule);
        SameSlots(env, s, s1, {m});
        RequireAccounts(env, s1, |s.closures|, json.url.value);
        var (s2, _) := Require(env, s1, |s.closures|, json.url.value);
        Widen(env, s1, s2, {m});
        AccountsThen(env, s, s1, s2, {m});
        SameSlots(env, s2, s', {m});
        AccountsThen(env, s, s2, s', {m});
      }
    } else {
      ExecuteModuleAccounts(env, s, m, sid, path, isESM);
    }
  }

  lemma {:induction false} ExecuteModuleAccounts(
      env: Environment, s: State, m: RecordId, sid: nat, path: Path, isESM: bool)
    requires m < |s.records| && s.closures != [] && sid < |s.slots| && s.slots[sid] == Some(m)
    ensures var (s', loaded) := ExecuteModule(env, s, m, sid, path, isESM);
      Accounts(env, s, s', {m}) && (loaded ==> !s'.records[m].content.Initial?)
    decreases env.files - s.moduleCache.Keys, 3, 0
  {
    hide Accounts;
    var s' := ExecuteModule(env, s, m, sid, path, isESM).0;
    var filled := SetContent(s, m, OfScript);
    var s1 := if isESM then filled else GenRequire(filled, DirectoryOf(path), false);
    var c := if isESM then 0 else |s.closures|;
    var requests := if isESM then env.moduleBody(path).requests else env.script(path).requests;
    SameSlots(env, s, s1, {m});
    RunScriptAccounts(env, s1, c, requests);
    var s2 := RunScript(env, s1, c, requests).0;
    RecordStays(env, s1, s2, m);
    Widen(env, s1, s2, {m});
    AccountsThen(env, s, s1, s2, {m});
    SameSlots(env, s2, s', {m});
    AccountsThen(env, s, s2, s', {m});
  }

  lemma RecordStays(env: Environment, s: State, s': State, m: RecordId)
    requires Accounts(env, s, s', {}) && m < |s.records|
    ensures m < |s'.records| && s'.records[m] == s.records[m]
  {
  }

  lemma {:induction false} RunScriptAccounts(env: Environment, s: State, c: ClosureId, requests: seq<Request>)
    requires c < |s.closures|
    ensures Accounts(env, s, RunScript(env, s, c, requests).0, {})
    decreases env.files - s.moduleCache.Keys, 2, |requests|
  {
    hide Accounts;
    SameSlots(env, s, s, {});
    if requests != [] {
      RequireAccounts(env, s, c, requests[0].name);
      var (s1, outcome) := Require(env, s, c, requests[0].name);
      if !(outcome.Threw? && !requests[0].caught) {
        RunScriptAccounts(env, s1, c, requests[1..]);
        AccountsThen(env, s, s1, RunScript(env, s, c, requests).0, {});
      }
    }
  }

  lemma {:induction false} RunAccounts(env: Environment, s: State, calls: seq<Call>)
    ensures Accounts(env, s, Run(env, s, calls), {})
    decreases |calls|
  {
    hide Accounts;
    SameSlots(env, s, s, {});
    if calls != [] {
      if calls[0].closure < |s.closures| {
        RequireAccounts(env, s, calls[0].closure, calls[0].name);
        var s1 := Require(env, s, calls[0].closure, calls[0].name).0;
        RunAccounts(env, s1, calls[1..]);
        AccountsThen(env, s, s1, Run(env, s, calls), {});
      } else {
        RunAccounts(env, s, calls[1..]);
      }
    }
  }

  // ---------------------------------------------------------------- what is left in the storage

  lemma HeldIsNotRestored(slots: Slots, slots': Slots, r: RecordId)
    requires Holds(slots, slots', r)
    ensures !Restored(slots, slots')
  {
    var i :| Occupied(slots, slots', i) && slots'[i] == Some(r);
  }

  /** The storage is as it was exactly when no load begun since has been abandoned. */
  lemma RestoredUnlessAbandoned(env: Environment, s: State, s': State)
    requires Accounts(env, s, s', {})
    ensures Restored(s.slots, s'.slots) <==> forall r: RecordId :: |s.records| <= r ==> !Abandoned(env, s', r)
  {
    hide Asked;
    if Restored(s.slots, s'.slots) {
      forall r: RecordId | |s.records| <= r ensures !Abandoned(env, s', r) {
        if Holds(s.slots, s'.slots, r) {
          HeldIsNotRestored(s.slots, s'.slots, r);
        }
      }
    } else {
      var i :| 0 <= i < |s'.slots| && s'.slots[i] != if i < |s.slots| then s.slots[i] else None;
      assert Occupied(s.slots, s'.slots, i);
    }
  }

  /** So for one call; StorageIsFreeIff turns this into a condition on what runs come to. */
  lemma CallRestoresIff(env: Environment, s: State, c: ClosureId, moduleName: string)
    requires c < |s.closures|
    ensures var s' := Require(env, s, c, moduleName).0;
      Restored(s.slots, s'.slots) <==> forall r: RecordId :: |s.records| <= r ==> !Abandoned(env, s', r)
  {
    RequireAccounts(env, s, c, moduleName);
    RestoredUnlessAbandoned(env, s, Require(env, s, c, moduleName).0);
  }

  ghost predicate AllReadable(env: Environment) {
    forall p :: p in env.files ==> env.readable(p)
  }

  lemma RestoredIfReadable(env: Environment, s: State, s': State)
    requires Accounts(env, s, s', {}) && AllReadable(env)
    ensures Restored(s.slots, s'.slots)
  {
    hide Accounts;
    RestoredUnlessAbandoned(env, s, s');
    forall r: RecordId | |s.records| <= r ensures !Abandoned(env, s', r) {
    }
  }

  /** Over a whole run the live slots hold exactly the abandoned records, each once. */
  lemma RunHoldsTheAbandoned(env: Environment, calls: seq<Call>)
    ensures var s := Run(env, START, calls);
      && (forall r: RecordId :: Abandoned(env, s, r) <==> Some(r) in s.slots)
      && (forall i, j :: 0 <= i < j < |s.slots| && s.slots[i].Some? ==> s.slots[i] != s.slots[j])
  {
    var s := Run(env, START, calls);
    RunAccounts(env, START, calls);
    hide Asked;
    forall r: RecordId ensures Abandoned(env, s, r) <==> Some(r) in s.slots {
      if Abandoned(env, s, r) {
        var i :| Occupied(START.slots, s.slots, i) && s.slots[i] == Some(r);
      }
      if Some(r) in s.slots {
        var i :| 0 <= i < |s.slots| && s.slots[i] == Some(r);
        assert Occupied(START.slots, s.slots, i);
      }
    }
    forall i, j | 0 <= i < j < |s.slots| && s.slots[i].Some? ensures s.slots[i] != s.slots[j] {
      assert Occupied(START.slots, s.slots, i);
      assert s.slots[j].Some? ==> Occupied(START.slots, s.slots, j);
    }
  }

  ghost predicate AllFree(slots: Slots) {
    forall i :: 0 <= i < |slots| ==> slots[i].None?
  }

  /** A load of the file has come to an end: its record has been filled, or the rollback has taken it
      out. */
  ghost predicate LoadEnded(s: State, path: Path) {
    path in s.moduleCache && (s.moduleCache[path].Some? ==> !Bare(s, s.moduleCache[path].value))
  }

  /** The require function asks for a file as a script that cannot be read, and no load of it, as an
      ES module, has come to an end before. */
  ghost predicate Traps(env: Environment, s: State, c: ClosureId, name: string, path: Path) {
    && c < |s.closures| && AsksForScript(env, s.closures[c], name, path)
    && !env.readable(path) && !LoadEnded(s, path)
  }

  lemma {:induction false} RunThen(env: Environment, s: State, calls: seq<Call>, call: Call)
    ensures Run(env, s, calls + [call]) == Run(env, Run(env, s, calls), [call])
    decreases |calls|
  {
    hide Require;
    if calls == [] {
      assert calls + [call] == [call];
    } else {
      var s1 := if calls[0].closure < |s.closures| then Require(env, s, calls[0].closure, calls[0].name).0 else s;
      RunThen(env, s1, calls[1..], call);
      assert (calls + [call])[1..] == calls[1..] + [call];
    }
  }

  lemma TrapLeavesSlot(env: Environment, calls: seq<Call>, c: ClosureId, name: string, path: Path)
    returns (more: seq<Call>)
    requires Traps(env, Run(env, START, calls), c, name, path)
    ensures !AllFree(Run(env, START, more).slots)
  {
    hide Coherent, Run, Require, Enter;
    var s := Run(env, START, calls);
    StartIsCoherent(env);
    RunCoherent(env, START, calls);
    if path in s.moduleCache {
      more := calls;
      RunHoldsTheAbandoned(env, calls);
      EntryIsOfItsFile(env, s, path);
      assert Abandoned(env, s, s.moduleCache[path].value);
    } else {
      more := calls + [Call(c, name)];
      UncachedIsLoaded(env, s, c, name, path);
      OccupyTakesOne(s.slots, |s.records|);
      RunThen(env, START, calls, Call(c, name));
      OneCall(env, s, c, name);
    }
  }

  lemma OneCall(env: Environment, s: State, c: ClosureId, name: string)
    requires c < |s.closures|
    ensures Run(env, s, [Call(c, name)]) == Require(env, s, c, name).0
  {
    assert [Call(c, name)][1..] == [];
  }

  lemma EntryIsOfItsFile(env: Environment, s: State, path: Path)
    requires Coherent(env, s) && path in s.moduleCache && s.moduleCache[path].Some?
    ensures s.moduleCache[path].value < |s.records| && s.records[s.moduleCache[path].value].path == path
  {
  }

  lemma CachedNameIsOfFile(env: Environment, s: State, c: ClosureId, name: string)
    requires Coherent(env, s) && c < |s.closures|
    ensures name in s.closures[c].cache ==>
      var path := Find(env, name, s.closures[c].dir); path.Some? && path.value in s.moduleCache
  {
    if name in s.closures[c].cache {
      assert Agrees(env, s, c, name);
    }
  }

  lemma UncachedIsLoaded(env: Environment, s: State, c: ClosureId, name: string, path: Path)
    requires Coherent(env, s) && Traps(env, s, c, name, path) && path !in s.moduleCache
    ensures Require(env, s, c, name) == (Enter(s, c, Normalize(name), path), Threw)
    ensures Enter(s, c, Normalize(name), path).slots == Occupy(s.slots, |s.records|)
  {
    CachedNameIsOfFile(env, s, c, Normalize(name));
  }

  /** The storage is empty after every run exactly when no run comes to a require function that asks
      for an unreadable file as a script, unless a load of that file has come to an end before. */
  lemma StorageIsFreeIff(env: Environment)
    ensures (forall calls :: AllFree(Run(env, START, calls).slots)) <==>
      (forall calls, c, name, path :: !Traps(env, Run(env, START, calls), c, name, path))
  {
    hide Run;
    if !forall calls, c, name, path :: !Traps(env, Run(env, START, calls), c, name, path) {
      var calls, c, name, path :| Traps(env, Run(env, START, calls), c, name, path);
      var more := TrapLeavesSlot(env, calls, c, name, path);
    }
    if !forall calls :: AllFree(Run(env, START, calls).slots) {
      var calls :| !AllFree(Run(env, START, calls).slots);
      var s := Run(env, START, calls);
      var i :| 0 <= i < |s.slots| && s.slots[i].Some?;
      var r := s.slots[i].value;
      RunHoldsTheAbandoned(env, calls);
      assert Some(r) in s.slots;
      var path := s.records[r].path;
      var c, name :| 0 <= c < |s.closures| && AsksForScript(env, s.closures[c], name, path);
      assert Traps(env, s, c, name, path);
    }
  }

  // ---------------------------------------------------------------- the stack of loads

  /** The loads in progress, outermost first, hold the first slots in this order, and all others are
      free. */
  ghost predicate IsStack(slots: Slots, loading: seq<RecordId>) {
    && |loading| <= |slots|
    && (forall i :: 0 <= i < |loading| ==> slots[i] == Some(loading[i]))
    && (forall i :: |loading| <= i < |slots| ==> slots[i].None?)
  }

  lemma {:induction false} FirstFreeIsDepth(slots: Slots, loading: seq<RecordId>)
    requires IsStack(slots, loading)
    ensures FirstFree(slots) == |loading|
    decreases |loading|
  {
    if loading != [] {
      assert slots[0] == Some(loading[0]);
      FirstFreeIsDepth(slots[1..], loading[1..]);
    }
  }

  /** With readable files the storage is a stack: a load at depth d takes slot d for its own record, it
      is there again after any number of calls that the file's body makes, whatever they load, and when
      the load is over the storage is the stack that it was. */
  lemma LoadsAreStacked(
      env: Environment, s: State, c: ClosureId, moduleName: string, path: Path, loading: seq<RecordId>)
    requires AllReadable(env) && IsStack(s.slots, loading) && Loads(env, s, c, moduleName, path)
    ensures FirstFree(s.slots) == |loading|
    ensures IsStack(Enter(s, c, Normalize(moduleName), path).slots, loading + [|s.records|])
    ensures forall t: State, d: ClosureId, requests ::
      IsStack(t.slots, loading + [|s.records|]) && d < |t.closures| ==>
        IsStack(RunScript(env, t, d, requests).0.slots, loading + [|s.records|])
    ensures IsStack(Require(env, s, c, moduleName).0.slots, loading)
  {
    OccupyTakesOne(s.slots, |s.records|);
    FirstFreeIsDepth(s.slots, loading);
    RequireAccounts(env, s, c, moduleName);
    hide Accounts;
    RestoredIfReadable(env, s, Require(env, s, c, moduleName).0);
    forall t: State, d: ClosureId, requests | IsStack(t.slots, loading + [|s.records|]) && d < |t.closures|
      ensures IsStack(RunScript(env, t, d, requests).0.slots, loading + [|s.records|])
    {
      RunScriptAccounts(env, t, d, requests);
      RestoredIfReadable(env, t, RunScript(env, t, d, requests).0);
    }
  }

  /** A file that cannot be read leaves more behind than a failure inside the try block: its slot, and
      a record with its initial, empty exports, which the next require of the file returns. */
  lemma UnreadableFileStaysRegistered(env: Environment, s: State, c: ClosureId, moduleName: string, path: Path)
    requires Loads(env, s, c, moduleName, path)
    requires !env.readable(path) && !IsESM(path, s.closures[c].outerIsESM)
    ensures var (s', o) := Require(env, s, c, moduleName);
      && o == Threw && !Restored(s.slots, s'.slots) && |s'.records| == |s.records| + 1
      && Require(env, s', c, moduleName) == (s', Got(Exports(|s.records|)))
      && s'.records[|s.records|] == Record(path, Initial)
  {
    OccupyTakesOne(s.slots, |s.records|);
  }
}

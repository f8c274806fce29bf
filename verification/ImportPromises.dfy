/** Every import promise is settled or has one owner that will settle it, over whole runs. */
module ImportPromises {
  import opened Options
  import opened Scheduling
  import opened SchedulerLedger
  import opened ImportProtocol
  import opened ImportOwnership

  // ---------------------------------------------------------------- one move

  lemma SettleOnce(promises: seq<PromiseState>, p: Promise, verdict: Verdict)
    ensures forall q :: 0 <= q < |promises| && (promises[q].Settled? || q != p) ==>
      Settle(promises, p, verdict)[q] == promises[q]
    ensures p < |promises| ==> Settle(promises, p, verdict)[p].Settled?
  {
  }

  /** The first settlement is final. */
  lemma StepSettlesOnce(h: Host, move: Move)
    requires Allowed(h, move)
    ensures |h.promises| <= |Take(h, move).promises|
    ensures forall q :: 0 <= q < |h.promises| && h.promises[q].Settled? ==>
      Take(h, move).promises[q] == h.promises[q]
  {
  }

  lemma NewHasNoOwner(h: Host)
    requires Kept(h)
    ensures Owners(h, |h.promises|) == 0
  {
    var p := |h.promises|;
    assert p !in h.handlers;
    assert p !in FramePromises(h.frames);
    assert p !in h.dynamicImports.Values;
  }

  lemma FailsStaysKept(h: Host)
    requires Kept(h) && Allowed(h, ImportFails)
    ensures Kept(Take(h, ImportFails))
  {
    var h' := Take(h, ImportFails);
    assert forall q :: Owners(h', q) == Owners(h, q);
  }

  lemma FoundStaysKept(h: Host, path: string, at: int)
    requires Kept(h) && Allowed(h, ImportFound(path, at))
    ensures Kept(Take(h, ImportFound(path, at)))
  {
    var p := |h.promises|;
    NewPromiseStaysKept(h);
    if path in h.dynamicImports {
      assert h.dynamicImports[path] in h.dynamicImports.Values;
      GiveStaysKept(NewPromise(h), h.dynamicImports[path]);
    } else {
      var h1 := NewPromise(h).(dynamicImports := h.dynamicImports[path := p]);
      NewHasNoOwner(h);
      EnterTableStaysKept(NewPromise(h), path, p);
      assert h1.dynamicImports[path] == p && p in h1.dynamicImports.Values;
      ScheduleStaysKept(h1, QueueImport(path, at));
      GiveStaysKept(Schedule(h1, QueueImport(path, at)), p);
    }
  }

  lemma NewPromiseStaysKept(h: Host)
    requires Kept(h)
    ensures Kept(NewPromise(h))
  {
    assert forall q :: Owners(NewPromise(h), q) == Owners(h, q);
  }

  lemma GiveStaysKept(h: Host, p: Promise)
    requires Kept(h) && p < |h.promises| && (h.promises[p].Settled? || Owners(h, p) >= 1)
    ensures Kept(Give(h, p))
  {
    assert forall q :: Owners(Give(h, p), q) == Owners(h, q);
  }

  lemma EnterTableStaysKept(h: Host, path: string, p: Promise)
    requires Kept(h) && path !in h.dynamicImports && Open(h, p) && Owners(h, p) == 0
    ensures Kept(h.(dynamicImports := h.dynamicImports[path := p]))
  {
    hide Owners;
    EnterTableOwners(h, path, p);
    var h' := h.(dynamicImports := h.dynamicImports[path := p]);
    assert forall q :: Owners(h, q) <= 1;
    assert forall q :: Owners(h', q) == if q == p then 1 else Owners(h, q);
    forall q ensures Owners(h', q) <= 1 {
      assert Owners(h, q) <= 1;
    }
  }

  lemma EnterTableOwners(h: Host, path: string, p: Promise)
    requires path !in h.dynamicImports && Owners(h, p) == 0
    ensures forall q :: Owners(h.(dynamicImports := h.dynamicImports[path := p]), q) == if q == p then 1 else Owners(h, q)
    ensures forall other :: other in h.dynamicImports ==> h.dynamicImports[other] != p
  {
    hide FramePromises;
    PutIn(h.dynamicImports, path, p);
    forall other | other in h.dynamicImports ensures h.dynamicImports[other] != p {
      assert h.dynamicImports[other] in h.dynamicImports.Values;
    }
  }

  lemma PushFrame(frames: seq<Frame>, frame: Frame)
    ensures var own := if frame.OtherTask? then [] else [frame.promise];
      && FramePromises([frame] + frames) == own + FramePromises(frames)
      && multiset(FramePromises([frame] + frames)) == multiset(own) + multiset(FramePromises(frames))
  {
    assert ([frame] + frames)[1..] == frames;
  }

  /** A call begins that will come back to a promise which has no owner yet. */
  lemma PushStaysKept(h: Host, p: Promise)
    requires Kept(h) && Open(h, p) && Owners(h, p) == 0
    ensures Kept(h.(frames := [CustomImport(p)] + h.frames))
  {
    var h' := h.(frames := [CustomImport(p)] + h.frames);
    PushFrame(h.frames, CustomImport(p));
    hide FramePromises;
    forall q ensures Owners(h', q) == if q == p then 1 else Owners(h, q) {
    }
  }

  lemma CustomBeginStaysKept(h: Host)
    requires Kept(h) && Allowed(h, CustomBegin)
    ensures Kept(Take(h, CustomBegin))
  {
    hide Kept;
    NewPromiseStaysKept(h);
    NewHasNoOwner(h);
    PushStaysKept(NewPromise(h), |h.promises|);
  }

  /** The innermost call leaves its promise to a reaction. */
  function HandOver(h: Host): Host
    requires h.frames != [] && !h.frames[0].OtherTask?
  {
    h.(frames := h.frames[1..], handlers := h.handlers + [h.frames[0].promise])
  }

  lemma HandOverStaysKept(h: Host)
    requires Kept(h) && h.frames != [] && !h.frames[0].OtherTask?
    ensures Kept(HandOver(h))
  {
    var h' := HandOver(h);
    var p := h.frames[0].promise;
    assert FramePromises(h.frames) == [p] + FramePromises(h'.frames);
    assert multiset(h'.handlers) == multiset(h.handlers) + multiset{p};
    assert forall q :: Owners(h', q) == Owners(h, q);
    assert p in FramePromises(h.frames);
    assert forall q :: q in FramePromises(h'.frames) ==> q in FramePromises(h.frames);
    assert forall q :: Open(h', q) <==> Open(h, q);
  }

  /** Settling a promise that a reaction holds. */
  lemma SettleStaysKept(h: Host, p: Promise, verdict: Verdict)
    requires Kept(h) && p in h.handlers
    ensures Kept(h.(promises := Settle(h.promises, p, verdict)))
  {
    var h' := h.(promises := Settle(h.promises, p, verdict));
    SettleOnce(h.promises, p, verdict);
    assert multiset(h.handlers)[p] >= 1 && Owners(h, p) <= 1;
    assert p !in h.dynamicImports.Values && p !in FramePromises(h.frames);
    forall path | path in h.dynamicImports ensures h.dynamicImports[path] != p {
      assert h.dynamicImports[path] in h.dynamicImports.Values;
    }
    assert forall q :: Owners(h', q) == Owners(h, q);
  }

  function Drop(h: Host, handler: nat): Host
    requires handler < |h.handlers|
  {
    h.(handlers := h.handlers[..handler] + h.handlers[handler + 1..])
  }

  /** A reaction whose promise is settled is no longer needed. */
  lemma DropStaysKept(h: Host, handler: nat)
    requires Kept(h) && handler < |h.handlers| && h.handlers[handler] < |h.promises|
    requires h.promises[h.handlers[handler]].Settled?
    ensures Kept(Drop(h, handler))
  {
    var h' := Drop(h, handler);
    var p := h.handlers[handler];
    assert h.handlers == h.handlers[..handler] + [p] + h.handlers[handler + 1..];
    assert multiset(h.handlers) == multiset(h'.handlers) + multiset{p};
    assert forall q :: q in h'.handlers ==> q in h.handlers;
    assert forall q :: q != p ==> Owners(h', q) == Owners(h, q);
    assert Owners(h', p) <= Owners(h, p);
  }

  lemma HandlersExist(h: Host)
    requires Kept(h)
    ensures forall i :: 0 <= i < |h.handlers| ==> h.handlers[i] < |h.promises|
  {
    forall i | 0 <= i < |h.handlers| ensures h.handlers[i] < |h.promises| {
      assert h.handlers[i] in h.handlers;
    }
  }

  lemma ReactionStaysKept(h: Host, handler: nat, verdict: Verdict)
    requires Kept(h) && handler < |h.handlers|
    ensures Kept(Drop(h.(promises := Settle(h.promises, h.handlers[handler], verdict)), handler))
  {
    hide Kept;
    HandlersExist(h);
    SettleStaysKept(h, h.handlers[handler], verdict);
    DropStaysKept(h.(promises := Settle(h.promises, h.handlers[handler], verdict)), handler);
  }

  /** The innermost call settles its promise and ends. */
  lemma SettleAndPopStaysKept(h: Host, verdict: Verdict)
    requires Kept(h) && h.frames != [] && !h.frames[0].OtherTask?
    ensures h.frames[0].promise < |h.promises|
    ensures Kept(h.(promises := Settle(h.promises, h.frames[0].promise, verdict), frames := h.frames[1..]))
  {
    hide Kept;
    var h1 := HandOver(h);
    HandOverStaysKept(h);
    HandlersExist(h1);
    ReactionStaysKept(h1, |h.handlers|, verdict);
    assert h1.handlers[..|h.handlers|] + h1.handlers[|h.handlers| + 1..] == h.handlers;
  }

  lemma CustomEndStaysKept(h: Host, verdict: Verdict)
    requires Kept(h) && Allowed(h, CustomEnd(verdict))
    ensures Kept(Take(h, CustomEnd(verdict)))
  {
    var p := h.frames[0].promise;
    SettleAndPopStaysKept(h, verdict);
    var h1 := h.(promises := Settle(h.promises, p, verdict), frames := h.frames[1..]);
    GiveStaysKept(h1, p);
  }

  lemma BeginStaysKept(h: Host)
    requires Kept(h) && Allowed(h, TaskBegin)
    ensures Kept(Take(h, TaskBegin))
  {
    hide Kept, Next, Record;
    var action := h.queue.tasks[0].action;
    ScheduleStaysKept(h, Start);
    if action.Import? && action.path in h.dynamicImports {
      TakeOutStaysKept(Schedule(h, Start), action.path);
    } else {
      IdleFrameStaysKept(Schedule(h, Start));
    }
  }

  lemma IdleFrameStaysKept(h: Host)
    requires Kept(h)
    ensures Kept(h.(frames := [OtherTask] + h.frames))
  {
    PushFrame(h.frames, OtherTask);
    hide FramePromises;
    assert forall q :: Owners(h.(frames := [OtherTask] + h.frames), q) == Owners(h, q);
  }

  /** A promise passes from the table to the task that loads its file. */
  lemma TakeOutStaysKept(h: Host, path: string)
    requires Kept(h) && path in h.dynamicImports
    ensures Kept(h.(dynamicImports := h.dynamicImports - {path},
                    frames := [ImportTask(h.dynamicImports[path])] + h.frames))
  {
    hide Owners;
    PushFrame(h.frames, ImportTask(h.dynamicImports[path]));
    TakeOutOwners(h, path);
  }

  lemma TakeOutOwners(h: Host, path: string)
    requires path in h.dynamicImports
    requires forall k, k' :: k in h.dynamicImports && k' in h.dynamicImports && k != k' ==>
      h.dynamicImports[k] != h.dynamicImports[k']
    ensures var h' := h.(dynamicImports := h.dynamicImports - {path},
                         frames := [ImportTask(h.dynamicImports[path])] + h.frames);
      forall q :: Owners(h', q) == Owners(h, q)
  {
    PushFrame(h.frames, ImportTask(h.dynamicImports[path]));
    hide FramePromises;
    TakeOut(h.dynamicImports, path);
  }

  lemma TakeOut(table: map<string, Promise>, path: string)
    requires path in table
    requires forall k, k' :: k in table && k' in table && k != k' ==> table[k] != table[k']
    ensures table[path] in table.Values
    ensures (table - {path}).Values == table.Values - {table[path]}
  {
    forall q | q in table.Values && q != table[path] ensures q in (table - {path}).Values {
      var other :| other in table && table[other] == q;
      assert (table - {path})[other] == q;
    }
  }

  lemma PutIn(table: map<string, Promise>, path: string, p: Promise)
    requires path !in table
    ensures table[path := p].Values == table.Values + {p}
  {
    var table' := table[path := p];
    assert table'[path] == p;
    forall q | q in table.Values ensures q in table'.Values {
      var other :| other in table && table[other] == q;
      assert table'[other] == q;
    }
  }

  lemma EndStaysKept(h: Host, outcome: Outcome, at: int)
    requires Kept(h) && Allowed(h, TaskEnd(outcome, at))
    ensures Kept(Take(h, TaskEnd(outcome, at)))
  {
    hide Kept;
    var h1 := End(h, outcome);
    assert Kept(h1) by {
      if h.frames[0].OtherTask? {
        PopStaysKept(h);
      } else {
        var p := h.frames[0].promise;
        match outcome
        case LoadFailed => SettleAndPopStaysKept(h, Rejected);
        case Evaluated(verdict, caught) => SettleAndPopStaysKept(h, verdict);
        case StillEvaluating(caught) =>
          HandOverStaysKept(h);
          assert p in HandOver(h).handlers;
          SettleStaysKept(HandOver(h), p, Rejected);
      }
    }
    ScheduleStaysKept(h1, Finish(at));
  }

  lemma PopStaysKept(h: Host)
    requires Kept(h) && h.frames != [] && h.frames[0].OtherTask?
    ensures Kept(h.(frames := h.frames[1..]))
  {
    assert FramePromises(h.frames) == FramePromises(h.frames[1..]);
    assert forall q :: Owners(h.(frames := h.frames[1..]), q) == Owners(h, q);
  }

  lemma ScheduleStaysKept(h: Host, step: Step)
    requires Kept(h) && Enabled(h.queue, step)
    ensures Kept(Schedule(h, step))
  {
    assert forall q :: Owners(Schedule(h, step), q) == Owners(h, q);
  }

  lemma StepStaysKept(h: Host, move: Move)
    requires Kept(h) && Allowed(h, move)
    ensures Kept(Take(h, move))
  {
    hide Kept;
    match move
    case ImportFails => FailsStaysKept(h);
    case CustomBegin => CustomBeginStaysKept(h);
    case CustomEnd(verdict) => CustomEndStaysKept(h, verdict);
    case ImportFound(path, at) => FoundStaysKept(h, path, at);
    case TaskBegin => BeginStaysKept(h);
    case TaskEnd(outcome, at) => EndStaysKept(h, outcome, at);
    case Reaction(handler, verdict) => ReactionStaysKept(h, handler, verdict);
    case UserCall(call) => ScheduleStaysKept(h, call);
    case Enter(at) => ScheduleStaysKept(h, Step.Enter(at));
    case Exit => ScheduleStaysKept(h, Step.Exit);
  }

  /** What the host keeps from call to call: no promise is lost, and until the ids have run out the
      scheduler is sound. */
  ghost predicate Healthy(h: Host) {
    Consistent(h.queue) && Kept(h) && (h.ledger.issued <= ID_LIMIT ==> Sound(h))
  }

  lemma StepStaysHealthy(h: Host, move: Move)
    requires Healthy(h) && Allowed(h, move)
    ensures Healthy(Take(h, move))
  {
    hide Kept, Consistent, Represents;
    StepStaysKept(h, move);
    QueueFollows(h, move);
    if QueueStep(h, move).Some? {
      var step := QueueStep(h, move).value;
      StepStaysConsistent(h.queue, step);
      StepCounts(h.ledger, step, Subject(h.queue, step));
    }
    if Take(h, move).ledger.issued <= ID_LIMIT {
      hide Take;
      StepStaysSound(h, move);
    }
  }

  lemma StepCounts(l: Ledger, step: Step, id: nat)
    ensures Record(l, step, id).issued == l.issued + if step.Add? then 1 else 0
  {
  }

  // ---------------------------------------------------------------- whole runs

  /** No move of the run clears a timer by the number of a queued import task. */
  ghost predicate NeverCancels(h: Host, moves: seq<Move>)
    requires CanTake(h, moves)
    decreases |moves|
  {
    moves != [] ==> !CancelsImport(h, moves[0]) && NeverCancels(Take(h, moves[0]), moves[1..])
  }

  lemma {:induction false} RunStaysKept(h: Host, moves: seq<Move>)
    requires Kept(h) && Sound(h) && CanTake(h, moves)
    requires TakeAll(h, moves).ledger.issued <= ID_LIMIT
    ensures Kept(TakeAll(h, moves)) && Sound(TakeAll(h, moves))
    ensures |h.promises| <= |TakeAll(h, moves).promises|
    ensures forall q :: 0 <= q < |h.promises| && h.promises[q].Settled? ==>
      TakeAll(h, moves).promises[q] == h.promises[q]
    decreases |moves|
  {
    hide Kept, Sound;
    if moves != [] {
      IdsOnlyGrow(Take(h, moves[0]), moves[1..]);
      StepStaysKept(h, moves[0]);
      StepStaysSound(h, moves[0]);
      StepSettlesOnce(h, moves[0]);
      hide Take;
      RunStaysKept(Take(h, moves[0]), moves[1..]);
    }
  }

  /** Ids are handed out one after the other and never taken back. */
  lemma {:induction false} IdsOnlyGrow(h: Host, moves: seq<Move>)
    requires CanTake(h, moves)
    ensures h.ledger.issued <= TakeAll(h, moves).ledger.issued
    decreases |moves|
  {
    if moves != [] {
      StepIdsOnlyGrow(h, moves[0]);
      hide Take;
      IdsOnlyGrow(Take(h, moves[0]), moves[1..]);
    }
  }

  lemma StepIdsOnlyGrow(h: Host, move: Move)
    requires Allowed(h, move)
    ensures h.ledger.issued <= Take(h, move).ledger.issued
  {
  }

  /** An import under way whose task has gone. */
  ghost predicate Stuck(h: Host, path: string) {
    path in h.dynamicImports && !Awaited(h, path)
  }

  lemma CancellingGetsStuck(h: Host, move: Move) returns (path: string)
    requires Sound(h) && Owned(h) && Allowed(h, move) && CancelsImport(h, move)
    ensures Stuck(Take(h, move), path)
  {
    StepOwnedIff(h, move);
    var h' := Take(h, move);
    var gone, come := StepExchanges(h.queue, h.ledger, move.call);
    assert gone.value.action.Import?;
    path := gone.value.action.path;
    assert QueuedImport(gone.value, path) && Awaited(h, path);
    forall u | u in h'.queue.tasks ensures !QueuedImport(u, path) {
    }
  }

  /** Once stuck, an import stays stuck, with the same promise. */
  lemma StepStaysStuck(h: Host, move: Move, path: string)
    requires Sound(h) && Stuck(h, path) && Allowed(h, move)
    requires Take(h, move).ledger.issued <= ID_LIMIT
    ensures Stuck(Take(h, move), path)
    ensures Take(h, move).dynamicImports[path] == h.dynamicImports[path]
  {
    FirstIsNotExecuting(h.queue);
    if move.TaskBegin? {
      assert !QueuedImport(h.queue.tasks[0], path);
    }
    OneMove(h, move);
    assert CanTake(Take(h, move), []);
    ImportsShare(h, [move], path);
    QueueFollows(h, move);
    match QueueStep(h, move)
    case None =>
    case Some(step) =>
      assert step.Add? ==> step.action != Import(path);
      hide Take, QueueStep;
      NothingQueuedFor(h, step, path);
  }

  lemma NothingQueuedFor(h: Host, step: Step, path: string)
    requires Sound(h) && !Awaited(h, path) && Enabled(h.queue, step) && !step.Clear?
    requires step.Add? ==> h.ledger.issued < ID_LIMIT && step.action != Import(path)
    ensures forall t :: t in Next(h.queue, step).tasks ==> !QueuedImport(t, path)
  {
    var gone, come := StepExchanges(h.queue, h.ledger, step);
    hide Next, Represents, Consistent;
    assert gone.Some? ==> !QueuedImport(gone.value, path);
    assert come.Some? ==> !QueuedImport(come.value, path);
  }

  /** A cancelled import task blocks its path for good: whatever happens, every later import of the
      path is given the same promise, and that promise is never settled. */
  lemma {:induction false} StuckForEver(h: Host, moves: seq<Move>, path: string)
    requires Kept(h) && Sound(h) && Stuck(h, path)
    requires CanTake(h, moves) && TakeAll(h, moves).ledger.issued <= ID_LIMIT
    ensures var h' := TakeAll(h, moves);
      Stuck(h', path) && h'.dynamicImports[path] == h.dynamicImports[path]
      && Open(h', h.dynamicImports[path]) && Given(h', path) == h.dynamicImports[path]
    decreases |moves|
  {
    if moves != [] {
      hide Kept, Sound, Stuck;
      IdsOnlyGrow(Take(h, moves[0]), moves[1..]);
      StepStaysKept(h, moves[0]);
      StepStaysSound(h, moves[0]);
      StepStaysStuck(h, moves[0], path);
      hide Take;
      StuckForEver(Take(h, moves[0]), moves[1..], path);
    }
  }

  /** A run that clears a queued import task ends with an import stuck. */
  lemma {:induction false} CancelledRunIsStuck(h: Host, moves: seq<Move>) returns (path: string)
    requires Kept(h) && Sound(h) && Owned(h) && CanTake(h, moves) && !NeverCancels(h, moves)
    requires TakeAll(h, moves).ledger.issued <= ID_LIMIT
    ensures Stuck(TakeAll(h, moves), path)
    decreases |moves|
  {
    hide Kept, Sound, Owned, Stuck, CancelsImport;
    IdsOnlyGrow(Take(h, moves[0]), moves[1..]);
    StepStaysKept(h, moves[0]);
    StepStaysSound(h, moves[0]);
    StepOwnedIff(h, moves[0]);
    hide Take;
    if CancelsImport(h, moves[0]) {
      path := CancellingGetsStuck(h, moves[0]);
      StuckForEver(Take(h, moves[0]), moves[1..], path);
    } else {
      path := CancelledRunIsStuck(Take(h, moves[0]), moves[1..]);
    }
  }

  lemma {:induction false} UncancelledRunIsOwned(h: Host, moves: seq<Move>)
    requires Sound(h) && Owned(h) && CanTake(h, moves) && NeverCancels(h, moves)
    requires TakeAll(h, moves).ledger.issued <= ID_LIMIT
    ensures Owned(TakeAll(h, moves))
    decreases |moves|
  {
    hide Sound, Owned, CancelsImport;
    if moves != [] {
      IdsOnlyGrow(Take(h, moves[0]), moves[1..]);
      StepStaysSound(h, moves[0]);
      StepOwnedIff(h, moves[0]);
      hide Take;
      UncancelledRunIsOwned(Take(h, moves[0]), moves[1..]);
    }
  }

  /** Over any run, the table and the queue agree at the end exactly when no move has cleared a
      timer by the number of a queued import task. */
  lemma RunOwnedIff(h: Host, moves: seq<Move>)
    requires Kept(h) && Sound(h) && Owned(h) && CanTake(h, moves)
    requires TakeAll(h, moves).ledger.issued <= ID_LIMIT
    ensures Owned(TakeAll(h, moves)) <==> NeverCancels(h, moves)
  {
    hide Kept, Sound, Owned, Stuck, NeverCancels;
    if NeverCancels(h, moves) {
      UncancelledRunIsOwned(h, moves);
    } else {
      var path := CancelledRunIsStuck(h, moves);
      StuckIsNotOwned(TakeAll(h, moves), path);
    }
  }

  lemma OneMove(h: Host, move: Move)
    requires Allowed(h, move)
    ensures CanTake(h, [move]) && TakeAll(h, [move]) == Take(h, move)
    ensures NeverCancels(h, [move]) <==> !CancelsImport(h, move)
  {
    hide Take, Allowed, CancelsImport;
    assert [move][0] == move && [move][1..] == [];
    assert NeverCancels(Take(h, move), []);
    assert CanTake(Take(h, move), []);
    assert TakeAll(Take(h, move), []) == Take(h, move);
  }

  lemma TwoMoves(h: Host, first: Move, second: Move)
    requires Allowed(h, first) && Allowed(Take(h, first), second)
    ensures CanTake(h, [first, second]) && TakeAll(h, [first, second]) == Take(Take(h, first), second)
    ensures NeverCancels(h, [first, second]) ==> !CancelsImport(Take(h, first), second)
  {
    OneMove(Take(h, first), second);
    hide Take, Allowed, CancelsImport;
    assert [first, second][1..] == [second];
  }

  /** Nothing stops a script from clearing a timer whose number it was never given: importing a file
      and then calling clearTimeout(0) is such a run. */
  lemma ClearTimeoutStrandsImport(path: string, at: int)
    ensures var moves := [ImportFound(path, at), UserCall(Remove(0))];
      CanTake(START, moves) && !NeverCancels(START, moves)
      && Stuck(TakeAll(START, moves), path) && 0 in TakeAll(START, moves).returned
  {
    var first, second := ImportFound(path, at), UserCall(Remove(0));
    var h := Take(START, first);
    assert h.queue.tasks == [Task(0, false, false, false, at, 0, Import(path))];
    assert h.queue.tasks[0] in h.queue.tasks;
    assert CancelsImport(h, second);
    assert Take(h, second).queue.tasks == [];
    TwoMoves(START, first, second);
  }

  lemma StuckIsNotOwned(h: Host, path: string)
    requires Stuck(h, path)
    ensures !Owned(h)
  {
  }

  lemma StartIsKept()
    ensures Kept(START) && Sound(START) && Owned(START)
  {
    InitiallyBlank();
    assert forall p :: Owners(START, p) == 0;
  }

  /** What the table holds has been given to JavaScript. */
  ghost predicate TableIsKnown(h: Host) {
    forall path :: path in h.dynamicImports ==> h.dynamicImports[path] in h.returned
  }

  lemma StepTableIsKnown(h: Host, move: Move)
    requires TableIsKnown(h) && Allowed(h, move)
    ensures TableIsKnown(Take(h, move))
  {
  }

  lemma {:induction false} RunTableIsKnown(h: Host, moves: seq<Move>)
    requires TableIsKnown(h) && CanTake(h, moves)
    ensures TableIsKnown(TakeAll(h, moves))
    decreases |moves|
  {
    hide TableIsKnown;
    if moves != [] {
      StepTableIsKnown(h, moves[0]);
      hide Take;
      RunTableIsKnown(Take(h, moves[0]), moves[1..]);
    }
  }

  /** The promise of an import whose task is queued. */
  ghost predicate AwaitsTask(h: Host, p: Promise) {
    exists path :: path in h.dynamicImports && h.dynamicImports[path] == p && Awaited(h, path)
  }

  /** Settled, or with one owner that will settle it: a call in progress, a pending reaction or a
      queued import task. Between calls there is no call in progress. */
  ghost predicate TakenCareOf(h: Host, p: Promise) {
    && p < |h.promises|
    && (h.promises[p].Settled?
        || (Owners(h, p) == 1 && (p in FramePromises(h.frames) || p in h.handlers || AwaitsTask(h, p))))
  }

  ghost predicate NoneDropped(h: Host) {
    forall p :: p in h.returned ==> TakenCareOf(h, p)
  }

  lemma OwnedDropsNone(h: Host)
    requires Kept(h) && Owned(h)
    ensures NoneDropped(h)
  {
    forall p | p in h.returned ensures TakenCareOf(h, p) {
      if h.promises[p].Unsettled? && p in h.dynamicImports.Values {
        var path :| path in h.dynamicImports && h.dynamicImports[path] == p;
        assert Awaited(h, path);
      }
    }
  }

  lemma StuckIsDropped(h: Host, path: string)
    requires Kept(h) && TableIsKnown(h) && Stuck(h, path)
    ensures !NoneDropped(h)
  {
    var p := h.dynamicImports[path];
    assert p in h.dynamicImports.Values && Owners(h, p) <= 1;
    assert p !in h.handlers && p !in FramePromises(h.frames);
    assert !TakenCareOf(h, p);
  }

  /** No import promise is dropped, exactly: while no more than 2^32 ids have been handed out, every
      promise that an import() has given to JavaScript is settled or has one owner that will settle it,
      if and only if no timer has been cleared by the number of a queued import task. */
  lemma NoPromiseIsDropped(moves: seq<Move>)
    requires CanTake(START, moves) && TakeAll(START, moves).ledger.issued <= ID_LIMIT
    ensures NoneDropped(TakeAll(START, moves)) <==> NeverCancels(START, moves)
  {
    hide Kept, Sound, Owned, Stuck, NoneDropped, TableIsKnown, NeverCancels;
    StartIsKept();
    RunStaysKept(START, moves);
    if NeverCancels(START, moves) {
      UncancelledRunIsOwned(START, moves);
      OwnedDropsNone(TakeAll(START, moves));
    } else {
      assert TableIsKnown(START) by { StartTableIsKnown(); }
      RunTableIsKnown(START, moves);
      var path := CancelledRunIsStuck(START, moves);
      StuckIsDropped(TakeAll(START, moves), path);
    }
  }

  lemma StartTableIsKnown()
    ensures TableIsKnown(START)
  {
  }

  // ---------------------------------------------------------------- beyond 2^32 ids

  /** n timers, numbered from `id` on, each queued for the time `at` and cleared again. */
  function Timers(id: nat, n: nat, at: int): seq<Move>
    decreases n
  {
    if n == 0 then []
    else [UserCall(Add(at, 0, Callback(0), false)), UserCall(Remove(id))] + Timers(id + 1, n - 1, at)
  }

  lemma TimerComesAndGoes(h: Host, t: Task, id: nat, at: int)
    requires t.id < id < ID_LIMIT && t.executeTime < at && t.action.Callback?
    requires h.queue == State([t], id - 1, Idle)
    ensures var first, second := UserCall(Add(at, 0, Callback(0), false)), UserCall(Remove(id));
      && Allowed(h, first) && !CancelsImport(h, first)
      && Allowed(Take(h, first), second) && !CancelsImport(Take(h, first), second)
      && var h' := Take(Take(h, first), second);
         h'.queue == State([t], id, Idle) && h' == h.(queue := h'.queue, ledger := h'.ledger)
  {
    var u := Task(id, false, false, false, at, 0, Callback(0));
    assert IssuedId(h.queue) == id;
    assert Insert([t], u) == [t, u] by { assert Insert([t][1..], u) == [u]; }
    assert RemoveTask([t, u], id) == [t] by {
      assert FindId([t, u][1..], id) == Some(0);
      assert Erase([t, u], 1) == [t];
    }
  }

  lemma {:induction false} TimersOnlyCount(h: Host, t: Task, id: nat, n: nat, at: int)
    requires t.id < id && id + n <= ID_LIMIT && t.executeTime < at && t.action.Callback?
    requires h.queue == State([t], id - 1, Idle)
    ensures var moves := Timers(id, n, at);
      && CanTake(h, moves) && NeverCancels(h, moves)
      && var h' := TakeAll(h, moves);
         h'.queue == State([t], id + n - 1, Idle) && h' == h.(queue := h'.queue, ledger := h'.ledger)
    decreases n
  {
    if n > 0 {
      var moves := Timers(id, n, at);
      TimerComesAndGoes(h, t, id, at);
      var h1 := Take(h, moves[0]);
      TimersOnlyCount(Take(h1, moves[1]), t, id + 1, n - 1, at);
      hide Take, Allowed, CancelsImport;
      assert moves[1..][1..] == Timers(id + 1, n - 1, at);
      assert moves[1..][0] == moves[1];
    }
  }

  lemma {:induction false} ThenMove(h: Host, moves: seq<Move>, last: Move)
    requires CanTake(h, moves) && Allowed(TakeAll(h, moves), last)
    ensures CanTake(h, moves + [last]) && TakeAll(h, moves + [last]) == Take(TakeAll(h, moves), last)
    ensures NeverCancels(h, moves) && !CancelsImport(TakeAll(h, moves), last) ==> NeverCancels(h, moves + [last])
    decreases |moves|
  {
    hide Take, Allowed, CancelsImport;
    if moves == [] {
      assert moves + [last] == [last];
      OneMove(h, last);
    } else {
      ThenMove(Take(h, moves[0]), moves[1..], last);
      assert (moves + [last])[1..] == moves[1..] + [last];
    }
  }

  /** The ids have wrapped to that of the task t, and an import is queued for the same time. */
  lemma ImportIsLost(h: Host, t: Task, path: string)
    requires h.queue == State([t], ID_LIMIT - 1, Idle) && t.id == 0 && t.action.Callback?
    requires h == START.(queue := h.queue, ledger := h.ledger)
    ensures var h' := Take(h, ImportFound(path, t.executeTime));
      Stuck(h', path) && Open(h', h'.dynamicImports[path]) && !NoneDropped(h')
  {
    var h' := Take(h, ImportFound(path, t.executeTime));
    assert Insert([t], Task(0, false, false, false, t.executeTime, 0, Import(path))) == [t];
    assert h'.queue.tasks == [t];
    assert h'.returned == {0} && h'.promises == [Unsettled] && h'.dynamicImports == map[path := 0];
    assert !AwaitsTask(h', 0);
    assert !TakenCareOf(h', 0);
  }

  /** Why the bound is there: once the ids have wrapped, the task of an import can be lost by its own
      insertion. A run that clears only timers of its own then ends with a promise in JavaScript's hands
      that nothing will settle. */
  lemma WrappedIdDropsImport(path: string, at: int) returns (moves: seq<Move>)
    ensures CanTake(START, moves) && NeverCancels(START, moves)
    ensures var h := TakeAll(START, moves);
      Stuck(h, path) && Open(h, h.dynamicImports[path]) && !NoneDropped(h)
  {
    var t := Task(0, false, false, false, at, 0, Callback(0));
    var first, last := UserCall(Add(at, 0, Callback(0), false)), ImportFound(path, at);
    var h1 := Take(START, first);
    assert h1.queue == State([t], 0, Idle);
    var n: nat :| n == ID_LIMIT - 1;
    var timers := Timers(1, n, at + 1);
    TimersOnlyCount(h1, t, 1, n, at + 1);
    var h2 := TakeAll(h1, timers);
    ThenMove(h1, timers, last);
    moves := [first] + (timers + [last]);
    assert moves[1..] == timers + [last];
    assert !CancelsImport(START, first) && !CancelsImport(h2, last);
    hide Take, CancelsImport, NoneDropped, Stuck;
    ImportIsLost(h2, t, path);
  }

  // ---------------------------------------------------------------- sharing

  /** The move begins the task that loads the path. */
  predicate TakesUp(h: Host, move: Move, path: string) {
    move.TaskBegin? && h.queue.tasks != [] && h.queue.tasks[0].action == Import(path)
  }

  predicate NeverTakesUp(h: Host, moves: seq<Move>, path: string)
    requires CanTake(h, moves)
    decreases |moves|
  {
    moves != [] ==> !TakesUp(h, moves[0], path) && NeverTakesUp(Take(h, moves[0]), moves[1..], path)
  }

  /** Imports of one path share one promise until its task begins; after that, even while the module
      is being evaluated, the next import of the path is given a new one. */
  lemma {:induction false} ImportsShare(h: Host, moves: seq<Move>, path: string)
    requires path in h.dynamicImports && CanTake(h, moves) && NeverTakesUp(h, moves, path)
    ensures var h' := TakeAll(h, moves);
      path in h'.dynamicImports && Given(h', path) == Given(h, path)
    decreases |moves|
  {
    if moves != [] {
      ImportsShare(Take(h, moves[0]), moves[1..], path);
    }
  }

  lemma TakenUpIsNew(h: Host, path: string)
    requires Kept(h) && Sound(h) && Owned(h) && Allowed(h, TaskBegin) && TakesUp(h, TaskBegin, path)
    ensures path in h.dynamicImports
    ensures var h' := Take(h, TaskBegin);
      path !in h'.dynamicImports && Given(h', path) != h.dynamicImports[path]
      && h'.frames[0] == ImportTask(h.dynamicImports[path])
  {
    FirstIsNotExecuting(h.queue);
    assert QueuedImport(h.queue.tasks[0], path) && Awaited(h, path);
  }
}

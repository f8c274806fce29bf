/** How import promises are settled: what each move reports about a promise, and what it changes. */
module ImportVerdicts {
  import opened Options
  import opened Scheduling
  import opened SchedulerLedger
  import opened ImportProtocol
  import opened ImportOwnership
  import opened ImportPromises

  /** The verdict that a move reports on a promise: of the evaluation that its innermost call or its
      reaction was waiting for, or the failure to get so far. */
  function Reported(h: Host, move: Move, p: Promise): Option<Verdict> {
    match move
    case CustomEnd(verdict) =>
      if h.frames != [] && h.frames[0] == CustomImport(p) then Some(verdict) else None
    case TaskEnd(outcome, _) =>
      if h.frames == [] || h.frames[0] != ImportTask(p) then None
      else
        (match outcome
         case LoadFailed => Some(Rejected)
         case Evaluated(verdict, _) => Some(verdict)
         case StillEvaluating(caught) => if caught then Some(Rejected) else None)
    case Reaction(handler, verdict) =>
      if handler < |h.handlers| && h.handlers[handler] == p then Some(verdict) else None
    case _ => None
  }

  function StateOf(verdict: Option<Verdict>): PromiseState {
    match verdict
    case None => Unsettled
    case Some(v) => Settled(v)
  }

  /** An open promise is settled with the verdict that the move reports on it, and with no other. */
  lemma MoveSettles(h: Host, move: Move, p: Promise)
    requires Allowed(h, move) && Open(h, p)
    ensures p < |Take(h, move).promises| && Take(h, move).promises[p] == StateOf(Reported(h, move, p))
  {
  }

  /** A promise made by a move is open, but for the import of what is not found, which is rejected. */
  lemma NewPromises(h: Host, move: Move)
    requires Allowed(h, move)
    ensures var made := Take(h, move).promises;
      && |h.promises| <= |made|
      && forall q :: |h.promises| <= q < |made| ==>
           made[q] == (if move.ImportFails? then Settled(Rejected) else Unsettled)
    ensures move.ImportFails? || move.ImportFound? || move.CustomBegin? ==>
      |Take(h, move).promises| == |h.promises| + 1
  {
  }

  /** The first verdict reported on a promise in a run. */
  function FirstReport(h: Host, moves: seq<Move>, p: Promise): Option<Verdict>
    requires CanTake(h, moves)
    decreases |moves|
  {
    if moves == [] then None
    else if Reported(h, moves[0], p).Some? then Reported(h, moves[0], p)
    else FirstReport(Take(h, moves[0]), moves[1..], p)
  }

  /** At the end of any run a promise that was open has the first verdict reported on it, whatever comes
      after, and is open if there was none: it is fulfilled exactly when that verdict was a fulfilled
      evaluation. */
  lemma {:induction false} RunSettles(h: Host, moves: seq<Move>, p: Promise)
    requires CanTake(h, moves) && Open(h, p)
    ensures p < |TakeAll(h, moves).promises|
    ensures TakeAll(h, moves).promises[p] == StateOf(FirstReport(h, moves, p))
    decreases |moves|
  {
    if moves != [] {
      MoveSettles(h, moves[0], p);
      hide Take, Reported;
      if Reported(h, moves[0], p).Some? {
        SettledStays(Take(h, moves[0]), moves[1..], p);
      } else {
        RunSettles(Take(h, moves[0]), moves[1..], p);
      }
    }
  }

  lemma {:induction false} SettledStays(h: Host, moves: seq<Move>, p: Promise)
    requires CanTake(h, moves) && p < |h.promises| && h.promises[p].Settled?
    ensures p < |TakeAll(h, moves).promises| && TakeAll(h, moves).promises[p] == h.promises[p]
    decreases |moves|
  {
    if moves != [] {
      StepSettlesOnce(h, moves[0]);
      hide Take;
      SettledStays(Take(h, moves[0]), moves[1..], p);
    }
  }

  // ---------------------------------------------------------------- who holds a promise

  /** A file that the search finds: an import of it that is under way is shared, and otherwise a task
      is queued for it, at once and for one time. Either way JavaScript has the promise. */
  lemma FoundIsQueued(h: Host, path: string, at: int)
    requires Sound(h) && Allowed(h, ImportFound(path, at))
    requires Take(h, ImportFound(path, at)).ledger.issued <= ID_LIMIT
    ensures var h' := Take(h, ImportFound(path, at));
      && path in h'.dynamicImports && h'.returned == h.returned + {h'.dynamicImports[path]}
      && h'.frames == h.frames && h'.handlers == h.handlers
      && (path in h.dynamicImports ==> h'.dynamicImports == h.dynamicImports && h'.queue == h.queue)
      && (path !in h.dynamicImports ==>
            && h'.dynamicImports == h.dynamicImports[path := |h.promises|]
            && exists t :: t in h'.queue.tasks && QueuedImport(t, path) && t.executeTime == at && !t.repeat)
  {
    if path !in h.dynamicImports {
      AddRepresents(h.queue, h.ledger, QueueImport(path, at));
      assert QueuedImport(NewTask(h.queue, QueueImport(path, at)), path);
    }
  }

  /** A call that is answered at once or after the evaluation of a foreign module. */
  lemma OtherImportsAnswered(h: Host, verdict: Verdict)
    ensures Allowed(h, ImportFails) ==>
      Take(h, ImportFails) ==
        h.(promises := h.promises + [Settled(Rejected)], returned := h.returned + {|h.promises|})
    ensures Allowed(h, CustomBegin) ==>
      Take(h, CustomBegin) ==
        h.(promises := h.promises + [Unsettled], frames := [CustomImport(|h.promises|)] + h.frames)
    ensures Allowed(h, CustomEnd(verdict)) ==>
      var h' := Take(h, CustomEnd(verdict));
      && h'.frames == h.frames[1..] && h'.returned == h.returned + {h.frames[0].promise}
      && h'.queue == h.queue && h'.dynamicImports == h.dynamicImports && h'.handlers == h.handlers
  {
  }

  /** The task that begins is the first of the queue; if it is for an import that is under way, the
      import leaves the table and its promise is held by the call. */
  lemma TaskTakesUp(h: Host)
    requires Allowed(h, TaskBegin)
    ensures var t, h' := h.queue.tasks[0], Take(h, TaskBegin);
      && h'.promises == h.promises && h'.handlers == h.handlers && h'.returned == h.returned
      && (forall path :: t.action == Import(path) && path in h.dynamicImports ==>
            && h'.frames == [ImportTask(h.dynamicImports[path])] + h.frames
            && h'.dynamicImports == h.dynamicImports - {path})
      && ((t.action.Import? ==> t.action.path !in h.dynamicImports) ==>
            h'.frames == [OtherTask] + h.frames && h'.dynamicImports == h.dynamicImports)
  {
  }

  /** When the task ends its call is over, and only a promise whose module is still being evaluated goes
      to a reaction. */
  lemma TaskLetsGo(h: Host, outcome: Outcome, at: int)
    requires Allowed(h, TaskEnd(outcome, at))
    ensures var h' := Take(h, TaskEnd(outcome, at));
      && h'.frames == h.frames[1..] && h'.dynamicImports == h.dynamicImports && h'.returned == h.returned
      && h'.handlers ==
           (if h.frames[0].ImportTask? && outcome.StillEvaluating? then h.handlers + [h.frames[0].promise]
            else h.handlers)
  {
  }

  /** A reaction happens once. */
  lemma ReactionIsGone(h: Host, handler: nat, verdict: Verdict)
    requires handler < |h.handlers|
    ensures var h' := Take(h, Reaction(handler, verdict));
      && multiset(h'.handlers) == multiset(h.handlers) - multiset{h.handlers[handler]}
      && h'.frames == h.frames && h'.dynamicImports == h.dynamicImports && h'.returned == h.returned
      && h'.queue == h.queue
  {
    assert h.handlers == h.handlers[..handler] + [h.handlers[handler]] + h.handlers[handler + 1..];
  }

  /** While a module is evaluated, by a task or by the embedder's resolver, JavaScript may import and
      use timers; so it may between calls. */
  lemma EvaluationMayImport(h: Host, path: string, at: int, call: Step)
    requires Consistent(h.queue) && !h.queue.phase.Running? && IsCall(call)
    requires call.Add? ==> call.action.Callback?
    ensures Allowed(h, ImportFails) && Allowed(h, ImportFound(path, at)) && Allowed(h, CustomBegin)
    ensures Allowed(h, UserCall(call))
    ensures h.frames != [] && h.frames[0].CustomImport? ==> Allowed(h, CustomEnd(Fulfilled))
    ensures h.frames != [] && !h.frames[0].CustomImport? && h.queue.phase.Acting? ==> Allowed(h, TaskEnd(LoadFailed, at))
    ensures h.frames == [] && h.queue.phase.Idle? ==> Allowed(h, Move.Enter(at))
  {
  }

  /** While the scheduler runs, its first task begins if it is due, and otherwise the run ends. */
  lemma RunGoesOn(h: Host)
    requires h.frames == [] && h.queue.phase.Running?
    ensures Allowed(h, TaskBegin) <==> Due(h.queue)
    ensures Allowed(h, Move.Exit) <==> !Due(h.queue)
  {
  }

  /** Timers leave imports alone but for the queue. */
  lemma TimersOnlyQueue(h: Host, call: Step, at: int)
    ensures Allowed(h, UserCall(call)) ==>
      var h' := Take(h, UserCall(call));
      h'.queue == Next(h.queue, call) && h' == h.(queue := h'.queue, ledger := h'.ledger)
    ensures Allowed(h, Move.Enter(at)) ==>
      var h' := Take(h, Move.Enter(at));
      h'.queue == h.queue.(phase := Running(at)) && h' == h.(queue := h'.queue, ledger := h'.ledger)
    ensures Allowed(h, Move.Exit) ==>
      var h' := Take(h, Move.Exit);
      h'.queue == h.queue.(phase := Idle) && h' == h.(queue := h'.queue, ledger := h'.ledger)
  {
  }
}

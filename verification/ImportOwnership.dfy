/** No import promise is dropped: what every step of the dynamic import machine keeps. */
module ImportOwnership {
  import opened Options
  import opened Scheduling
  import opened SchedulerLedger
  import opened ImportProtocol

  // ---------------------------------------------------------------- the queue

  /** The step that a move makes the scheduler take. */
  function QueueStep(h: Host, move: Move): Option<Step>
    requires Allowed(h, move)
  {
    match move
    case ImportFound(path, at) => if path in h.dynamicImports then None else Some(QueueImport(path, at))
    case TaskBegin => Some(Start)
    case TaskEnd(_, at) => Some(Finish(at))
    case UserCall(call) => Some(call)
    case Enter(at) => Some(Step.Enter(at))
    case Exit => Some(Step.Exit)
    case _ => None
  }

  lemma QueueFollows(h: Host, move: Move)
    requires Allowed(h, move)
    ensures match QueueStep(h, move)
      case None => Take(h, move).queue == h.queue && Take(h, move).ledger == h.ledger
      case Some(step) =>
        && Enabled(h.queue, step)
        && Take(h, move).queue == Next(h.queue, step)
        && Take(h, move).ledger == Record(h.ledger, step, Subject(h.queue, step))
  {
  }

  /** What a step does to the set of tasks: it takes out at most one task, `gone`, and puts at most
      one, `come`, in. */
  ghost predicate Exchanges(ts: seq<Task>, ts': seq<Task>, gone: Option<Task>, come: Option<Task>) {
    && (gone.Some? ==> gone.value in ts)
    && forall u :: u in ts' <==> (u in ts && gone != Some(u)) || come == Some(u)
  }

  lemma StepExchanges(s: State, l: Ledger, step: Step) returns (gone: Option<Task>, come: Option<Task>)
    requires Consistent(s) && Represents(s, l) && Enabled(s, step) && !step.Clear?
    requires step.Add? ==> l.issued < ID_LIMIT
    ensures Exchanges(s.tasks, Next(s, step).tasks, gone, come)
    ensures match step
      case Add(_, _, _, _) => gone == None && come == Some(NewTask(s, step))
      case Remove(id) =>
        || (gone == come == None && forall t :: t in s.tasks ==> t.id != id)
        || (gone.Some? && gone.value.id == id
            && come == if gone.value.exec then Some(gone.value.(kill := true)) else None)
      case Reschedule(_, _, _) =>
        gone == come == None || (gone.Some? && come.Some? && !gone.value.exec && !come.value.exec
                                 && come.value.action == gone.value.action
                                 && come.value.repeat == gone.value.repeat)
      case Start => gone == Some(s.tasks[0]) && come == Some(s.tasks[0].(exec := true))
      case Finish(_) =>
        gone.Some? && gone.value.exec
        && (come.Some? ==> gone.value.repeat && come.value.repeat && come.value.action == gone.value.action)
      case _ => gone == come == None
  {
    hide Represents, Insert, Erase, FindId, FindExecuting;
    gone, come := None, None;
    match step {
      case Add(_, _, _, _) =>
        come := Some(NewTask(s, step));
        AddRepresents(s, l, step);
        InsertKeeps(s.tasks, NewTask(s, step));
      case Remove(id) =>
        RemoveKeeps(s.tasks, id);
        if FindId(s.tasks, id).Some? {
          var t := s.tasks[FindId(s.tasks, id).value];
          gone := Some(t);
          come := if t.exec then Some(t.(kill := true)) else None;
        }
      case Reschedule(id, at, newDelay) =>
        if FindId(s.tasks, id).Some? && !s.tasks[FindId(s.tasks, id).value].exec {
          var i := FindId(s.tasks, id).value;
          gone := Some(s.tasks[i]);
          come := Some(s.tasks[i].(delay := newDelay, executeTime := at + newDelay));
          Moved(s, l, i, come.value);
        }
      case Start =>
        gone, come := Some(s.tasks[0]), Some(s.tasks[0].(exec := true));
        MarkKeeps(s.tasks, 0, come.value);
      case Finish(at) =>
        var i := FindExecuting(s.tasks).value;
        var t := s.tasks[i];
        gone := Some(t);
        EraseKeeps(s.tasks, i);
        if t.repeat && !t.kill {
          come := Some(t.(exec := false, executeTime := at + t.delay));
          Moved(s, l, i, come.value);
        }
      case _ =>
    }
  }

  lemma StepStaysSound(h: Host, move: Move)
    requires Sound(h) && Allowed(h, move)
    requires Take(h, move).ledger.issued <= ID_LIMIT
    ensures Sound(Take(h, move))
  {
    hide Represents, Consistent;
    QueueFollows(h, move);
    match QueueStep(h, move)
    case None =>
    case Some(step) =>
      StepStaysConsistent(h.queue, step);
      StepRepresents(h.queue, h.ledger, step);
      var gone, come := StepExchanges(h.queue, h.ledger, step);
  }

  // ---------------------------------------------------------------- the table and the queue

  /** The table and the queue agree after a change of one entry of each. */
  lemma StillOwned(h: Host, h': Host, gone: Option<Task>, come: Option<Task>)
    requires Owned(h) && Exchanges(h.queue.tasks, h'.queue.tasks, gone, come)
    requires come.Some? && !come.value.exec && come.value.action.Import? ==>
      || (gone.Some? && QueuedImport(gone.value, come.value.action.path))
      || come.value.action.path !in h.dynamicImports
    requires forall path :: path in h'.dynamicImports <==>
      || (path in h.dynamicImports && !(gone.Some? && QueuedImport(gone.value, path)))
      || (come.Some? && QueuedImport(come.value, path))
    ensures Owned(h')
  {
    var ts, ts' := h.queue.tasks, h'.queue.tasks;
    forall path ensures path in h'.dynamicImports <==> Awaited(h', path) {
      if path in h'.dynamicImports {
        if come.Some? && QueuedImport(come.value, path) {
          assert come.value in ts';
        } else {
          assert Awaited(h, path);
          var t :| t in ts && QueuedImport(t, path);
          assert t in ts';
        }
      }
      if Awaited(h', path) {
        var t :| t in ts' && QueuedImport(t, path);
        if t in ts { assert Awaited(h, path); }
      }
    }
    forall t, u, path | t in ts' && u in ts' && QueuedImport(t, path) && QueuedImport(u, path) ensures t == u {
      if t in ts { assert Awaited(h, path); }
      if u in ts { assert Awaited(h, path); }
    }
  }

  lemma FirstIsNotExecuting(s: State)
    requires Consistent(s)
    ensures Due(s) ==> !s.tasks[0].exec
  {
    if Due(s) { assert s.tasks[0] in s.tasks; }
  }

  lemma CancelledIsNotOwned(h: Host, h': Host, gone: Task)
    requires Owned(h) && Exchanges(h.queue.tasks, h'.queue.tasks, Some(gone), None)
    requires !gone.exec && gone.action.Import? && h'.dynamicImports == h.dynamicImports
    ensures !Owned(h')
  {
    var path := gone.action.path;
    assert QueuedImport(gone, path) && Awaited(h, path);
    forall u | u in h'.queue.tasks ensures !QueuedImport(u, path) {
    }
    assert !Awaited(h', path);
  }

  lemma FoundStaysOwned(h: Host, path: string, at: int)
    requires Sound(h) && Owned(h) && Allowed(h, ImportFound(path, at))
    requires Take(h, ImportFound(path, at)).ledger.issued <= ID_LIMIT
    ensures Owned(Take(h, ImportFound(path, at)))
  {
    var h' := Take(h, ImportFound(path, at));
    if path in h.dynamicImports {
      assert forall other :: Awaited(h', other) <==> Awaited(h, other);
    } else {
      var gone, come := StepExchanges(h.queue, h.ledger, QueueImport(path, at));
      hide Represents, Consistent, Next, Record, Owned;
      StillOwned(h, h', gone, come);
    }
  }

  lemma BeginStaysOwned(h: Host)
    requires Sound(h) && Owned(h) && Allowed(h, TaskBegin)
    ensures Owned(Take(h, TaskBegin))
  {
    var gone, come := StepExchanges(h.queue, h.ledger, Start);
    FirstIsNotExecuting(h.queue);
    var t := h.queue.tasks[0];
    if t.action.Import? {
      assert QueuedImport(t, t.action.path) && Awaited(h, t.action.path);
    }
    hide Represents, Consistent, Next, Record, Owned;
    StillOwned(h, Take(h, TaskBegin), gone, come);
  }

  lemma EndStaysOwned(h: Host, outcome: Outcome, at: int)
    requires Sound(h) && Owned(h) && Allowed(h, TaskEnd(outcome, at))
    ensures Owned(Take(h, TaskEnd(outcome, at)))
  {
    var gone, come := StepExchanges(h.queue, h.ledger, Finish(at));
    hide Represents, Consistent, Next, Record, Owned;
    StillOwned(h, Take(h, TaskEnd(outcome, at)), gone, come);
  }

  lemma UserCallOwnedIff(h: Host, call: Step)
    requires Sound(h) && Owned(h) && Allowed(h, UserCall(call))
    requires Take(h, UserCall(call)).ledger.issued <= ID_LIMIT
    ensures Owned(Take(h, UserCall(call))) <==> !CancelsImport(h, UserCall(call))
  {
    var h' := Take(h, UserCall(call));
    var gone, come := StepExchanges(h.queue, h.ledger, call);
    if CancelsImport(h, UserCall(call)) {
      var t :| t in h.queue.tasks && t.id == call.id && !t.exec && t.action.Import?;
      assert gone == Some(t);
      CancelledIsNotOwned(h, h', t);
    } else {
      hide Represents, Consistent, Next, Record, Owned;
      StillOwned(h, h', gone, come);
    }
  }

  /** Import ownership, exactly: of all the moves there are, only clearing a timer by the number of
      a queued import task breaks it. */
  lemma StepOwnedIff(h: Host, move: Move)
    requires Sound(h) && Owned(h) && Allowed(h, move)
    requires Take(h, move).ledger.issued <= ID_LIMIT
    ensures Owned(Take(h, move)) <==> !CancelsImport(h, move)
  {
    hide Represents, Consistent;
    match move
    case ImportFound(path, at) => FoundStaysOwned(h, path, at);
    case TaskBegin => BeginStaysOwned(h);
    case TaskEnd(outcome, at) => EndStaysOwned(h, outcome, at);
    case UserCall(call) => UserCallOwnedIff(h, call);
    case _ => assert forall path :: Awaited(Take(h, move), path) <==> Awaited(h, path);
  }
}

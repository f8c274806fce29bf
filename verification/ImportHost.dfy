/** The part of the language module that keeps dynamic imports, as an object whose calls update its
    table of imports under way. JavaScript that runs inside a call is given as the moves it makes. */
module ImportHosts {
  import opened Options
  import opened Scheduling
  import opened SchedulerLedger
  import opened TaskSchedulers
  import opened ImportProtocol
  import opened ImportPromises

  class ImportHost {
    const scheduler: TaskScheduler
    var dynamicImports: map<string, Promise>
    var promises: seq<PromiseState>
    var handlers: seq<Promise>
    ghost var frames: seq<Frame>
    ghost var returned: set<Promise>
    ghost var ledger: Ledger

    ghost function Contents(): Host
      reads this, scheduler
    {
      Host(scheduler.Contents(), ledger, dynamicImports, promises, handlers, frames, returned)
    }

    ghost predicate Valid()
      reads this, scheduler
    {
      Healthy(Contents())
    }

    constructor ()
      ensures Valid() && fresh(scheduler) && Contents() == START
    {
      scheduler := new TaskScheduler();
      dynamicImports, promises, handlers := map[], [], [];
      frames, returned, ledger := [], {}, BLANK;
      new;
      StartIsKept();
    }

    method NewResolver() returns (p: Promise)
      modifies `promises
      ensures p == |old(promises)| && promises == old(promises) + [Unsettled]
    {
      p := |promises|;
      promises := promises + [Unsettled];
    }

    method SettleResolver(p: Promise, verdict: Verdict)
      modifies `promises
      ensures promises == Settle(old(promises), p, verdict)
    {
      if p < |promises| && promises[p].Unsettled? {
        promises := promises[p := Settled(verdict)];
      }
    }

    /** ImportDynamic for a specifier that resolves to a file. */
    method ImportFile(path: string, at: int) returns (p: Promise)
      requires Valid() && Allowed(Contents(), ImportFound(path, at))
      modifies this, scheduler
      ensures Valid() && Contents() == Take(old(Contents()), ImportFound(path, at))
      ensures p == Given(old(Contents()), path)
    {
      hide Kept, Sound, Consistent;
      StepStaysHealthy(Contents(), ImportFound(path, at));
      var resolver := NewResolver();
      if path in dynamicImports {
        p := dynamicImports[path];
      } else {
        dynamicImports := dynamicImports[path := resolver];
        ledger := Record(ledger, QueueImport(path, at), Subject(scheduler.Contents(), QueueImport(path, at)));
        var _ := scheduler.AddTask(at, 0, Import(path), false);
        p := resolver;
      }
      returned := returned + {p};
    }

    /** ImportDynamic for a specifier that resolves to nothing. */
    method ImportMissing() returns (p: Promise)
      requires Valid() && Allowed(Contents(), ImportFails)
      modifies this
      ensures Valid() && Contents() == Take(old(Contents()), ImportFails)
      ensures p == |old(promises)|
    {
      hide Kept, Sound, Consistent;
      StepStaysHealthy(Contents(), ImportFails);
      p := NewResolver();
      SettleResolver(p, Rejected);
      assert promises == old(promises) + [Settled(Rejected)];
      returned := returned + {p};
    }

    /** ImportDynamic for a specifier that the embedder's resolver knows, up to the evaluation of its
        module, during which JavaScript runs, and from there on. */
    method BeginForeign() returns (p: Promise)
      requires Valid() && Allowed(Contents(), CustomBegin)
      modifies this
      ensures Valid() && Contents() == Take(old(Contents()), CustomBegin)
      ensures p == |old(promises)|
    {
      hide Kept, Sound, Consistent;
      StepStaysHealthy(Contents(), CustomBegin);
      p := NewResolver();
      frames := [CustomImport(p)] + frames;
    }

    method EndForeign(p: Promise, verdict: Verdict)
      requires Valid() && frames != [] && frames[0] == CustomImport(p)
      modifies this
      ensures Valid() && Contents() == Take(old(Contents()), CustomEnd(verdict))
    {
      hide Kept, Sound, Consistent;
      StepStaysHealthy(Contents(), CustomEnd(verdict));
      SettleResolver(p, verdict);
      frames := frames[1..];
      returned := returned + {p};
    }

    /** The scheduler's Run begins, and returns when no task is due. Between the two, BeginTask and
        EndTask are the turns of its loop. */
    method BeginRun(at: int)
      requires Valid() && Allowed(Contents(), Move.Enter(at))
      modifies this, scheduler
      ensures Valid() && Contents() == Take(old(Contents()), Move.Enter(at))
    {
      hide Kept, Sound, Consistent;
      StepStaysHealthy(Contents(), Move.Enter(at));
      ledger := Record(ledger, Step.Enter(at), Subject(scheduler.Contents(), Step.Enter(at)));
      scheduler.BeginRun(at);
    }

    method EndRun()
      requires Valid() && Allowed(Contents(), Move.Exit)
      modifies this, scheduler
      ensures Valid() && Contents() == Take(old(Contents()), Move.Exit)
    {
      hide Kept, Sound, Consistent;
      StepStaysHealthy(Contents(), Move.Exit);
      ledger := Record(ledger, Step.Exit, Subject(scheduler.Contents(), Step.Exit));
      scheduler.EndRun();
    }

    /** ImportDynamic as an import task: takes the resolver out of the table. None means that the
        called action is not an import, or that its import is no longer wanted. */
    method BeginTask() returns (resolver: Option<Promise>)
      requires Valid() && Allowed(Contents(), TaskBegin)
      modifies this, scheduler
      ensures Valid() && Contents() == Take(old(Contents()), TaskBegin)
      ensures frames[0] == if resolver.Some? then ImportTask(resolver.value) else OtherTask
    {
      hide Kept, Sound, Consistent;
      StepStaysHealthy(Contents(), TaskBegin);
      var action := scheduler.tasks[0].action;
      ledger := Record(ledger, Start, Subject(scheduler.Contents(), Start));
      scheduler.StartFirst();
      resolver := None;
      if action.Import? && action.path in dynamicImports {
        resolver := Some(dynamicImports[action.path]);
        dynamicImports := dynamicImports - {action.path};
        frames := [ImportTask(resolver.value)] + frames;
      } else {
        frames := [OtherTask] + frames;
      }
    }

    method EndTask(resolver: Option<Promise>, outcome: Outcome, at: int)
      requires Valid() && Allowed(Contents(), TaskEnd(outcome, at))
      requires frames[0] == if resolver.Some? then ImportTask(resolver.value) else OtherTask
      modifies this, scheduler
      ensures Valid() && Contents() == Take(old(Contents()), TaskEnd(outcome, at))
    {
      hide Kept, Sound, Consistent;
      StepStaysHealthy(Contents(), TaskEnd(outcome, at));
      if resolver.Some? {
        Conclude(resolver.value, outcome);
      }
      frames := frames[1..];
      ledger := Record(ledger, Finish(at), Subject(scheduler.Contents(), Finish(at)));
      scheduler.Settle(at);
    }

    /** What LoadModule and its caller do with the resolver once evaluation has begun or failed. */
    method Conclude(resolver: Promise, outcome: Outcome)
      requires frames != [] && frames[0] == ImportTask(resolver)
      modifies `promises, `handlers
      ensures promises == End(old(Contents()), outcome).promises
      ensures handlers == End(old(Contents()), outcome).handlers
    {
      var loaded := true;
      match outcome {
        case LoadFailed =>
          loaded := false;
        case Evaluated(verdict, caught) =>
          SettleResolver(resolver, verdict);
          loaded := !caught;
        case StillEvaluating(caught) =>
          handlers := handlers + [resolver];
          loaded := !caught;
      }
      if !loaded {
        SettleResolver(resolver, Rejected);
      }
    }

    /** OnDynamicModuleResolve and OnDynamicModuleFailure. */
    method React(handler: nat, verdict: Verdict)
      requires Valid() && handler < |handlers|
      modifies this
      ensures Valid() && Contents() == Take(old(Contents()), Reaction(handler, verdict))
    {
      hide Kept, Sound, Consistent;
      StepStaysHealthy(Contents(), Reaction(handler, verdict));
      SettleResolver(handlers[handler], verdict);
      handlers := handlers[..handler] + handlers[handler + 1..];
    }

    method CallScheduler(call: Step)
      requires Valid() && Allowed(Contents(), UserCall(call))
      modifies this, scheduler
      ensures Valid() && Contents() == Take(old(Contents()), UserCall(call))
    {
      hide Kept, Sound, Consistent;
      StepStaysHealthy(Contents(), UserCall(call));
      ledger := Record(ledger, call, Subject(scheduler.Contents(), call));
      match call {
        case Add(at, delay, action, repeat) => var _ := scheduler.AddTask(at, delay, action, repeat);
        case Remove(id) => scheduler.RemoveTask(id);
        case Reschedule(id, at, newDelay) => scheduler.RescheduleTask(id, at, newDelay);
      }
    }
  }
}

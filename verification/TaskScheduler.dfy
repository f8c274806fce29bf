/** The scheduler object: a set of tasks and a counter, updated by the calls and by the loop of Run.
    Where the code reads the clock, the reading is a parameter. */
module TaskSchedulers {
  import opened Options
  import opened Scheduling
  import opened SchedulerTiming

  class TaskScheduler {
    var tasks: seq<Task>
    var nextId: nat
    ghost var phase: Phase

    ghost function Contents(): State
      reads this
    {
      State(tasks, nextId, phase)
    }

    ghost predicate Valid()
      reads this
    {
      Consistent(Contents())
    }

    constructor ()
      ensures Valid() && Contents() == INITIAL
    {
      tasks, nextId, phase := [], ID_LIMIT - 1, Idle;
    }

    method AddTask(at: int, delay: int, action: Action, repeat: bool) returns (id: nat)
      requires Valid() && !phase.Running?
      modifies this
      ensures Valid() && Contents() == Next(old(Contents()), Add(at, delay, action, repeat))
      ensures id == IssuedId(old(Contents()))
    {
      StepStaysConsistent(Contents(), Add(at, delay, action, repeat));
      nextId := (nextId + 1) % ID_LIMIT;
      id := nextId;
      tasks := Insert(tasks, Task(id, repeat, false, false, at + delay, delay, action));
    }

    method RemoveTask(id: nat)
      requires Valid() && !phase.Running?
      modifies this
      ensures Valid() && Contents() == Next(old(Contents()), Remove(id))
    {
      StepStaysConsistent(Contents(), Remove(id));
      var found := FindId(tasks, id);
      if found.Some? {
        var it := found.value;
        if tasks[it].exec {
          tasks := tasks[it := tasks[it].(kill := true)];
        } else {
          tasks := Erase(tasks, it);
        }
      }
    }

    method RescheduleTask(id: nat, at: int, newDelay: int)
      requires Valid() && !phase.Running?
      modifies this
      ensures Valid() && Contents() == Next(old(Contents()), Reschedule(id, at, newDelay))
    {
      StepStaysConsistent(Contents(), Reschedule(id, at, newDelay));
      var found := FindId(tasks, id);
      if found.Some? {
        var it := found.value;
        if !tasks[it].exec {
          var node := tasks[it];
          tasks := Erase(tasks, it);
          node := node.(delay := newDelay, executeTime := at + newDelay);
          tasks := Insert(tasks, node);
        }
      }
    }

    /** The calls that one action makes. */
    method Perform(calls: seq<Step>)
      requires Valid() && !phase.Running? && OnlyCalls(calls)
      modifies this
      ensures Valid() && Contents() == Call(old(Contents()), calls)
    {
      var i := 0;
      while i < |calls|
        invariant i <= |calls| && Valid() && phase == old(phase)
        invariant Call(Contents(), calls[i..]) == Call(old(Contents()), calls)
      {
        assert calls[i..][0] == calls[i] && calls[i..][1..] == calls[i + 1..];
        match calls[i] {
          case Add(at, delay, action, repeat) => var _ := AddTask(at, delay, action, repeat);
          case Remove(id) => RemoveTask(id);
          case Reschedule(id, at, newDelay) => RescheduleTask(id, at, newDelay);
        }
        i := i + 1;
      }
    }

    /** One turn of Run's loop: calls the first task, then puts it back or erases it. */
    method RunFirst(act: Behaviour)
      requires Valid() && Due(Contents()) && OnlyCalls(act.calls)
      modifies this
      ensures Valid() && Contents() == Turn(old(Contents()), act)
    {
      StartFirst();
      Perform(act.calls);
      Settle(act.endedAt);
    }

    method StartFirst()
      requires Valid() && Due(Contents())
      modifies this
      ensures Valid() && Contents() == Next(old(Contents()), Start)
    {
      StepStaysConsistent(Contents(), Start);
      tasks := tasks[0 := tasks[0].(exec := true)];
      phase := Acting(phase.now);
    }

    method Settle(at: int)
      requires Valid() && phase.Acting?
      modifies this
      ensures Valid() && Contents() == Next(old(Contents()), Finish(at))
    {
      StepStaysConsistent(Contents(), Finish(at));
      var it := FindExecuting(tasks).value;
      var node := tasks[it].(exec := false);
      tasks := Erase(tasks, it);
      if node.repeat && !node.kill {
        tasks := Insert(tasks, node.(executeTime := at + node.delay));
      }
      phase := Running(phase.now);
    }

    /** The clock reading with which Run begins, and its return. */
    method BeginRun(now: int)
      requires Valid() && phase.Idle?
      modifies this
      ensures Valid() && Contents() == Next(old(Contents()), Enter(now))
    {
      StepStaysConsistent(Contents(), Enter(now));
      phase := Running(now);
    }

    method EndRun()
      requires Valid() && Enabled(Contents(), Exit)
      modifies this
      ensures Valid() && Contents() == Next(old(Contents()), Exit)
    {
      StepStaysConsistent(Contents(), Exit);
      phase := Idle;
    }

    /** The loop of Run. `acts` is what the actions do that it calls, one after the other, and `turns`
        is how many it has called. */
    method RunDue(now: int, acts: seq<Behaviour>) returns (ghost turns: nat)
      requires Valid() && phase == Running(now) && Ends(Contents(), acts)
      modifies this
      ensures Valid() && turns <= |acts| && EndsAfter(old(Contents()), acts[..turns])
      ensures Contents() == AfterTurns(old(Contents()), acts[..turns]).value && !Due(Contents())
    {
      hide Consistent, Turn;
      turns :| 0 <= turns <= |acts| && EndsAfter(Contents(), acts[..turns]);
      ghost var taken := acts[..turns];
      var i := 0;
      while tasks != [] && now >= tasks[0].executeTime
        invariant i <= turns && Valid() && phase == old(phase)
        invariant EndsAfter(Contents(), taken[i..])
        invariant AfterTurns(Contents(), taken[i..]) == AfterTurns(old(Contents()), taken)
        decreases turns - i
      {
        assert taken[i..] != [];
        assert taken[i..][0] == acts[i] && taken[i..][1..] == taken[i + 1..];
        RunFirst(acts[i]);
        i := i + 1;
      }
      assert !Due(Contents());
      assert taken[i..] == [];
    }

    /** Run is described where its loop ends; RunEnds says when it does. */
    method Run(now: int, acts: seq<Behaviour>) returns (ghost turns: nat)
      requires Valid() && phase.Idle?
      requires Ends(Next(Contents(), Enter(now)), acts)
      modifies this
      ensures Valid() && turns <= |acts| && EndsAfter(Next(old(Contents()), Enter(now)), acts[..turns])
      ensures Contents() == Next(AfterTurns(Next(old(Contents()), Enter(now)), acts[..turns]).value, Exit)
      ensures forall t :: t in tasks ==> t.executeTime > now
    {
      hide Consistent, Turn, AfterTurns;
      BeginRun(now);
      turns := RunDue(now, acts);
      NothingDueIsLeft(Contents());
      EndRun();
    }

    method Reset()
      requires Valid() && phase.Idle?
      modifies this
      ensures Valid() && Contents() == Next(old(Contents()), Clear)
    {
      StepStaysConsistent(Contents(), Clear);
      tasks := [];
    }
  }
}

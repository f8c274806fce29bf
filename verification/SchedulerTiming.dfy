/** When queued tasks run: what is left when Run returns, in which order tasks start, and when Run
    terminates. */
module SchedulerTiming {
  import opened Options
  import opened Scheduling
  import opened SchedulerLedger

  /** The clock readings of a step are no earlier than `clock`. */
  predicate NoEarlier(step: Step, clock: int) {
    match step
    case Add(at, _, _, _) => clock <= at
    case Reschedule(_, at, _) => clock <= at
    case Enter(at) => clock <= at
    case Finish(at) => clock <= at
    case _ => true
  }

  function Reading(step: Step, clock: int): int {
    match step
    case Add(at, _, _, _) => at
    case Reschedule(_, at, _) => at
    case Enter(at) => at
    case Finish(at) => at
    case _ => clock
  }

  predicate DelayAtLeast(step: Step, least: int) {
    match step
    case Add(_, delay, _, _) => least <= delay
    case Reschedule(_, _, newDelay) => least <= newDelay
    case _ => true
  }

  /** The clock never runs backwards and no delay is below `least`. */
  predicate Timely(steps: seq<Step>, clock: int, least: int) {
    steps != [] ==>
      && NoEarlier(steps[0], clock)
      && DelayAtLeast(steps[0], least)
      && Timely(steps[1..], Reading(steps[0], clock), least)
  }

  ghost predicate DelaysAtLeast(s: State, least: int) {
    forall t :: t in s.tasks ==> least <= t.delay
  }

  // ---------------------------------------------------------------- one call

  /** Every task of `ts'` that is not executing was there in `ts`, also not executing, or is timed
      after `moment`. */
  ghost predicate OnlyLater(ts: seq<Task>, ts': seq<Task>, moment: int) {
    forall t :: t in ts' && !t.exec ==> t in ts || t.executeTime >= moment
  }

  lemma StepAddsOnlyLater(s: State, step: Step, clock: int, least: int)
    requires Consistent(s) && Enabled(s, step) && NoEarlier(step, clock)
    requires DelayAtLeast(step, least) && DelaysAtLeast(s, least)
    ensures OnlyLater(s.tasks, Next(s, step).tasks, clock + least)
    ensures DelaysAtLeast(Next(s, step), least)
  {
    hide Sorted, Insert, Erase, FindId, FindExecuting;
    match step
    case Add(_, _, _, _) => InsertKeeps(s.tasks, NewTask(s, step));
    case Remove(id) => RemoveKeeps(s.tasks, id);
    case Reschedule(id, at, newDelay) =>
      if FindId(s.tasks, id).Some? {
        var i := FindId(s.tasks, id).value;
        MoveKeeps(s.tasks, i, s.tasks[i].(delay := newDelay, executeTime := at + newDelay));
      }
    case Enter(_) =>
    case Start => MarkKeeps(s.tasks, 0, s.tasks[0].(exec := true));
    case Finish(at) =>
      var i := FindExecuting(s.tasks).value;
      EraseKeeps(s.tasks, i);
      assert forall t :: t in Erase(s.tasks, i) ==> t in s.tasks;
      MoveKeeps(s.tasks, i, s.tasks[i].(exec := false, executeTime := at + s.tasks[i].delay));
    case Exit =>
    case Clear =>
  }

  // ---------------------------------------------------------------- order of starts

  ghost predicate StartsInOrder(log: seq<Event>) {
    forall i, j :: 0 <= i < j < |log| && log[i].Started? && log[j].Started? ==> log[i].time <= log[j].time
  }

  /** The latest start is no later than the clock and than any task still waiting. */
  ghost predicate StartsUpTo(s: State, log: seq<Event>, clock: int) {
    && StartsInOrder(log)
    && (!s.phase.Idle? ==> s.phase.now <= clock)
    && forall i :: 0 <= i < |log| && log[i].Started? ==>
         log[i].time <= clock && forall t :: t in s.tasks && !t.exec ==> log[i].time <= t.executeTime
  }

  lemma StepStartsUpTo(s: State, step: Step, log: seq<Event>, clock: int)
    requires Consistent(s) && Enabled(s, step) && NoEarlier(step, clock)
    requires DelayAtLeast(step, 0) && DelaysAtLeast(s, 0) && StartsUpTo(s, log, clock)
    ensures StartsUpTo(Next(s, step), log + Emitted(s, step), Reading(step, clock))
  {
    StepAddsOnlyLater(s, step, clock, 0);
    var s' := Next(s, step);
    var log' := log + Emitted(s, step);
    if step.Start? {
      var first := s.tasks[0];
      assert first in s.tasks && !first.exec;
      MarkKeeps(s.tasks, 0, first.(exec := true));
      forall t | t in s'.tasks && !t.exec ensures first.executeTime <= t.executeTime {
        FirstIsLeast(s.tasks, t);
      }
    }
    forall i | 0 <= i < |log'| && log'[i].Started?
      ensures log'[i].time <= Reading(step, clock)
      ensures forall t :: t in s'.tasks && !t.exec ==> log'[i].time <= t.executeTime
    {
      if i < |log| {
        assert log'[i] == log[i];
        forall t | t in s'.tasks && !t.exec ensures log'[i].time <= t.executeTime {
        }
      }
    }
  }

  /** With no negative delay and a clock that never runs backwards, tasks start in the order of
      their execution times, across all the runs of Run and whatever actions queue, remove or move. */
  lemma {:induction false} StartsAreOrdered(s: State, steps: seq<Step>, log: seq<Event>, clock: int)
    requires Consistent(s) && CanRun(s, steps) && Timely(steps, clock, 0)
    requires DelaysAtLeast(s, 0) && StartsUpTo(s, log, clock)
    ensures StartsInOrder(log + Log(s, steps))
    decreases |steps|
  {
    hide Consistent, DelaysAtLeast;
    if steps == [] {
      assert log + Log(s, steps) == log;
    } else {
      var step := steps[0];
      StepStaysConsistent(s, step);
      StepAddsOnlyLater(s, step, clock, 0);
      StepStartsUpTo(s, step, log, clock);
      assert log + Log(s, steps) == log + Emitted(s, step) + Log(Next(s, step), steps[1..]);
      hide StartsUpTo, Emitted, Log, StartsInOrder;
      StartsAreOrdered(Next(s, step), steps[1..], log + Emitted(s, step), Reading(step, clock));
    }
  }

  lemma RunsAreOrdered(steps: seq<Step>, clock: int)
    requires CanRun(INITIAL, steps) && Timely(steps, clock, 0)
    ensures StartsInOrder(Log(INITIAL, steps))
  {
    InitiallyBlank();
    StartsAreOrdered(INITIAL, steps, [], clock);
    assert [] + Log(INITIAL, steps) == Log(INITIAL, steps);
  }

  /** A task that starts is the one with the least time and, among those, the least id. */
  lemma StartIsNext(s: State) returns (t: Task)
    requires Consistent(s) && Enabled(s, Start)
    ensures t in s.tasks && t.executeTime <= s.phase.now
    ensures t.(exec := true) in Next(s, Start).tasks
    ensures Emitted(s, Start) == [Started(t.id, t.repeat, t.executeTime)]
    ensures forall u :: u in s.tasks && u != t ==>
      t.executeTime < u.executeTime || (t.executeTime == u.executeTime && t.id < u.id)
  {
    t := s.tasks[0];
    MarkKeeps(s.tasks, 0, t.(exec := true));
    forall u | u in s.tasks && u != t
      ensures t.executeTime < u.executeTime || (t.executeTime == u.executeTime && t.id < u.id)
    {
      FirstIsLeast(s.tasks, u);
    }
  }

  /** The step is not about the task: it does not remove or move it, nor clear the scheduler. */
  predicate LeavesAlone(step: Step, id: nat) {
    !(step.Remove? && step.id == id) && !(step.Reschedule? && step.id == id) && !step.Clear?
  }

  lemma StaysWaiting(s: State, step: Step, t: Task)
    requires Consistent(s) && Enabled(s, step) && t in s.tasks && !t.exec && LeavesAlone(step, t.id)
    requires step.Start? ==> s.tasks[0] != t
    ensures t in Next(s, step).tasks
  {
    hide Sorted, Insert, Erase, FindId, FindExecuting;
    match step
    case Add(_, _, _, _) => InsertKeeps(s.tasks, NewTask(s, step));
    case Remove(id) => RemoveKeeps(s.tasks, id);
    case Reschedule(id, at, newDelay) =>
      if FindId(s.tasks, id).Some? {
        var i := FindId(s.tasks, id).value;
        MoveKeeps(s.tasks, i, s.tasks[i].(delay := newDelay, executeTime := at + newDelay));
      }
    case Enter(_) =>
    case Start => MarkKeeps(s.tasks, 0, s.tasks[0].(exec := true));
    case Finish(at) =>
      var i := FindExecuting(s.tasks).value;
      EraseKeeps(s.tasks, i);
      MoveKeeps(s.tasks, i, s.tasks[i].(exec := false, executeTime := at + s.tasks[i].delay));
    case Exit =>
  }

  ghost predicate StartsFirst(log: seq<Event>, a: nat, b: nat) {
    forall j :: 0 <= j < |log| && log[j].Started? && log[j].id == b ==>
      exists i :: 0 <= i < j && log[i].Started? && log[i].id == a
  }

  lemma StartsFirstCons(event: Event, log: seq<Event>, a: nat, b: nat)
    requires event.Started? ==> event.id != b
    requires (event.Started? && event.id == a) || StartsFirst(log, a, b)
    ensures StartsFirst([event] + log, a, b)
  {
    var all := [event] + log;
    forall j | 0 <= j < |all| && all[j].Started? && all[j].id == b
      ensures exists i :: 0 <= i < j && all[i].Started? && all[i].id == a
    {
      if event.Started? && event.id == a {
        assert all[0].Started? && all[0].id == a;
      } else {
        assert log[j - 1] == all[j];
        var i :| 0 <= i < j - 1 && log[i].Started? && log[i].id == a;
        assert all[i + 1] == log[i];
      }
    }
  }

  /** Of two waiting tasks with the same time the one with the smaller id starts first, whatever else is
      queued, removed or moved, in every run that asks for at most 2^32 ids. */
  lemma {:induction false} EqualTimesStartInIdOrder(s: State, l: Ledger, steps: seq<Step>, a: Task, b: Task)
    requires Consistent(s) && Represents(s, l) && CanRun(s, steps) && l.issued + Issues(steps) <= ID_LIMIT
    requires a in s.tasks && b in s.tasks && !a.exec && !b.exec
    requires a.executeTime == b.executeTime && a.id < b.id
    requires forall k :: 0 <= k < |steps| ==> LeavesAlone(steps[k], a.id) && LeavesAlone(steps[k], b.id)
    ensures StartsFirst(Log(s, steps), a.id, b.id)
    decreases |steps|
  {
    hide Consistent, Represents, StartsFirst;
    if steps == [] {
      NothingStarts(a.id, b.id);
    } else {
      var step, s' := steps[0], Next(s, steps[0]);
      var rest := Log(s', steps[1..]);
      if step.Start? {
        var first := StartIsNext(s);
        SameId(s, l, first, b);
        assert first != b;
        if first == a {
          StartsFirstCons(Emitted(s, step)[0], rest, a.id, b.id);
        }
      }
      if !(step.Start? && s.tasks[0] == a) {
        StaysWaiting(s, step, a);
        StaysWaiting(s, step, b);
        StepStaysConsistent(s, step);
        StepRepresents(s, l, step);
        EqualTimesStartInIdOrder(s', Record(l, step, Subject(s, step)), steps[1..], a, b);
        if Emitted(s, step) == [] {
          assert [] + rest == rest;
        } else {
          StartsFirstCons(Emitted(s, step)[0], rest, a.id, b.id);
        }
      }
    }
  }

  lemma NothingStarts(a: nat, b: nat)
    ensures StartsFirst([], a, b)
  {
  }

  lemma SameId(s: State, l: Ledger, t: Task, u: Task)
    requires Represents(s, l) && t in s.tasks && u in s.tasks
    ensures t.id == u.id ==> t == u
  {
  }

  // ---------------------------------------------------------------- the loop of Run

  /** What one action does: the calls it makes, and the clock when it has ended. */
  datatype Behaviour = Behaviour(calls: seq<Step>, endedAt: int)

  predicate OnlyCalls(steps: seq<Step>) {
    forall i :: 0 <= i < |steps| ==> IsCall(steps[i])
  }

  function Call(s: State, steps: seq<Step>): (s': State)
    requires OnlyCalls(steps) && !s.phase.Running?
    ensures s'.phase == s.phase
    decreases |steps|
  {
    if steps == [] then s else Call(Next(s, steps[0]), steps[1..])
  }

  lemma {:induction false} CallStaysConsistent(s: State, steps: seq<Step>)
    requires Consistent(s) && OnlyCalls(steps) && !s.phase.Running?
    ensures Consistent(Call(s, steps))
    ensures CanRun(s, steps) && Call(s, steps) == After(s, steps)
    decreases |steps|
  {
    if steps != [] {
      StepStaysConsistent(s, steps[0]);
      CallStaysConsistent(Next(s, steps[0]), steps[1..]);
    }
  }

  /** One turn of the loop: the first task's action is called, then the task is put back or erased. */
  function Turn(s: State, b: Behaviour): (s': State)
    requires Consistent(s) && Due(s) && OnlyCalls(b.calls)
    ensures Consistent(s') && s'.phase == s.phase
  {
    StepStaysConsistent(s, Start);
    CallStaysConsistent(Next(s, Start), b.calls);
    var acted := Call(Next(s, Start), b.calls);
    StepStaysConsistent(acted, Finish(b.endedAt));
    Next(acted, Finish(b.endedAt))
  }

  predicate AllCalls(acts: seq<Behaviour>) {
    forall k :: 0 <= k < |acts| ==> OnlyCalls(acts[k].calls)
  }

  /** The state after one turn for each element of acts, which is what the called actions do in
      turn; None if the guard of the loop stops it earlier. */
  function AfterTurns(s: State, acts: seq<Behaviour>): (s': Option<State>)
    requires Consistent(s) && AllCalls(acts)
    ensures s'.Some? ==> Consistent(s'.value) && s'.value.phase == s.phase
    decreases |acts|
  {
    if acts == [] then Some(s)
    else if !Due(s) then None
    else AfterTurns(Turn(s, acts[0]), acts[1..])
  }

  /** The tasks called in those turns. */
  function Called(s: State, acts: seq<Behaviour>): (called: seq<Task>)
    requires Consistent(s) && AllCalls(acts) && AfterTurns(s, acts).Some?
    ensures |called| == |acts|
    decreases |acts|
  {
    if acts == [] then [] else [s.tasks[0]] + Called(Turn(s, acts[0]), acts[1..])
  }

  /** The loop of Run, entered in state s, ends after exactly these turns. */
  predicate EndsAfter(s: State, acts: seq<Behaviour>)
    requires Consistent(s)
  {
    AllCalls(acts) && AfterTurns(s, acts).Some? && !Due(AfterTurns(s, acts).value)
  }

  /** When Run returns, nothing that is left was due when it began. */
  lemma NothingDueIsLeft(s: State)
    requires Consistent(s) && s.phase.Running? && !Due(s)
    ensures forall t :: t in s.tasks ==> t.executeTime > s.phase.now
  {
    forall t | t in s.tasks ensures t.executeTime > s.phase.now {
      FirstIsLeast(s.tasks, t);
    }
  }

  /** Run goes on while some task is due, and returns when none is. */
  lemma RunsWhileDue(s: State)
    requires Consistent(s) && s.phase.Running?
    ensures Enabled(s, Start) <==> exists t :: t in s.tasks && t.executeTime <= s.phase.now
    ensures Enabled(s, Exit) <==> forall t :: t in s.tasks ==> s.phase.now < t.executeTime
  {
    if t :| t in s.tasks && t.executeTime <= s.phase.now {
      FirstIsLeast(s.tasks, t);
    }
    if Due(s) {
      assert s.tasks[0] in s.tasks;
    }
  }

  // ---------------------------------------------------------------- termination

  /** The tasks that Run would still call. */
  ghost function Waiting(s: State, now: int): set<Task> {
    set t | t in s.tasks && !t.exec && t.executeTime <= now
  }

  /** The call queues or moves nothing to a time that has been reached at `now`. */
  predicate TimedAfter(step: Step, now: int) {
    match step
    case Add(at, delay, _, _) => now < at + delay
    case Reschedule(_, at, newDelay) => now < at + newDelay
    case _ => true
  }

  /** The clock does not run backwards while the action runs, and what it queues is not yet due. */
  predicate LeavesForLater(b: Behaviour, now: int) {
    now <= b.endedAt && forall i :: 0 <= i < |b.calls| ==> TimedAfter(b.calls[i], now)
  }

  predicate AllLeaveForLater(acts: seq<Behaviour>, now: int) {
    forall k :: 0 <= k < |acts| ==> LeavesForLater(acts[k], now)
  }

  /** Repeating tasks that are due have a positive delay. One-shots may have any. */
  ghost predicate RepeatsMoveOn(s: State, now: int) {
    forall t :: t in s.tasks && t.repeat && (t.exec || t.executeTime <= now) ==> 1 <= t.delay
  }

  lemma OneCallAddsNothingDue(s: State, step: Step, now: int)
    requires Consistent(s) && IsCall(step) && Enabled(s, step) && TimedAfter(step, now) && RepeatsMoveOn(s, now)
    ensures Waiting(Next(s, step), now) <= Waiting(s, now) && RepeatsMoveOn(Next(s, step), now)
  {
    hide Sorted, Insert, Erase, FindId;
    match step
    case Add(_, _, _, _) => InsertKeeps(s.tasks, NewTask(s, step));
    case Remove(id) => RemoveKeeps(s.tasks, id);
    case Reschedule(id, at, newDelay) =>
      if FindId(s.tasks, id).Some? {
        var i := FindId(s.tasks, id).value;
        MoveKeeps(s.tasks, i, s.tasks[i].(delay := newDelay, executeTime := at + newDelay));
      }
  }

  lemma {:induction false} CallsAddNothingDue(s: State, steps: seq<Step>, now: int)
    requires Consistent(s) && OnlyCalls(steps) && !s.phase.Running? && RepeatsMoveOn(s, now)
    requires forall i :: 0 <= i < |steps| ==> TimedAfter(steps[i], now)
    ensures Waiting(Call(s, steps), now) <= Waiting(s, now) && RepeatsMoveOn(Call(s, steps), now)
    decreases |steps|
  {
    hide Consistent, Waiting, RepeatsMoveOn;
    if steps != [] {
      StepStaysConsistent(s, steps[0]);
      OneCallAddsNothingDue(s, steps[0], now);
      CallsAddNothingDue(Next(s, steps[0]), steps[1..], now);
    }
  }

  lemma FinishAddsNothingDue(s: State, at: int, now: int)
    requires Consistent(s) && Enabled(s, Finish(at)) && now <= at && RepeatsMoveOn(s, now)
    ensures Waiting(Next(s, Finish(at)), now) <= Waiting(s, now) && RepeatsMoveOn(Next(s, Finish(at)), now)
  {
    hide Sorted, Insert, Erase, FindExecuting;
    var i := FindExecuting(s.tasks).value;
    assert s.tasks[i] in s.tasks;
    EraseKeeps(s.tasks, i);
    MoveKeeps(s.tasks, i, s.tasks[i].(exec := false, executeTime := at + s.tasks[i].delay));
  }

  lemma StartTakesOff(s: State)
    requires Consistent(s) && Due(s) && RepeatsMoveOn(s, s.phase.now)
    ensures s.tasks[0] in Waiting(s, s.phase.now)
    ensures Waiting(Next(s, Start), s.phase.now) <= Waiting(s, s.phase.now) - {s.tasks[0]}
    ensures RepeatsMoveOn(Next(s, Start), s.phase.now)
  {
    assert s.tasks[0] in s.tasks;
    MarkKeeps(s.tasks, 0, s.tasks[0].(exec := true));
  }

  /** A turn takes its task off those still to be called and adds none. */
  lemma TurnUsesUp(s: State, b: Behaviour)
    requires Consistent(s) && Due(s) && OnlyCalls(b.calls)
    requires RepeatsMoveOn(s, s.phase.now) && LeavesForLater(b, s.phase.now)
    ensures s.tasks[0] in Waiting(s, s.phase.now)
    ensures Waiting(Turn(s, b), s.phase.now) <= Waiting(s, s.phase.now) - {s.tasks[0]}
    ensures RepeatsMoveOn(Turn(s, b), s.phase.now)
  {
    hide Waiting, RepeatsMoveOn;
    var started := Next(s, Start);
    StartTakesOff(s);
    StepStaysConsistent(s, Start);
    CallsAddNothingDue(started, b.calls, s.phase.now);
    CallStaysConsistent(started, b.calls);
    FinishAddsNothingDue(Call(started, b.calls), b.endedAt, s.phase.now);
  }

  /** The turns of one Run call different tasks, all of them due when it began, and so there are no
      more turns than tasks that were due. */
  lemma {:induction false} TurnsUseUp(s: State, acts: seq<Behaviour>)
    requires Consistent(s) && s.phase.Running? && RepeatsMoveOn(s, s.phase.now)
    requires AllCalls(acts) && AllLeaveForLater(acts, s.phase.now)
    requires AfterTurns(s, acts).Some?
    ensures forall t :: t in Called(s, acts) ==> t in Waiting(s, s.phase.now)
    ensures forall j, k :: 0 <= j < k < |acts| ==> Called(s, acts)[j] != Called(s, acts)[k]
    ensures |acts| <= |Waiting(s, s.phase.now)|
    decreases |acts|
  {
    if acts != [] {
      hide Turn, RepeatsMoveOn, Consistent, LeavesForLater;
      TurnUsesUp(s, acts[0]);
      var s' := Turn(s, acts[0]);
      TurnsUseUp(s', acts[1..]);
      assert forall t :: t in Called(s', acts[1..]) ==> t in Waiting(s', s.phase.now);
      SubsetSize(Waiting(s', s.phase.now), Waiting(s, s.phase.now) - {s.tasks[0]});
    }
  }

  /** The loop of Run, entered in state s, ends within the turns that acts describes. */
  ghost predicate Ends(s: State, acts: seq<Behaviour>)
    requires Consistent(s)
  {
    exists n :: 0 <= n <= |acts| && EndsAfter(s, acts[..n])
  }

  /** Run terminates, whatever else its actions do: when repeating tasks that are due have positive
      delays and actions queue nothing that is due already, the loop ends after at most as many turns
      as tasks were due. */
  lemma {:induction false} RunEnds(s: State, acts: seq<Behaviour>) returns (n: nat)
    requires Consistent(s) && s.phase.Running? && RepeatsMoveOn(s, s.phase.now)
    requires AllCalls(acts) && AllLeaveForLater(acts, s.phase.now)
    requires |acts| >= |Waiting(s, s.phase.now)|
    ensures n <= |Waiting(s, s.phase.now)| && EndsAfter(s, acts[..n])
    decreases |acts|
  {
    hide Turn, RepeatsMoveOn, Consistent, LeavesForLater;
    if !Due(s) {
      n := 0;
    } else {
      StartTakesOff(s);
      TurnUsesUp(s, acts[0]);
      var s' := Turn(s, acts[0]);
      SubsetSize(Waiting(s', s.phase.now), Waiting(s, s.phase.now) - {s.tasks[0]});
      var rest := RunEnds(s', acts[1..]);
      n := rest + 1;
      assert acts[..n][0] == acts[0] && acts[..n][1..] == acts[1..][..rest];
    }
  }

  // ---------------------------------------------------------------- the condition is exact

  /** n actions that make no calls and take no time. */
  function Quiet(n: nat, now: int): seq<Behaviour> {
    seq(n, _ => Behaviour([], now))
  }

  ghost predicate Stays(s: State, t: Task) {
    s.phase.Running? && t in s.tasks && t.repeat && t.executeTime <= s.phase.now && t.delay <= 0
  }

  /** A repeating task without a positive delay is due again after every turn. */
  lemma QuietTurnStays(s: State, l: Ledger, t: Task) returns (l': Ledger, t': Task)
    requires Consistent(s) && Represents(s, l) && Stays(s, t)
    ensures Due(s)
    ensures var s' := Turn(s, Behaviour([], s.phase.now)); Represents(s', l') && Stays(s', t')
  {
    hide Represents, Sorted, Insert, Erase;
    FirstIsLeast(s.tasks, t);
    var first, started := s.tasks[0], Next(s, Start);
    assert first in s.tasks && !first.exec;
    EntryOf(s, l, t);
    MarkKeeps(s.tasks, 0, first.(exec := true));
    StepStaysConsistent(s, Start);
    StepRepresents(s, l, Start);
    var l1 := Record(l, Start, Subject(s, Start));
    StepRepresents(started, l1, Finish(s.phase.now));
    l' := Record(l1, Finish(s.phase.now), Subject(started, Finish(s.phase.now)));
    var i := FindExecuting(started.tasks).value;
    assert started.tasks[i] == first.(exec := true);
    var moved := first.(executeTime := s.phase.now + first.delay);
    EraseKeeps(started.tasks, i);
    Moved(started, l1, i, moved);
    t' := if t == first then moved else t;
  }

  lemma {:induction false} NeverEnds(s: State, l: Ledger, t: Task, n: nat)
    requires Consistent(s) && Represents(s, l) && Stays(s, t)
    ensures !EndsAfter(s, Quiet(n, s.phase.now))
    decreases n
  {
    hide Represents, Consistent, Turn;
    var l', t' := QuietTurnStays(s, l, t);
    if n > 0 {
      var acts := Quiet(n, s.phase.now);
      assert acts[0] == Behaviour([], s.phase.now) && acts[1..] == Quiet(n - 1, s.phase.now);
      NeverEnds(Turn(s, acts[0]), l', t', n - 1);
    }
  }

  /** And it must: when the clock stands still and actions make no calls, Run ends exactly when no
      repeating task that is due has a delay of zero or less. */
  lemma QuietRunEndsIff(s: State, l: Ledger)
    requires Consistent(s) && Represents(s, l) && s.phase.Running?
    ensures (exists n: nat :: EndsAfter(s, Quiet(n, s.phase.now))) <==> RepeatsMoveOn(s, s.phase.now)
  {
    var now := s.phase.now;
    if RepeatsMoveOn(s, now) {
      var m := |Waiting(s, now)|;
      var n := RunEnds(s, Quiet(m, now));
      assert Quiet(m, now)[..n] == Quiet(n, now);
    } else {
      var t :| t in s.tasks && t.repeat && (t.exec || t.executeTime <= now) && t.delay < 1;
      forall n: nat ensures !EndsAfter(s, Quiet(n, now)) {
        NeverEnds(s, l, t, n);
      }
    }
  }

  lemma SubsetSize<T>(a: set<T>, b: set<T>)
    requires a <= b
    ensures |a| <= |b|
  {
    assert b == a + (b - a);
  }

  /** Each turn is a stretch of the machine's steps. */
  lemma TurnIsSteps(s: State, b: Behaviour)
    requires Consistent(s) && Due(s) && OnlyCalls(b.calls)
    ensures var steps := TurnSteps(b);
      CanRun(s, steps) && After(s, steps) == Turn(s, b)
  {
    var started := Next(s, Start);
    StepStaysConsistent(s, Start);
    CallStaysConsistent(started, b.calls);
    ThenFinish(started, b.calls, Finish(b.endedAt));
    var steps := [Start] + b.calls + [Finish(b.endedAt)];
    assert steps[1..] == b.calls + [Finish(b.endedAt)];
  }

  function TurnSteps(b: Behaviour): seq<Step> {
    [Start] + b.calls + [Finish(b.endedAt)]
  }

  function AllTurnSteps(acts: seq<Behaviour>): seq<Step> {
    if acts == [] then [] else TurnSteps(acts[0]) + AllTurnSteps(acts[1..])
  }

  /** So what holds of every sequence of steps holds of Run. */
  lemma {:induction false} TurnsAreSteps(s: State, acts: seq<Behaviour>)
    requires Consistent(s) && AllCalls(acts) && AfterTurns(s, acts).Some?
    ensures CanRun(s, AllTurnSteps(acts)) && After(s, AllTurnSteps(acts)) == AfterTurns(s, acts).value
    decreases |acts|
  {
    if acts != [] {
      TurnIsSteps(s, acts[0]);
      TurnsAreSteps(Turn(s, acts[0]), acts[1..]);
      StepsThenSteps(s, TurnSteps(acts[0]), AllTurnSteps(acts[1..]));
    }
  }

  lemma {:induction false} StepsThenSteps(s: State, a: seq<Step>, b: seq<Step>)
    requires CanRun(s, a) && CanRun(After(s, a), b)
    ensures CanRun(s, a + b) && After(s, a + b) == After(After(s, a), b)
    decreases |a|
  {
    if a == [] {
      assert a + b == b;
    } else {
      StepsThenSteps(Next(s, a[0]), a[1..], b);
      assert (a + b)[1..] == a[1..] + b;
    }
  }

  lemma {:induction false} ThenFinish(s: State, steps: seq<Step>, last: Step)
    requires CanRun(s, steps) && Enabled(After(s, steps), last)
    ensures CanRun(s, steps + [last]) && After(s, steps + [last]) == Next(After(s, steps), last)
    decreases |steps|
  {
    if steps == [] {
      assert steps + [last] == [last];
    } else {
      ThenFinish(Next(s, steps[0]), steps[1..], last);
      assert (steps + [last])[1..] == steps[1..] + [last];
    }
  }
}

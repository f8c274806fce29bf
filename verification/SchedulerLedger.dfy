/** The scheduler keeps a book with one entry per issued id: the set of tasks and the flags on them
    refine it, as long as the 32-bit counter has not wrapped. */
module SchedulerLedger {
  import opened Options
  import opened Scheduling

  datatype Info = Info(executeTime: int, delay: int, repeat: bool, action: Action)

  datatype Status =
    | Pending(info: Info)
    | Executing(info: Info, killed: bool)
    | Completed
    | Cancelled
    | Cleared
  {
    predicate Live() {
      Pending? || Executing?
    }
  }

  /** `issued` ids have been handed out: 0, 1, 2, ... in this order. */
  datatype Ledger = Ledger(issued: nat, book: map<nat, Status>)

  const BLANK := Ledger(0, map[])

  /** The effect of a step on the book. `id` is the task that a Start or Finish is about. */
  function Record(l: Ledger, step: Step, id: nat): Ledger {
    match step
    case Add(at, delay, action, repeat) =>
      Ledger(l.issued + 1, l.book[l.issued := Pending(Info(at + delay, delay, repeat, action))])
    case Remove(id) =>
      if id !in l.book then l
      else
        (match l.book[id]
         case Pending(_) => l.(book := l.book[id := Cancelled])
         case Executing(info, _) => l.(book := l.book[id := Executing(info, true)])
         case _ => l)
    case Reschedule(id, at, newDelay) =>
      if id !in l.book || !l.book[id].Pending? then l
      else l.(book := l.book[id := Pending(l.book[id].info.(delay := newDelay, executeTime := at + newDelay))])
    case Start =>
      if id !in l.book || !l.book[id].Pending? then l
      else l.(book := l.book[id := Executing(l.book[id].info, false)])
    case Finish(at) =>
      if id !in l.book || !l.book[id].Executing? then l
      else
        var Executing(info, killed) := l.book[id];
        l.(book := l.book[id :=
          if killed then Cancelled
          else if info.repeat then Pending(info.(executeTime := at + info.delay))
          else Completed])
    case Clear => l.(book := map x | x in l.book :: if l.book[x].Pending? then Cleared else l.book[x])
    case _ => l
  }

  /** The task that a step of Run is about. */
  function Subject(s: State, step: Step): nat
    requires Enabled(s, step)
  {
    match step
    case Start => s.tasks[0].id
    case Finish(_) => s.tasks[FindExecuting(s.tasks).value].id
    case _ => 0
  }

  function StatusOf(t: Task): Status {
    var info := Info(t.executeTime, t.delay, t.repeat, t.action);
    if t.exec then Executing(info, t.kill) else Pending(info)
  }

  ghost predicate HasTask(ts: seq<Task>, id: nat) {
    exists t :: t in ts && t.id == id
  }

  /** The queued tasks are exactly the live entries of the book, each exactly once. */
  ghost predicate Represents(s: State, l: Ledger) {
    && l.issued <= ID_LIMIT
    && s.nextId == (l.issued + ID_LIMIT - 1) % ID_LIMIT
    && (forall x: nat :: x in l.book <==> x < l.issued)
    && (forall t :: t in s.tasks ==> t.id in l.book && l.book[t.id] == StatusOf(t))
    && (forall t :: t in s.tasks && t.kill ==> t.exec)
    && (forall t, u :: t in s.tasks && u in s.tasks && t.id == u.id ==> t == u)
    && (forall x :: x in l.book && l.book[x].Live() ==> HasTask(s.tasks, x))
  }

  lemma InitiallyBlank()
    ensures Consistent(INITIAL) && Represents(INITIAL, BLANK)
  {
    assert forall x: nat :: x !in BLANK.book;
  }

  /** Replacing the task with one id by another with the same id, or by none, changes exactly that
      entry of the book. */
  lemma Replaced(s: State, l: Ledger, s': State, old_: Task, replacement: Option<Task>, status: Status)
    requires Represents(s, l) && old_ in s.tasks && s'.nextId == s.nextId
    requires replacement.Some? ==> replacement.value.id == old_.id && StatusOf(replacement.value) == status
    requires replacement.Some? && replacement.value.kill ==> replacement.value.exec
    requires replacement.None? ==> !status.Live()
    requires forall u :: u in s'.tasks <==> (u in s.tasks && u != old_) || replacement == Some(u)
    ensures Represents(s', l.(book := l.book[old_.id := status]))
  {
    var l' := l.(book := l.book[old_.id := status]);
    forall x | x in l'.book && l'.book[x].Live() ensures HasTask(s'.tasks, x) {
      if x == old_.id {
        assert replacement.value in s'.tasks;
      } else {
        assert HasTask(s.tasks, x);
        var t :| t in s.tasks && t.id == x;
        assert t in s'.tasks;
      }
    }
  }

  lemma FoundTask(s: State, l: Ledger, id: nat)
    requires Represents(s, l)
    ensures FindId(s.tasks, id).Some? <==> id in l.book && l.book[id].Live()
    ensures FindId(s.tasks, id).Some? ==>
      var t := s.tasks[FindId(s.tasks, id).value]; t in s.tasks && t.id == id && l.book[id] == StatusOf(t)
  {
    if id in l.book && l.book[id].Live() {
      assert HasTask(s.tasks, id);
    }
  }

  /** A task put back under another time is not lost: no other task has its id. */
  lemma Moved(s: State, l: Ledger, i: nat, t: Task)
    requires Represents(s, l) && Sorted(s.tasks) && i < |s.tasks| && t.id == s.tasks[i].id
    ensures forall u :: u in Insert(Erase(s.tasks, i), t) <==> (u in s.tasks && u != s.tasks[i]) || u == t
  {
    EraseKeeps(s.tasks, i);
    MoveKeeps(s.tasks, i, t);
  }

  lemma AddRepresents(s: State, l: Ledger, step: Step)
    requires Consistent(s) && Represents(s, l) && step.Add? && Enabled(s, step) && l.issued < ID_LIMIT
    ensures Represents(Next(s, step), Record(l, step, 0))
    ensures IssuedId(s) == l.issued && NewTask(s, step) in Next(s, step).tasks
  {
    var t := NewTask(s, step);
    var s' := Next(s, step);
    var l' := Record(l, step, 0);
    assert IssuedId(s) == l.issued;
    assert l.issued !in l.book;
    InsertKeeps(s.tasks, t);
    assert t in s'.tasks;
    forall x | x in l'.book && l'.book[x].Live() ensures HasTask(s'.tasks, x) {
      if x != l.issued {
        assert HasTask(s.tasks, x);
      }
    }
  }

  lemma CallRepresents(s: State, l: Ledger, step: Step)
    requires Consistent(s) && Represents(s, l) && Enabled(s, step) && (step.Remove? || step.Reschedule?)
    ensures Represents(Next(s, step), Record(l, step, 0))
  {
    hide Represents, Insert, Erase, FindId;
    FoundTask(s, l, step.id);
    var found := FindId(s.tasks, step.id);
    if found.Some? {
      var t := s.tasks[found.value];
      var s' := Next(s, step);
      if step.Remove? {
        RemoveKeeps(s.tasks, step.id);
        if t.exec {
          Replaced(s, l, s', t, Some(t.(kill := true)), StatusOf(t.(kill := true)));
        } else {
          Replaced(s, l, s', t, None, Cancelled);
        }
      } else if !t.exec {
        var moved := t.(delay := step.newDelay, executeTime := step.at + step.newDelay);
        NotKilled(s, l, t);
        Moved(s, l, found.value, moved);
        Replaced(s, l, s', t, Some(moved), StatusOf(moved));
      }
    }
  }

  lemma NotKilled(s: State, l: Ledger, t: Task)
    requires Represents(s, l) && t in s.tasks && !t.exec
    ensures !t.kill
  {
  }

  lemma EntryOf(s: State, l: Ledger, t: Task)
    requires Represents(s, l) && t in s.tasks
    ensures t.id in l.book && l.book[t.id] == StatusOf(t) && (t.kill ==> t.exec)
  {
  }

  lemma RunStepRepresents(s: State, l: Ledger, step: Step)
    requires Consistent(s) && Represents(s, l) && Enabled(s, step) && (step.Start? || step.Finish?)
    ensures Represents(Next(s, step), Record(l, step, Subject(s, step)))
  {
    hide Represents, Insert, Erase, FindExecuting;
    var i := if step.Start? then 0 else FindExecuting(s.tasks).value;
    var t := s.tasks[i];
    EntryOf(s, l, t);
    var s' := Next(s, step);
    if step.Start? {
      var started := t.(exec := true);
      MarkKeeps(s.tasks, 0, started);
      Replaced(s, l, s', t, Some(started), StatusOf(started));
    } else {
      var rest := t.(exec := false);
      if t.repeat && !t.kill {
        var moved := rest.(executeTime := step.at + t.delay);
        Moved(s, l, i, moved);
        Replaced(s, l, s', t, Some(moved), StatusOf(moved));
      } else {
        EraseKeeps(s.tasks, i);
        Replaced(s, l, s', t, None, if t.kill then Cancelled else Completed);
      }
    }
  }

  /** Refinement: every step of the scheduler does to the queued tasks what it does to the book, so
      no insertion loses a task and every id is in exactly one state. */
  lemma StepRepresents(s: State, l: Ledger, step: Step)
    requires Consistent(s) && Represents(s, l) && Enabled(s, step)
    requires step.Add? ==> l.issued < ID_LIMIT
    ensures Represents(Next(s, step), Record(l, step, Subject(s, step)))
  {
    if step.Add? {
      AddRepresents(s, l, step);
    } else if step.Remove? || step.Reschedule? {
      CallRepresents(s, l, step);
    } else if step.Start? || step.Finish? {
      RunStepRepresents(s, l, step);
    } else if step.Clear? {
      assert forall x :: x in l.book && l.book[x].Executing? ==> !HasTask(s.tasks, x);
      assert Record(l, step, 0).book.Keys == l.book.Keys;
    }
  }

  // ---------------------------------------------------------------- what a run shows

  datatype Event = Issued(id: nat) | RemoveCalled(id: nat) | Started(id: nat, repeat: bool, time: int)

  function Emitted(s: State, step: Step): seq<Event>
    requires Enabled(s, step)
  {
    match step
    case Add(_, _, _, _) => [Issued(IssuedId(s))]
    case Remove(id) => [RemoveCalled(id)]
    case Start => [Started(s.tasks[0].id, s.tasks[0].repeat, s.tasks[0].executeTime)]
    case _ => []
  }

  function Log(s: State, steps: seq<Step>): seq<Event>
    requires CanRun(s, steps)
    decreases |steps|
  {
    if steps == [] then [] else Emitted(s, steps[0]) + Log(Next(s, steps[0]), steps[1..])
  }

  /** The number of ids that the steps ask for. */
  function Issues(steps: seq<Step>): nat {
    if steps == [] then 0 else (if steps[0].Add? then 1 else 0) + Issues(steps[1..])
  }

  function Records(l: Ledger, s: State, steps: seq<Step>): Ledger
    requires CanRun(s, steps)
    decreases |steps|
  {
    if steps == [] then l
    else Records(Record(l, steps[0], Subject(s, steps[0])), Next(s, steps[0]), steps[1..])
  }

  /** In any run that asks for at most 2^32 ids the queue and the book agree at the end. */
  lemma {:induction false} RunRepresents(s: State, l: Ledger, steps: seq<Step>)
    requires Consistent(s) && Represents(s, l) && CanRun(s, steps)
    requires l.issued + Issues(steps) <= ID_LIMIT
    ensures Represents(After(s, steps), Records(l, s, steps))
    decreases |steps|
  {
    hide Represents, Consistent;
    if steps != [] {
      StepStaysConsistent(s, steps[0]);
      StepRepresents(s, l, steps[0]);
      RunRepresents(Next(s, steps[0]), Record(l, steps[0], Subject(s, steps[0])), steps[1..]);
    }
  }

  ghost predicate OneShotsStartOnce(log: seq<Event>) {
    forall i, j :: 0 <= i < j < |log| && log[i].Started? && !log[i].repeat ==>
      !(log[j].Started? && log[j].id == log[i].id)
  }

  ghost predicate NoStartAfterRemove(log: seq<Event>) {
    forall h, i, j :: 0 <= h < i < j < |log| && log[h].Issued? && log[i] == RemoveCalled(log[h].id) ==>
      !(log[j].Started? && log[j].id == log[h].id)
  }

  predicate Unstartable(status: Status) {
    !status.Pending? && (status.Executing? ==> status.killed)
  }

  predicate Spent(status: Status) {
    !status.Pending? && (status.Executing? ==> !status.info.repeat)
  }

  /** What the events so far say about the book. */
  ghost predicate Explains(l: Ledger, log: seq<Event>) {
    && (forall i :: 0 <= i < |log| && (log[i].Issued? || log[i].Started?) ==> log[i].id in l.book)
    && (forall i :: 0 <= i < |log| && log[i].Started? && !log[i].repeat ==> Spent(l.book[log[i].id]))
    && (forall h, i :: 0 <= h < i < |log| && log[h].Issued? && log[i] == RemoveCalled(log[h].id) ==>
          Unstartable(l.book[log[h].id]))
    && OneShotsStartOnce(log)
    && NoStartAfterRemove(log)
  }

  /** Entries of the book that cannot be started stay so, whatever step is taken. */
  lemma RecordSettles(l: Ledger, step: Step, id: nat)
    requires l.issued !in l.book
    ensures forall x :: x in l.book ==> x in Record(l, step, id).book
    ensures forall x :: x in l.book && Unstartable(l.book[x]) ==> Unstartable(Record(l, step, id).book[x])
    ensures forall x :: x in l.book && Spent(l.book[x]) ==> Spent(Record(l, step, id).book[x])
  {
  }

  lemma StepExplains(s: State, l: Ledger, step: Step, log: seq<Event>)
    requires Consistent(s) && Represents(s, l) && Enabled(s, step)
    requires step.Add? ==> l.issued < ID_LIMIT
    requires Explains(l, log)
    ensures Explains(Record(l, step, Subject(s, step)), log + Emitted(s, step))
  {
    var l' := Record(l, step, Subject(s, step));
    RecordSettles(l, step, Subject(s, step));
    assert Explains(l', log);
    if step.Start? {
      EntryOf(s, l, s.tasks[0]);
      assert !s.tasks[0].exec by { assert s.tasks[0] in s.tasks; }
      StartExplains(l, l', log, s.tasks[0].id, s.tasks[0].repeat, s.tasks[0].executeTime);
    } else if step.Add? {
      AddRepresents(s, l, step);
      IssueExplains(l', log, l.issued);
    } else if step.Remove? {
      RemoveExplains(l', log, step.id);
    } else {
      assert log + Emitted(s, step) == log;
    }
  }

  lemma StartExplains(l: Ledger, l': Ledger, log: seq<Event>, id: nat, repeat: bool, time: int)
    requires Explains(l, log) && Explains(l', log)
    requires id in l.book && l.book[id].Pending? && l.book[id].info.repeat == repeat
    requires l'.book == l.book[id := Executing(l.book[id].info, false)]
    ensures Explains(l', log + [Started(id, repeat, time)])
  {
  }

  lemma IssueExplains(l: Ledger, log: seq<Event>, id: nat)
    requires Explains(l, log) && id in l.book
    ensures Explains(l, log + [Issued(id)])
  {
  }

  lemma RemoveExplains(l: Ledger, log: seq<Event>, id: nat)
    requires Explains(l, log)
    requires id in l.book ==> Unstartable(l.book[id])
    ensures Explains(l, log + [RemoveCalled(id)])
  {
  }

  lemma {:induction false} RunExplains(s: State, l: Ledger, steps: seq<Step>, log: seq<Event>)
    requires Consistent(s) && Represents(s, l) && CanRun(s, steps)
    requires l.issued + Issues(steps) <= ID_LIMIT
    requires Explains(l, log)
    ensures Explains(Records(l, s, steps), log + Log(s, steps))
    decreases |steps|
  {
    hide Represents, Consistent, Explains, Emitted;
    if steps == [] {
      assert log + Log(s, steps) == log;
    } else {
      var step := steps[0];
      StepStaysConsistent(s, step);
      StepRepresents(s, l, step);
      StepExplains(s, l, step, log);
      var log' := log + Emitted(s, step);
      assert log + Log(s, steps) == log' + Log(Next(s, step), steps[1..]);
      RunExplains(Next(s, step), Record(l, step, Subject(s, step)), steps[1..], log');
    }
  }

  lemma ExplainedIsSafe(l: Ledger, log: seq<Event>)
    requires Explains(l, log)
    ensures OneShotsStartOnce(log) && NoStartAfterRemove(log)
  {
  }

  /** One-shot tasks start at most once, and no task starts again after RemoveTask has been called
      on it, in every run that asks for at most 2^32 ids and whatever its actions do. */
  lemma RunsAreSafe(steps: seq<Step>)
    requires CanRun(INITIAL, steps) && Issues(steps) <= ID_LIMIT
    ensures OneShotsStartOnce(Log(INITIAL, steps)) && NoStartAfterRemove(Log(INITIAL, steps))
    ensures Represents(After(INITIAL, steps), Records(BLANK, INITIAL, steps))
  {
    InitiallyBlank();
    assert Explains(BLANK, []);
    hide Explains, Represents, Consistent, OneShotsStartOnce, NoStartAfterRemove, Log, Records, After;
    RunExplains(INITIAL, BLANK, steps, []);
    RunRepresents(INITIAL, BLANK, steps);
    assert [] + Log(INITIAL, steps) == Log(INITIAL, steps);
    ExplainedIsSafe(Records(BLANK, INITIAL, steps), Log(INITIAL, steps));
  }

  // ---------------------------------------------------------------- beyond 2^32 ids

  /** n tasks, numbered from `id` on, each queued for the time `at` and removed again. */
  function Churn(id: nat, n: nat, at: int, action: Action): seq<Step>
    decreases n
  {
    if n == 0 then [] else [Add(at, 0, action, false), Remove(id)] + Churn(id + 1, n - 1, at, action)
  }

  lemma {:induction false} ChurnOnlyCounts(t: Task, id: nat, n: nat, at: int, action: Action)
    requires t.id < id && id + n <= ID_LIMIT && t.executeTime < at
    ensures var s, steps := State([t], id - 1, Idle), Churn(id, n, at, action);
      CanRun(s, steps) && After(s, steps) == State([t], id + n - 1, Idle)
    decreases n
  {
    if n > 0 {
      var s, steps := State([t], id - 1, Idle), Churn(id, n, at, action);
      var u := Task(id, false, false, false, at, 0, action);
      assert IssuedId(s) == id;
      assert Insert([t], u) == [t, u] by { assert Insert([t][1..], u) == [u]; }
      assert RemoveTask([t, u], id) == [t] by {
        assert FindId([t, u][1..], id) == Some(0);
        assert Erase([t, u], 1) == [t];
      }
      ChurnOnlyCounts(t, id + 1, n - 1, at, action);
      assert steps[1..][1..] == Churn(id + 1, n - 1, at, action);
    }
  }

  /** After 2^32 ids the counter has wrapped, and AddTask can lose a task: for any first task there is
      a run from the start after which queuing another one for the same time returns the first one's
      id and queues nothing. */
  lemma WrappedIdLosesTask(first: Step, again: Step) returns (steps: seq<Step>)
    requires first.Add? && again.Add? && first.at + first.delay == again.at + again.delay
    ensures CanRun(INITIAL, steps) && steps != [] && steps[0] == first
    ensures var s := After(INITIAL, steps);
      && s.tasks == [NewTask(INITIAL, first)]
      && Enabled(s, again) && Next(s, again).tasks == s.tasks && IssuedId(s) == s.tasks[0].id
  {
    var t := NewTask(INITIAL, first);
    var n: nat :| n == ID_LIMIT - 1;
    var later := Churn(1, n, t.executeTime + 1, first.action);
    steps := [first] + later;
    assert Next(INITIAL, first) == State([t], 0, Idle);
    ChurnOnlyCounts(t, 1, n, t.executeTime + 1, first.action);
    assert steps[1..] == later;
    var u := Task(0, again.repeat, false, false, t.executeTime, again.delay, again.action);
    assert Insert([t], u) == [t];
  }
}

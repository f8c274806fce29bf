/** The task scheduler (src/task_scheduler.cpp) as a machine whose steps are its calls and the
    points of Run at which an action begins and ends. Actions run while Run holds the lock, so any
    call may happen between the beginning and the end of an action. */
module Scheduling {
  import opened Options

  /** What a queued std::function does when it is called. */
  datatype Action = Import(path: string) | Callback(n: nat)

  datatype Task = Task(
    id: nat,
    repeat: bool,
    exec: bool,
    kill: bool,
    executeTime: int,
    delay: int,
    action: Action)

  const ID_LIMIT: nat := 0x1_0000_0000

  /** Task::operator<. */
  predicate Before(a: Task, b: Task) {
    a.executeTime < b.executeTime || (a.executeTime == b.executeTime && a.id < b.id)
  }

  predicate SameKey(a: Task, b: Task) {
    a.executeTime == b.executeTime && a.id == b.id
  }

  /** Where Run is: not running, between two actions, or inside one. */
  datatype Phase = Idle | Running(now: int) | Acting(now: int)

  /** `tasks` is the std::set in its order; nextId is the counter before it is incremented. */
  datatype State = State(tasks: seq<Task>, nextId: nat, phase: Phase)

  const INITIAL := State([], ID_LIMIT - 1, Idle)

  /** std::set insertion: an element with an equivalent key keeps the newcomer out. */
  function Insert(ts: seq<Task>, t: Task): seq<Task> {
    if ts == [] then [t]
    else if Before(t, ts[0]) then [t] + ts
    else if Before(ts[0], t) then [ts[0]] + Insert(ts[1..], t)
    else ts
  }

  function Erase(ts: seq<Task>, i: nat): seq<Task>
    requires i < |ts|
  {
    ts[..i] + ts[i + 1..]
  }

  /** std::find_if over the ids. */
  function FindId(ts: seq<Task>, id: nat): (i: Option<nat>)
    ensures i.Some? ==> i.value < |ts| && ts[i.value].id == id
    ensures i.None? ==> forall t :: t in ts ==> t.id != id
  {
    if ts == [] then None
    else if ts[0].id == id then Some(0)
    else
      match FindId(ts[1..], id)
      case None => None
      case Some(i) => Some(i + 1)
  }

  /** The element that Run's iterator designates while its action is executing. */
  function FindExecuting(ts: seq<Task>): (i: Option<nat>)
    ensures i.Some? ==> i.value < |ts| && ts[i.value].exec
    ensures i.None? ==> forall t :: t in ts ==> !t.exec
  {
    if ts == [] then None
    else if ts[0].exec then Some(0)
    else
      match FindExecuting(ts[1..])
      case None => None
      case Some(i) => Some(i + 1)
  }

  /** Each step carries the clock readings that the code takes during it. */
  datatype Step =
    | Add(at: int, delay: int, action: Action, repeat: bool)
    | Remove(id: nat)
    | Reschedule(id: nat, at: int, newDelay: int)
    | Enter(at: int)
    | Start
    | Finish(at: int)
    | Exit
    | Clear

  predicate IsCall(step: Step) {
    step.Add? || step.Remove? || step.Reschedule?
  }

  /** Run finds its first task due. */
  predicate Due(s: State) {
    s.phase.Running? && s.tasks != [] && s.phase.now >= s.tasks[0].executeTime
  }

  predicate Enabled(s: State, step: Step) {
    match step
    case Add(_, _, _, _) => !s.phase.Running?
    case Remove(_) => !s.phase.Running?
    case Reschedule(_, _, _) => !s.phase.Running?
    case Enter(_) => s.phase.Idle?
    case Start => Due(s)
    case Finish(_) => s.phase.Acting? && FindExecuting(s.tasks).Some?
    case Exit => s.phase.Running? && !Due(s)
    case Clear => s.phase.Idle?
  }

  function IssuedId(s: State): nat {
    (s.nextId + 1) % ID_LIMIT
  }

  function NewTask(s: State, step: Step): Task
    requires step.Add?
  {
    Task(IssuedId(s), step.repeat, false, false, step.at + step.delay, step.delay, step.action)
  }

  function Next(s: State, step: Step): State
    requires Enabled(s, step)
  {
    match step
    case Add(_, _, _, _) => s.(tasks := Insert(s.tasks, NewTask(s, step)), nextId := IssuedId(s))
    case Remove(id) => s.(tasks := RemoveTask(s.tasks, id))
    case Reschedule(id, at, newDelay) => s.(tasks := RescheduleTask(s.tasks, id, at, newDelay))
    case Enter(at) => s.(phase := Running(at))
    case Start => s.(tasks := s.tasks[0 := s.tasks[0].(exec := true)], phase := Acting(s.phase.now))
    case Finish(at) =>
      s.(tasks := FinishTask(s.tasks, FindExecuting(s.tasks).value, at), phase := Running(s.phase.now))
    case Exit => s.(phase := Idle)
    case Clear => s.(tasks := [])
  }

  function RemoveTask(ts: seq<Task>, id: nat): seq<Task> {
    match FindId(ts, id)
    case None => ts
    case Some(i) => if ts[i].exec then ts[i := ts[i].(kill := true)] else Erase(ts, i)
  }

  function RescheduleTask(ts: seq<Task>, id: nat, at: int, newDelay: int): seq<Task> {
    match FindId(ts, id)
    case None => ts
    case Some(i) =>
      if ts[i].exec then ts
      else Insert(Erase(ts, i), ts[i].(delay := newDelay, executeTime := at + newDelay))
  }

  function FinishTask(ts: seq<Task>, i: nat, at: int): seq<Task>
    requires i < |ts|
  {
    var t := ts[i].(exec := false);
    if t.repeat && !t.kill then Insert(Erase(ts, i), t.(executeTime := at + t.delay)) else Erase(ts, i)
  }

  predicate CanRun(s: State, steps: seq<Step>)
    decreases |steps|
  {
    steps != [] ==> Enabled(s, steps[0]) && CanRun(Next(s, steps[0]), steps[1..])
  }

  function After(s: State, steps: seq<Step>): State
    requires CanRun(s, steps)
    decreases |steps|
  {
    if steps == [] then s else After(Next(s, steps[0]), steps[1..])
  }

  // ---------------------------------------------------------------- the set and its order

  ghost predicate Sorted(ts: seq<Task>) {
    forall i, j :: 0 <= i < j < |ts| ==> Before(ts[i], ts[j])
  }

  /** Exactly the task that Run has called is executing, and it is not lost meanwhile. */
  ghost predicate Consistent(s: State) {
    && Sorted(s.tasks)
    && (s.phase.Acting? <==> exists t :: t in s.tasks && t.exec)
    && forall t, u :: t in s.tasks && u in s.tasks && t.exec && u.exec ==> t == u
  }

  lemma {:induction false} InsertKeeps(ts: seq<Task>, t: Task)
    requires Sorted(ts)
    ensures Sorted(Insert(ts, t))
    ensures forall u :: u in Insert(ts, t) ==> u in ts || u == t
    ensures forall u :: u in ts ==> u in Insert(ts, t)
    ensures t in Insert(ts, t) || HasKey(ts, t)
  {
    if ts != [] && !Before(t, ts[0]) {
      if Before(ts[0], t) {
        var rest := Insert(ts[1..], t);
        InsertKeeps(ts[1..], t);
        assert forall u :: u in ts[1..] ==> Before(ts[0], u);
        forall j | 0 <= j < |rest| ensures Before(ts[0], rest[j]) {
          assert rest[j] in rest;
        }
      } else {
        assert SameKey(ts[0], t);
      }
    }
  }

  ghost predicate HasKey(ts: seq<Task>, t: Task) {
    exists u :: u in ts && SameKey(u, t)
  }

  lemma HasKeyInTail(ts: seq<Task>, t: Task)
    requires ts != [] && !SameKey(ts[0], t)
    ensures HasKey(ts, t) <==> HasKey(ts[1..], t)
  {
    assert ts == [ts[0]] + ts[1..];
  }

  /** An insertion loses the new task exactly when one with the same time and id is there. */
  lemma {:induction false} InsertLosesIff(ts: seq<Task>, t: Task)
    requires Sorted(ts)
    ensures HasKey(ts, t) <==> Insert(ts, t) == ts
    ensures !HasKey(ts, t) ==> t in Insert(ts, t) && |Insert(ts, t)| == |ts| + 1
  {
    if ts != [] {
      if Before(t, ts[0]) {
        forall u | u in ts ensures !SameKey(u, t) {
          FirstIsLeast(ts, u);
        }
      } else if Before(ts[0], t) {
        InsertLosesIff(ts[1..], t);
        HasKeyInTail(ts, t);
        hide HasKey, Sorted;
        assert ts == [ts[0]] + ts[1..];
        assert Insert(ts, t) == ts ==> Insert(ts, t)[1..] == ts[1..];
      } else {
        assert SameKey(ts[0], t);
      }
    }
  }

  lemma EraseKeeps(ts: seq<Task>, i: nat)
    requires Sorted(ts) && i < |ts|
    ensures Sorted(Erase(ts, i))
    ensures forall u :: u in Erase(ts, i) <==> u in ts && u != ts[i]
  {
    var rest := Erase(ts, i);
    forall u | u in rest ensures u in ts && u != ts[i] {
      var j :| 0 <= j < |rest| && rest[j] == u;
      var k := if j < i then j else j + 1;
      assert ts[k] == u;
      assert Before(ts[k], ts[i]) || Before(ts[i], ts[k]);
    }
    forall u | u in ts && u != ts[i] ensures u in rest {
      var k :| 0 <= k < |ts| && ts[k] == u;
      assert rest[if k < i then k else k - 1] == u;
    }
  }

  /** Marking a task in place moves nothing. */
  lemma MarkKeeps(ts: seq<Task>, i: nat, t: Task)
    requires Sorted(ts) && i < |ts| && SameKey(ts[i], t)
    ensures Sorted(ts[i := t])
    ensures forall u :: u in ts[i := t] <==> u == t || (u in ts && u != ts[i])
  {
    var marked := ts[i := t];
    forall u | u in ts && u != ts[i] ensures u in marked {
      var k :| 0 <= k < |ts| && ts[k] == u;
      assert marked[k] == u;
    }
    forall u | u in marked && u != t ensures u in ts && u != ts[i] {
      var k :| 0 <= k < |marked| && marked[k] == u;
      assert ts[k] == u;
      assert Before(ts[k], ts[i]) || Before(ts[i], ts[k]);
    }
    assert marked[i] == t;
  }

  lemma FirstIsLeast(ts: seq<Task>, t: Task)
    requires Sorted(ts) && t in ts
    ensures t == ts[0] || Before(ts[0], t)
  {
  }

  // ---------------------------------------------------------------- every step keeps it

  lemma EmptyIsSorted()
    ensures Sorted([])
  {
  }

  lemma RemoveKeeps(ts: seq<Task>, id: nat)
    requires Sorted(ts)
    ensures Sorted(RemoveTask(ts, id))
    ensures match FindId(ts, id)
      case None => true
      case Some(i) =>
        forall u :: u in RemoveTask(ts, id) <==>
          (u in ts && u != ts[i]) || (ts[i].exec && u == ts[i].(kill := true))
  {
    match FindId(ts, id)
    case None =>
    case Some(i) =>
      if ts[i].exec {
        MarkKeeps(ts, i, ts[i].(kill := true));
      } else {
        EraseKeeps(ts, i);
      }
  }

  /** Taking a task out and putting it back under another time. */
  lemma MoveKeeps(ts: seq<Task>, i: nat, t: Task)
    requires Sorted(ts) && i < |ts|
    ensures var moved := Insert(Erase(ts, i), t);
      && Sorted(moved)
      && (forall u :: u in moved ==> u == t || (u in ts && u != ts[i]))
      && (forall u :: u in ts && u != ts[i] ==> u in moved)
      && (t in moved || HasKey(Erase(ts, i), t))
  {
    EraseKeeps(ts, i);
    InsertKeeps(Erase(ts, i), t);
  }

  /** What every step keeps, whatever actions do and however many ids have been issued. */
  lemma StepStaysConsistent(s: State, step: Step)
    requires Consistent(s) && Enabled(s, step)
    ensures Consistent(Next(s, step))
  {
    hide Sorted, Insert, Erase, FindId, FindExecuting;
    match step
    case Add(_, _, _, _) => InsertKeeps(s.tasks, NewTask(s, step));
    case Remove(id) => RemoveStaysConsistent(s, id);
    case Reschedule(id, at, newDelay) =>
      if FindId(s.tasks, id).Some? && !s.tasks[FindId(s.tasks, id).value].exec {
        var i := FindId(s.tasks, id).value;
        MoveKeeps(s.tasks, i, s.tasks[i].(delay := newDelay, executeTime := at + newDelay));
      }
    case Enter(_) =>
    case Start => MarkKeeps(s.tasks, 0, s.tasks[0].(exec := true));
    case Finish(at) =>
      var i := FindExecuting(s.tasks).value;
      EraseKeeps(s.tasks, i);
      MoveKeeps(s.tasks, i, s.tasks[i].(exec := false, executeTime := at + s.tasks[i].delay));
    case Exit =>
    case Clear => EmptyIsSorted();
  }

  lemma RemoveStaysConsistent(s: State, id: nat)
    requires Consistent(s) && Enabled(s, Remove(id))
    ensures Consistent(Next(s, Remove(id)))
  {
    hide Sorted, Erase, FindId;
    RemoveKeeps(s.tasks, id);
    var ts := RemoveTask(s.tasks, id);
    match FindId(s.tasks, id)
    case None =>
    case Some(i) =>
      if s.tasks[i].exec {
        assert s.tasks[i].(kill := true) in ts;
      } else if s.phase.Acting? {
        var t :| t in s.tasks && t.exec;
        assert t in ts;
      }
  }

  lemma {:induction false} RunStaysConsistent(s: State, steps: seq<Step>)
    requires Consistent(s) && CanRun(s, steps)
    ensures Consistent(After(s, steps))
    decreases |steps|
  {
    if steps != [] {
      StepStaysConsistent(s, steps[0]);
      RunStaysConsistent(Next(s, steps[0]), steps[1..]);
    }
  }

  /** The end of an action is never blocked: the executing task is still in the set. */
  lemma ActionCanFinish(s: State, at: int)
    requires Consistent(s) && s.phase.Acting?
    ensures Enabled(s, Finish(at))
  {
  }
}

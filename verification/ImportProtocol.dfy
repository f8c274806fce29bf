/** Dynamic import (src/module.cpp): promises, the table of imports under way, and the scheduler
    tasks that load them, as one machine. JavaScript runs inside two of its calls, the evaluation of
    a module by an import task and by the embedder's own resolver, and may take any step there. */
module ImportProtocol {
  import opened Options
  import opened Scheduling
  import opened SchedulerLedger

  /** A promise and its resolver are named by their number. */
  type Promise = nat

  datatype Verdict = Fulfilled | Rejected

  datatype PromiseState = Unsettled | Settled(verdict: Verdict)

  /** How LoadModule ends for an import task; `caught` is an exception noticed after the rest. */
  datatype Outcome =
    | LoadFailed
    | Evaluated(verdict: Verdict, caught: bool)
    | StillEvaluating(caught: bool)

  /** A call in progress that will come back to a promise, or an action that has none. */
  datatype Frame =
    | CustomImport(promise: Promise)
    | ImportTask(promise: Promise)
    | OtherTask

  /** `handlers` are the promises held by a pair of reactions to a pending evaluation, `frames` the
      calls in progress, innermost first, and `returned` every promise that an import() has given to
      JavaScript. */
  datatype Host = Host(
    queue: State,
    ledger: Ledger,
    dynamicImports: map<string, Promise>,
    promises: seq<PromiseState>,
    handlers: seq<Promise>,
    frames: seq<Frame>,
    returned: set<Promise>)

  const START := Host(INITIAL, BLANK, map[], [], [], [], {})

  datatype Move =
    | ImportFails                         // the search finds nothing and no custom resolver helps
    | CustomBegin                         // the custom resolver gives a module, which is evaluated
    | CustomEnd(verdict: Verdict)
    | ImportFound(path: string, at: int)  // the search finds a file
    | TaskBegin                           // Run calls its first task
    | TaskEnd(outcome: Outcome, at: int)
    | Reaction(handler: nat, verdict: Verdict)
    | UserCall(call: Step)                // setTimeout, setInterval, clearTimeout, clearInterval
    | Enter(at: int)
    | Exit

  predicate Allowed(h: Host, move: Move) {
    match move
    case ImportFails => !h.queue.phase.Running?
    case CustomBegin => !h.queue.phase.Running?
    case CustomEnd(_) => h.frames != [] && h.frames[0].CustomImport?
    case ImportFound(_, _) => !h.queue.phase.Running?
    case TaskBegin => h.frames == [] && Enabled(h.queue, Start)
    case TaskEnd(_, at) => h.frames != [] && !h.frames[0].CustomImport? && Enabled(h.queue, Finish(at))
    case Reaction(handler, _) => handler < |h.handlers|
    case UserCall(call) =>
      && IsCall(call)
      && Enabled(h.queue, call)
      && (call.Add? ==> call.action.Callback?)
    case Enter(at) => h.frames == [] && Enabled(h.queue, Step.Enter(at))
    case Exit => h.frames == [] && Enabled(h.queue, Step.Exit)
  }

  /** Settling a promise that is settled already is ignored. */
  function Settle(promises: seq<PromiseState>, p: Promise, verdict: Verdict): (settled: seq<PromiseState>)
    ensures |settled| == |promises|
  {
    if p < |promises| && promises[p].Unsettled? then promises[p := Settled(verdict)] else promises
  }

  /** One step of the scheduler, with its book. */
  function Schedule(h: Host, step: Step): Host
    requires Enabled(h.queue, step)
  {
    h.(queue := Next(h.queue, step), ledger := Record(h.ledger, step, Subject(h.queue, step)))
  }

  function QueueImport(path: string, at: int): Step {
    Add(at, 0, Import(path), false)
  }

  function NewPromise(h: Host): Host {
    h.(promises := h.promises + [Unsettled])
  }

  function Give(h: Host, p: Promise): Host {
    h.(returned := h.returned + {p})
  }

  function Take(h: Host, move: Move): Host
    requires Allowed(h, move)
  {
    match move
    case ImportFails =>
      var p := |h.promises|;
      Give(h.(promises := h.promises + [Settled(Rejected)]), p)
    case CustomBegin =>
      NewPromise(h).(frames := [CustomImport(|h.promises|)] + h.frames)
    case CustomEnd(verdict) =>
      var p := h.frames[0].promise;
      Give(h.(promises := Settle(h.promises, p, verdict), frames := h.frames[1..]), p)
    case ImportFound(path, at) => Find(h, path, at)
    case TaskBegin => Begin(h)
    case TaskEnd(outcome, at) => Schedule(End(h, outcome), Finish(at))
    case Reaction(handler, verdict) =>
      h.(promises := Settle(h.promises, h.handlers[handler], verdict),
         handlers := h.handlers[..handler] + h.handlers[handler + 1..])
    case UserCall(call) => Schedule(h, call)
    case Enter(at) => Schedule(h, Step.Enter(at))
    case Exit => Schedule(h, Step.Exit)
  }

  /** ImportDynamic for a specifier that the search resolves: an import of the path that is under
      way is shared; the resolver made for this call is then dropped. */
  function Find(h: Host, path: string, at: int): Host
    requires !h.queue.phase.Running?
  {
    if path in h.dynamicImports then
      Give(NewPromise(h), h.dynamicImports[path])
    else
      var p := |h.promises|;
      Give(Schedule(NewPromise(h).(dynamicImports := h.dynamicImports[path := p]), QueueImport(path, at)), p)
  }

  /** The import task looks its resolver up and takes it out of the table. */
  function Begin(h: Host): Host
    requires Enabled(h.queue, Start)
  {
    var action := h.queue.tasks[0].action;
    var h' := Schedule(h, Start);
    if action.Import? && action.path in h.dynamicImports then
      h'.(dynamicImports := h.dynamicImports - {action.path},
          frames := [ImportTask(h.dynamicImports[action.path])] + h.frames)
    else
      h'.(frames := [OtherTask] + h.frames)
  }

  /** What LoadModule and its caller do with the resolver. */
  function End(h: Host, outcome: Outcome): Host
    requires h.frames != []
  {
    var h' := h.(frames := h.frames[1..]);
    if !h.frames[0].ImportTask? then h'
    else
      var p := h.frames[0].promise;
      match outcome
      case LoadFailed => h'.(promises := Settle(h.promises, p, Rejected))
      case Evaluated(verdict, caught) =>
        var settled := Settle(h.promises, p, verdict);
        h'.(promises := if caught then Settle(settled, p, Rejected) else settled)
      case StillEvaluating(caught) =>
        h'.(handlers := h.handlers + [p],
            promises := if caught then Settle(h.promises, p, Rejected) else h.promises)
  }

  /** The promise that the import() of this move gives to JavaScript. */
  function Given(h: Host, path: string): Promise {
    if path in h.dynamicImports then h.dynamicImports[path] else |h.promises|
  }

  predicate CanTake(h: Host, moves: seq<Move>)
    decreases |moves|
  {
    moves != [] ==> Allowed(h, moves[0]) && CanTake(Take(h, moves[0]), moves[1..])
  }

  function TakeAll(h: Host, moves: seq<Move>): Host
    requires CanTake(h, moves)
    decreases |moves|
  {
    if moves == [] then h else TakeAll(Take(h, moves[0]), moves[1..])
  }

  // ---------------------------------------------------------------- who owns what

  ghost predicate QueuedImport(t: Task, path: string) {
    !t.exec && t.action == Import(path)
  }

  ghost predicate Awaited(h: Host, path: string) {
    exists t :: t in h.queue.tasks && QueuedImport(t, path)
  }

  /** The paths in the table are exactly those of the import tasks that are queued and not
      executing, each of exactly one. */
  ghost predicate Owned(h: Host) {
    && (forall path :: path in h.dynamicImports <==> Awaited(h, path))
    && (forall t, u, path :: t in h.queue.tasks && u in h.queue.tasks && QueuedImport(t, path) && QueuedImport(u, path)
          ==> t == u)
  }

  /** The promises that the calls in progress will come back to. */
  function FramePromises(frames: seq<Frame>): seq<Promise> {
    if frames == [] then []
    else (if frames[0].OtherTask? then [] else [frames[0].promise]) + FramePromises(frames[1..])
  }

  /** How many owners a promise has: entries of the table, pending reactions and calls in progress. */
  function Owners(h: Host, p: Promise): nat {
    (if p in h.dynamicImports.Values then 1 else 0)
    + multiset(h.handlers)[p]
    + multiset(FramePromises(h.frames))[p]
  }

  predicate Open(h: Host, p: Promise) {
    p < |h.promises| && h.promises[p].Unsettled?
  }

  /** No promise has two owners, what the table and the calls in progress hold is not settled yet,
      and every promise handed out is settled or has an owner. */
  ghost predicate Kept(h: Host) {
    && (forall path :: path in h.dynamicImports ==> Open(h, h.dynamicImports[path]))
    && (forall path, path' :: path in h.dynamicImports && path' in h.dynamicImports && path != path'
          ==> h.dynamicImports[path] != h.dynamicImports[path'])
    && (forall p :: p in h.handlers ==> p < |h.promises|)
    && (forall p :: p in FramePromises(h.frames) ==> Open(h, p))
    && (forall p :: Owners(h, p) <= 1)
    && (forall p :: p in h.returned ==> p < |h.promises| && (h.promises[p].Settled? || Owners(h, p) == 1))
  }

  /** The scheduler is sound and import tasks are never repeated. */
  ghost predicate Sound(h: Host) {
    && Consistent(h.queue)
    && Represents(h.queue, h.ledger)
    && forall t :: t in h.queue.tasks && t.action.Import? ==> !t.repeat
  }

  /** A timer is cleared by the number of a queued import task. */
  ghost predicate CancelsImport(h: Host, move: Move) {
    && move.UserCall? && move.call.Remove?
    && exists t :: t in h.queue.tasks && t.id == move.call.id && !t.exec && t.action.Import?
  }
}

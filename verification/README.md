# A model of the Plugify JavaScript (V8) language module

This project models the stateful parts of the V8 language module for Plugify and proves what they keep:
the registry of ES modules and the fetch of an import graph, the task scheduler, dynamic imports on top
of it, calls between JavaScript and native code, CommonJS `require`, the search for module files and the
string conversions. `dafny verify dfyconfig.toml` checks all of it.

Each part has the same shape. A module of functions gives the effect of every call on the state as a
value (`ModuleGraph`, `Scheduling`, `ImportProtocol`, `Calls`, `CommonJs`). Lemmas prove what those
functions keep over whole runs. A class or a set of methods (`ModuleRegistries`, `TaskSchedulers`,
`ImportHosts`, `CallMethods`, `CommonJsLoaders`, `ModuleLoader`) performs the same calls by updating
fields in place and in loops, as the code does, and each method is proved to have exactly the effect of
its function. A third kind of module (`RequestMeaning`, `ImportVerdicts`, `CallLayout`, `ConversionMeaning`,
`CommonJsBodies`, `SearchOrder`) says what the functions mean in plain terms, characters of names, times, types
and verdicts, so that each answer is fixed and not only consistent.

## What is modelled

* **Module registry** (`ModuleGraph`, `FetchInvariants`, `FetchOutcome`, `FetchRuns`, `RequestMeaning`,
  `ModuleRegistries`). `FetchESModuleTree` is a recursive depth-first load that changes `_pathToModule`,
  `_idToModuleInfo` and the resolve caches as it goes and takes its own entry out again when a request
  fails. A fetch succeeds exactly when no file reachable in the import graph is broken, and then registers
  exactly the reachable files; after a failure that has left an untracked edge, exactly when none is
  reachable past the files that are registered. A failed fetch keeps everything that was there, leaves no
  half-built entry, and leaves an edge to an erased module exactly when the import graph meets the static
  condition `Strands`; over a whole run, exactly when some fetched path is `Poisonous`.
* **Task scheduler** (`Scheduling`, `SchedulerLedger`, `SchedulerTiming`, `TaskSchedulers`). Actions run
  inside `Run` and may add, remove and reschedule tasks. An action is any sequence of such calls, with any
  clock readings. The set of tasks refines a book with one entry per issued id.
* **Dynamic import** (`ImportProtocol`, `ImportOwnership`, `ImportPromises`, `ImportVerdicts`,
  `ImportHosts`). Promises, the `_dynamicImports` table, the queued import tasks and the reactions to pending
  evaluations form one machine; JavaScript that runs during an evaluation may take any further step of it.
* **Calls** (`Conversions`, `ConversionMeaning`, `Calls`, `CallTransparency`, `CallLayout`, `CallMethods`).
  `ExternalCall` and `InternalCall` for any signature that mixes values, objects, references and a hidden
  return. Composed, they answer as a direct call does.
* **CommonJS** (`CommonJs`, `CommonJsBodies`, `CommonJsCaches`, `CommonJsSlots`, `CommonJsLoaders`). The two
  caches and the storage of the modules being loaded, for any file contents and any nesting of calls to
  `require`, those that an ES module makes while it is fetched and evaluated included.
* **Search and strings** (`ModuleLoader`, `SearchOrder`, `StringLiterals`, `Utf`, `Paths`).

The file system, the request lists of files, the outcome of evaluating a file, the clock and what a
script or an action does are parameters: every result is for all of them.

## Where the code and its comments differ

The model follows the code.

* src/module.cpp:4602-4604 says that a failed fetch leaves no half-built module for the next import to
  pick up. It does leave complete entries that lead to an erased module when the imports form a cycle
  (`FetchRuns.RollbackCanStrand`, `FetchRuns.PoisonIsObservable`).
* src/module.cpp:595-601 and 602-608 prepare for an overflow error, but the range check compares the
  converted value with its own type (src/module.cpp:373-376), so numbers that do not fit wrap around
  (`Conversions.IntegersWrapAround`).
* src/module.cpp:4144-4146 says that returning a module always means the resolver has been settled; with
  a pending evaluation it has been handed to a reaction instead (`ImportPromises.NoPromiseIsDropped`).
* The rollback in lib/pps.js:178-179 leaves the keys in both caches, so a file whose load has failed is
  not loaded again (`CommonJsCaches.ThrowingScriptIsUndefined`, `CommonJsCaches.FailedLoadIsFinal`).
* lib/pps.js:139 reads the file before the `try` block, so a file that cannot be read keeps its slot and a
  registered record with empty exports (`CommonJsSlots.UnreadableFileStaysRegistered`,
  `CommonJsSlots.StorageIsFreeIff`).
* Nothing keeps a script from passing `clearTimeout` the number of a queued import task
  (src/builtin/timers.hpp:42-43); while at most 2^32 ids have been handed out, that is the one way in which
  an import promise can be dropped (`ImportPromises.NoPromiseIsDropped`,
  `ImportPromises.ClearTimeoutStrandsImport`). Once the ids have wrapped, an import can also lose its task to
  another one with the same id and time (`ImportPromises.WrappedIdDropsImport`).

## Model

| member | source | states |
|---|---|---|
| ModuleGraph.Fetch | src/module.cpp:4553-4704 | a fetch terminates on every finite set of files, changes no entry that was there, and gives the registered module without any change when the path is registered; the path is registered afterwards exactly when the fetch succeeds |
| ModuleGraph.FetchRequests | src/module.cpp:4605-4695 | the loop over the requests changes no entry but that of the importing module, whose recorded resolutions stay |
| ModuleGraph.FetchRequest | src/module.cpp:4608-4692 | a request that resolves has a resolveCache entry |
| RequestMeaning.FetchedImportsAnswered | src/module.cpp:4608-4692 | after a successful fetch from a closed registry every import of the file resolves: one that starts with a colon to a module made for that extension, without an entry; one whose search finds a .js or .mjs file to the module which that file is registered under; every other one to a module with an entry of its own, made from what require returned for the file found, if it is a .cjs file, and otherwise for the specifier |
| RequestMeaning.RegisteredImportsAnswered | src/module.cpp:4608-4692 | the same for every registered file of a closed registry |
| RequestMeaning.FetchedSyntheticIsNew | src/module.cpp:4706-4774 | the modules recorded for imports that are not of ES modules have been made by the fetch |
| RequestMeaning.OtherwiseUnresolved | src/module.cpp:4921-4934 | what a registered file does not import is not found from it, and a module without an entry is an unknown referrer |
| RequestMeaning.ForeignIsTracked | src/module.cpp:4405-4409 | a module from the embedder's resolver gets an entry of its own |
| RequestMeaning.LastFileFetchedIff | src/module.cpp:4605-4695 | a file whose ES imports are registered is fetched exactly when it compiles, the extensions it names load and require returns for its other imports |
| Paths.PathParts | src/module.cpp:4597-4598 | every path is taken apart behind its last separator |
| Paths.ExtensionParts | src/module.cpp:4675 | the extension of a file name starts at its last dot, if that is not its first character |
| FetchInvariants.FetchKeeps | src/module.cpp:4553-4704 | whatever fetches are in progress around it, a fetch leaves only complete entries besides theirs, registers only files the path imports its way to, keeps every ES edge tracked if it succeeds, and otherwise leaves untracked only edges back to modules it erased, along an import cycle |
| FetchInvariants.FetchRequestsKeeps | src/module.cpp:4605-4695 | the same for the loop over the requests of a file; when it completes, that file's entry is complete |
| FetchInvariants.UnregisterKeeps | src/module.cpp:4697-4701 | erasing the entry of a failed fetch leaves everything else well built |
| FetchOutcome.FetchFailsIff | src/module.cpp:4553-4704 | whatever is registered or in progress and whatever has failed before, a fetch fails exactly when it can import its way, without passing through a registered file, to one that is missing, malformed or has a request that fails by itself |
| FetchOutcome.FetchSucceedsIff | src/module.cpp:4553-4704 | while every recorded edge is tracked, a fetch succeeds exactly when no file reachable by imports is broken in that way |
| FetchOutcome.SuccessAddsReachable | src/module.cpp:4597-4704 | a successful fetch keeps every edge tracked and registers exactly the files reachable by imports |
| FetchOutcome.FailureRollsBack | src/module.cpp:4602-4701 | after a failed fetch the path is unregistered, earlier entries are unchanged, every entry is complete, and each ES import of a survivor leads to the tracked module of its file or to a module erased by this failure that imports its way back |
| FetchOutcome.FailureOnAcyclicGraph | src/module.cpp:4602-4701 | without import cycles a failed fetch leaves every edge tracked |
| FetchOutcome.FailureIsDoomed | src/module.cpp:4605-4695 | a fetch that fails has a broken file reachable without passing through any given set of files registered before |
| FetchOutcome.FailedFetchDangles | src/module.cpp:4602-4701 | a failed nested fetch leaves a finished file that imports an erased or unfinished one exactly when one was there before or the import graph strands one |
| FetchOutcome.FailureClosedIff | src/module.cpp:4602-4701 | a failed fetch leaves every edge tracked exactly when no request that succeeded on the way leads back to a file still being fetched |
| FetchRuns.RunStaysWellBuilt | src/module.cpp:4553-4704 | no run leaves a half-built entry, whatever fails in it |
| FetchRuns.RunClosedIff | src/module.cpp:4553-4704 | a run ends with every edge tracked exactly when none of the paths it fetched is poisonous, which is a property of the files |
| FetchRuns.ResolutionNeverMisses | src/module.cpp:4910-4939 | in a run that fetches no poisonous path, resolving any import of anything reachable from a registered module succeeds, leads to the module registered for the file, and gives the same module in every continuation of the run |
| FetchRuns.PoisonIsObservable | src/module.cpp:4921-4927 | a poisonous fetch leaves a registered file with an import that resolves to a module whose own imports all fail to resolve, and fetching the file again changes nothing |
| FetchRuns.RollbackCanStrand | src/module.cpp:4602-4604 | a cycle of two files, one of which also imports a missing file, is such a case |
| FetchRuns.StrandedFetchSucceeds | src/module.cpp:4557-4559 | after that failure, fetching the other file of the cycle succeeds although it imports its way to the missing file |
| ModuleRegistries.ModuleRegistry.FetchESModuleTree | src/module.cpp:4553-4704 | updates the three tables in place with exactly the effect of the fetch function |
| ModuleRegistries.ModuleRegistry.FetchAll | src/module.cpp:4605-4695 | the loop over the requests has exactly the effect of its function |
| ModuleRegistries.ModuleRegistry.FetchOne | src/module.cpp:4609-4692 | one request has exactly the effect of its function |
| ModuleRegistries.ModuleRegistry.FetchCJSModuleAsESModule | src/module.cpp:4706-4779 | a required CommonJS value gets a new tracked module; a failed require gets none |
| ModuleRegistries.ModuleRegistry.ResolveModule | src/module.cpp:4910-4939 | gives the recorded module, or the error for an untracked referrer or an unrecorded specifier |
| Scheduling.InsertLosesIff | src/task_scheduler.cpp:9 | an insertion into the ordered set loses the task exactly when one with the same time and id is there |
| Scheduling.RunStaysConsistent | src/task_scheduler.cpp:5-77 | in every run, whatever actions do, the set is strictly ordered and during an action exactly one task is marked as executing |
| Scheduling.ActionCanFinish | src/task_scheduler.cpp:55-67 | the task whose action is running is still in the set when the action ends |
| SchedulerLedger.StepRepresents | src/task_scheduler.cpp:5-77 | while at most 2^32 ids are asked for, each call does to the set of tasks what it does to the book of issued ids, so no insertion loses a task and every id is in exactly one of pending, executing, completed, cancelled and cleared |
| SchedulerLedger.RunsAreSafe | src/task_scheduler.cpp:5-77 | while at most 2^32 ids are asked for, one-shot tasks start at most once, no task starts after RemoveTask has been called on it, and set and book agree |
| SchedulerLedger.WrappedIdLosesTask | src/task_scheduler.cpp:8-9 | for every first task there is a run from the start, through all 2^32 ids, after which queuing another task for the same time returns the id of the first and queues nothing |
| SchedulerTiming.RunsAreOrdered | src/task_scheduler.cpp:46-71 | with no negative delay and a monotone clock, tasks start in the order of their times across all runs of Run |
| SchedulerTiming.StartIsNext | src/task_scheduler.hpp:19-23 | a task that starts is due, and every other task has a later time, or the same time and a greater id |
| SchedulerTiming.EqualTimesStartInIdOrder | src/task_scheduler.hpp:19-23 | in every run that asks for at most 2^32 ids, of two waiting tasks with equal times the one with the smaller id starts first, while neither is removed or moved |
| SchedulerTiming.RunsWhileDue | src/task_scheduler.cpp:51-70 | the loop goes on exactly while some task is due |
| SchedulerTiming.NothingDueIsLeft | src/task_scheduler.cpp:51-70 | when the loop ends every remaining task is timed after the reading it began with |
| SchedulerTiming.TurnsUseUp | src/task_scheduler.cpp:51-70 | when repeating tasks that are due have positive delays and actions queue nothing that is due already, one Run calls different tasks, all due when it began; one-shot tasks may have any delay |
| SchedulerTiming.RunEnds | src/task_scheduler.cpp:51-70 | under the same condition the loop ends after at most as many turns as tasks were due, whatever else its actions do |
| SchedulerTiming.QuietRunEndsIff | src/task_scheduler.cpp:51-70 | when the clock stands still and actions make no calls, the loop ends exactly when no repeating task that is due has a delay of zero or less |
| SchedulerTiming.TurnsAreSteps | src/task_scheduler.cpp:51-70 | the turns of Run's loop are sequences of the machine's steps |
| TaskSchedulers.TaskScheduler.AddTask | src/task_scheduler.cpp:5-11 | the new state and the returned id |
| TaskSchedulers.TaskScheduler.RemoveTask | src/task_scheduler.cpp:13-27 | the new state: an executing task is marked, another one erased |
| TaskSchedulers.TaskScheduler.RescheduleTask | src/task_scheduler.cpp:29-44 | the new state: only a task that is not executing is moved |
| TaskSchedulers.TaskScheduler.RunDue | src/task_scheduler.cpp:51-70 | where the loop ends, it has exactly the effect of the turns it took and ends with nothing due |
| TaskSchedulers.TaskScheduler.Run | src/task_scheduler.cpp:46-71 | where its loop ends, the state after its turns, with every remaining task timed later |
| TaskSchedulers.TaskScheduler.Reset | src/task_scheduler.cpp:73-77 | the set is empty and the counter unchanged |
| ImportOwnership.StepOwnedIff | src/module.cpp:4444-4475 | while at most 2^32 ids have been handed out, the table of imports and the queued import tasks match one to one after a step exactly unless the step clears a timer by the number of a queued import task |
| ImportPromises.StepStaysKept | src/module.cpp:4183-4214 | no promise ever has two owners, and every promise handed out is settled or has one |
| ImportPromises.StepStaysHealthy | src/module.cpp:4357-4501 | every step keeps that, the order of the queue and, until the ids have run out, the agreement of queue and book; every method of ImportHost keeps it as the validity of the object |
| ImportPromises.StepSettlesOnce | src/module.cpp:4357-4501 | the first settlement of a promise is final |
| ImportVerdicts.MoveSettles | src/module.cpp:4183-4214 | a move settles an open promise with the verdict it reports on it, and no other: a load that fails rejects, an evaluation gives its own verdict, an exception noticed later rejects what is still open, and otherwise the promise stays open |
| ImportVerdicts.RunSettles | src/module.cpp:4357-4501 | at the end of any run a promise has the first verdict that was reported on it, or is open if there was none; so it is fulfilled only by an evaluation that was |
| ImportVerdicts.NewPromises | src/module.cpp:4436-4441 | a promise made for what is not found is rejected at once, every other new one is open |
| ImportVerdicts.FoundIsQueued | src/module.cpp:4444-4456 | the import of a file that is found is shared, or queued for the time of the call as a task that runs once; either way the caller gets its promise |
| ImportVerdicts.TaskTakesUp | src/module.cpp:4459-4475 | the task that begins takes its import out of the table and nothing else |
| ImportVerdicts.TaskLetsGo | src/module.cpp:4477-4500 | a promise is handed to a reaction exactly when its module is still being evaluated |
| ImportVerdicts.ReactionIsGone | src/module.cpp:4322-4345 | a reaction happens once |
| ImportVerdicts.OtherImportsAnswered | src/module.cpp:4411-4441 | what an import through the embedder's resolver, or one that fails, changes |
| ImportVerdicts.EvaluationMayImport | src/module.cpp:4357-4501 | JavaScript may import and use timers between calls and during every evaluation |
| ImportPromises.RunOwnedIff | src/module.cpp:4444-4475 | over a whole run in which at most 2^32 ids are handed out, the table and the queue match at the end exactly when no step has cleared a queued import task |
| ImportPromises.NoPromiseIsDropped | src/module.cpp:4357-4501 | over a whole run in which at most 2^32 ids are handed out, every promise given to JavaScript is settled or has exactly one owner that will settle it, a queued import task, a pending reaction or a call in progress, if and only if no step has cleared a queued import task |
| ImportPromises.StuckForEver | src/module.cpp:4444-4448 | after its task has been cleared, an import path gives the same unsettled promise in every continuation, while at most 2^32 ids have been handed out |
| ImportPromises.ClearTimeoutStrandsImport | src/builtin/timers.hpp:36-44 | importing a file and calling clearTimeout(0) is a run in which this happens |
| ImportPromises.WrappedIdDropsImport | src/task_scheduler.cpp:8-9 | after 2^32 ids a run that clears only timers of its own can end with an import whose task was never queued and whose promise nothing will settle |
| ImportPromises.ImportsShare | src/module.cpp:4444-4448 | imports of a path share one promise until its task begins |
| ImportPromises.TakenUpIsNew | src/module.cpp:4467-4475 | once the task has begun, even while its module is evaluated, an import of the path gets a new promise |
| ImportHosts.ImportHost.ImportFile | src/module.cpp:4444-4456 | the effect of an import of a file, and the promise it returns |
| ImportHosts.ImportHost.ImportMissing | src/module.cpp:4436-4441 | the effect of an import that resolves to nothing: a rejected promise |
| ImportHosts.ImportHost.BeginForeign | src/module.cpp:4411-4421 | the effect of an import through the embedder's resolver, up to the evaluation of the module |
| ImportHosts.ImportHost.EndForeign | src/module.cpp:4411-4433 | the effect of the end of an import through the embedder's resolver |
| ImportHosts.ImportHost.BeginRun | src/task_scheduler.cpp:46-49 | the scheduler begins to run |
| ImportHosts.ImportHost.EndRun | src/task_scheduler.cpp:51-71 | it returns when no task is due |
| ImportHosts.ImportHost.BeginTask | src/module.cpp:4459-4475 | an import task takes its resolver out of the table, or finds it gone |
| ImportHosts.ImportHost.EndTask | src/module.cpp:4477-4500 | what happens to the resolver for each outcome of loading |
| ImportHosts.ImportHost.Conclude | src/module.cpp:4183-4216 | the settling of the resolver or its handing over to reactions |
| ImportHosts.ImportHost.React | src/module.cpp:4322-4345 | a reaction settles its promise and is gone |
| ImportHosts.ImportHost.CallScheduler | src/builtin/timers.hpp:13-43 | the effect of the timer functions on the queue that import tasks share |
| Conversions.WrapIsCongruent | src/module.cpp:593-612 | a cast gives the one number of the type congruent to the argument and changes exactly the numbers that do not fit |
| Conversions.IntegersWrapAround | src/module.cpp:593-612 | every Number or BigInt that V8 reports as an integer is accepted for every integer type, arrives as the number of the type congruent to it, and is changed exactly when it does not fit |
| ConversionMeaning.PresentedAsSame | src/module.cpp:1201-1313 | a native value is presented as the JavaScript value that means the same, 64-bit integers as BigInt |
| ConversionMeaning.ArrivesAsSame | src/module.cpp:516-699 | a JavaScript value arrives as the native value that means the same, but for integers that do not fit and for lone surrogates, each of which becomes U+FFFD |
| ConversionMeaning.AcceptedIff | src/module.cpp:516-699 | which JavaScript values are taken for a type, and that all others are refused |
| ConversionMeaning.IntegerRanges | src/module.cpp:593-612 | the numbers of each integer type |
| ConversionMeaning.ElementsArrive | src/module.cpp:1061-1078 | elements of an array are converted one by one in order, and one that is refused refuses the array |
| ConversionMeaning.ElementsPresented | src/module.cpp:1405-1418 | the same for the elements of a vector |
| Conversions.WrapTwice | src/module.cpp:602-605 | the 64-bit detour of BigInt arguments does not matter |
| Conversions.ScalarNativeTrip | src/module.cpp:1201-1313 | a native value comes back from JavaScript as it was; only a surrogate cannot be presented |
| Conversions.ScalarJsTrip | src/module.cpp:516-699 | a JavaScript value comes back from native code as it was exactly when it is in the form in which values of the type are presented |
| Conversions.AllNativeTrip | src/module.cpp:1405-1418 | the same for vectors; one element that cannot be presented refuses the whole |
| Conversions.Char16VectorTrip | src/module.cpp:1061-1078 | a vector of char16_t without surrogates comes back as it was, one with a surrogate is refused as a whole |
| Conversions.ArrayFromObject | src/module.cpp:1060-1078 | the loop converts every element or refuses the array |
| Conversions.CreateJsObjectList | src/module.cpp:1405-1418 | the loop presents every element or refuses the vector |
| Utf.EncoderIsUtf8 | src/module.cpp:350-366 | the encoder gives the form of section 3 of RFC 3629 for every unit but zero and surrogates, and refuses exactly the surrogates |
| Utf.DecoderInverts | src/module.cpp:301-344 | the decoder reads every such form, whatever bytes follow |
| Utf.RoundTrip | src/module.cpp:301-366 | decoding an encoded unit followed by anything gives the unit and its length |
| Utf.DecoderRefuses | src/module.cpp:301-344 | which sequences the decoder refuses, with which of its reasons |
| Utf.DecoderReads | src/module.cpp:313-341 | what it reads of one, two and three octets, in shortest form or not |
| CallTransparency.ArgumentsLaidOut | src/module.cpp:3160-3186 | pushing succeeds exactly when all arguments convert; each value is in its slot or the cell its slot points to, each recorded index is the cell passed for its reference parameter, and the storage holds at most one cell more than there are parameters |
| CallTransparency.RefCellsIncrease | src/module.cpp:3171-3178 | the recorded indices are strictly increasing and each is the cell whose address was pushed |
| CallTransparency.SetRefsHandsOut | src/module.cpp:2429-2446 | element 1 + k of the result goes to the k-th reference parameter and to nothing else, and an element that does not convert leaves only its own parameter alone |
| CallTransparency.InnerCall | src/module.cpp:2361-2457 | what a call into JavaScript returns and leaves in the reference parameters for every outcome: a throw, a result that is no array or of the wrong length, and elements that do not convert |
| CallTransparency.Transparent | src/module.cpp:3139-3223 | a JavaScript function called through both wrappers answers as a direct call that reads arguments and results as values of their types, for every signature, arguments and function |
| CallTransparency.CanonicalCall | src/module.cpp:3139-3223 | with canonical arguments and a fitting result, the function gets the arguments as they are and the caller gets the result as it is |
| CallLayout.SlotsByType | src/module.cpp:2821-2930 | a native function gets a boolean, a number or a character by value as it is, and every reference, string, vector and object by the address of a cell of its own, behind the address of a cell for a result that needs one |
| CallLayout.NativeAnswers | src/module.cpp:3188-3222 | for every native function JavaScript gets its result, from the extra cell where the type needs one, and then what the cells of the reference parameters hold, in order; or an exception if something cannot be presented |
| CallLayout.NativeArgumentsArrive | src/module.cpp:2381-2398 | however native code lays out its arguments, the JavaScript function gets the values that the slots carry, in order |
| CallLayout.NativeCallAnswered | src/module.cpp:2400-2457 | native code gets the value returned, or the default where the function throws or returns something else |
| CallLayout.ThrowingFunctionAnswersBlank | src/module.cpp:2400-2425 | what the default is for each type |
| CallMethods.PushArguments | src/module.cpp:3173-3186 | the first loop of ExternalCall, within a storage of one cell more than there are parameters |
| CallMethods.CollectRefs | src/module.cpp:3201-3217 | the second loop of ExternalCall |
| CallMethods.CallExternal | src/module.cpp:3139-3223 | the whole of ExternalCall has exactly the effect of its function |
| CallMethods.ReadArguments | src/module.cpp:2381-2398 | the first loop of InternalCall |
| CallMethods.WriteRefs | src/module.cpp:2429-2446 | the second loop of InternalCall, which writes through the addresses it was given |
| CallMethods.CallInternal | src/module.cpp:2361-2457 | the whole of InternalCall has exactly the effect of its function |
| CommonJs.Require | lib/pps.js:101-185 | require terminates for every finite set of files, and keeps the entries of the shared cache, the paths of the records and the directories of the require functions that it finds |
| CommonJsBodies.FoundAtOnce | lib/pps.js:101-127 | where a name is looked up before anything is loaded, and that this changes nothing |
| CommonJsBodies.FoundInSharedCache | lib/pps.js:129-132 | a file loaded before is taken from the shared cache, and only this require function's cache changes |
| CommonJsBodies.ScriptLoads | lib/pps.js:133-184 | the load of a readable script, in full: its requests are made in order on a require function for its directory, up to the first that throws outside a try block; the call returns the exports of its record exactly when all have been made and the script completes, and otherwise throws with both caches undefined and no further request made |
| CommonJsBodies.ModuleLoads | lib/pps.js:133-184 | the same for an ES module, whose requests go to the global require function |
| CommonJsBodies.JsonLoads | lib/pps.js:145-170 | what a .json file and a package.json give, and how they fail |
| CommonJsBodies.KindByName | lib/pps.js:137-138 | which files are loaded as ES modules |
| CommonJsBodies.DirectoryParts | lib/pps.js:53 | names in a script are resolved from the directory of its file |
| CommonJsBodies.LeadingDotIsDropped | lib/pps.js:9-14 | a leading dot and slash of a name are dropped |
| CommonJsCaches.RequireCoherent | lib/pps.js:101-185 | require keeps one record per file and every cache entry for the file its name resolves to, and what it returns are the exports of the record of that file |
| CommonJsCaches.RunCoherent | lib/pps.js:99-185 | in every run, failures included, at most one record is made for a file |
| CommonJsCaches.AllSpellingsAgree | lib/pps.js:107-132 | any two calls that resolve to one file and return exports return those of the same record, from any coherent states with a common later one, one after the other or one during the load of the other |
| CommonJsCaches.RunSpellingsAgree | lib/pps.js:107-132 | in particular two calls from outside at any points of a run |
| CommonJsCaches.CyclicRequireIsShared | lib/pps.js:129-135 | requiring a file again during its load gives at once the exports of the record that the load will give if it completes |
| CommonJsCaches.CachesAgree | lib/pps.js:129-135 | while no load has failed, the cache of every require function agrees with the shared one |
| CommonJsCaches.ThrowingLoadIsUndefined | lib/pps.js:177-180 | a call that starts a load and throws leaves the keys of both caches, with undefined exactly when the try block was reached |
| CommonJsCaches.ThrowingScriptIsUndefined | lib/pps.js:171-180 | loading a readable script that throws is such a call, from every state |
| CommonJsCaches.FailedLoadIsFinal | lib/pps.js:177-180 | after such a call the file is never loaded again at any later point, inside another load included: requiring it throws except for require functions that already hold its record |
| CommonJsSlots.RequireAccounts | lib/pps.js:34-46 | a call of require leaves occupied slots and earlier records alone; the slots it takes for good hold different records made during the call, exactly those of unreadable files that a require function asks for as scripts and that stay registered with their initial exports |
| CommonJsSlots.StorageIsFreeIff | lib/pps.js:136-183 | the storage is empty after every run exactly when no run comes to a require function that asks for an unreadable file as a script, unless a load of that file, as an ES module, has come to an end before |
| CommonJsSlots.LoadsAreStacked | lib/pps.js:136-183 | with readable files, a load at depth d takes slot d for its record, the stack is the same after any number of nested calls, and the load gives it back as it was |
| CommonJsSlots.RunHoldsTheAbandoned | lib/pps.js:34-46 | after a run from the start the live slots hold exactly the records of the loads that loadModule stopped, each once |
| CommonJsSlots.UnreadableFileStaysRegistered | lib/pps.js:133-139 | a file that cannot be read keeps its slot and a record with empty exports, which the next require returns |
| CommonJsLoaders.CommonJsLoader.AddModule | lib/pps.js:34-42 | the loop finds the first free slot or adds one |
| CommonJsLoaders.CommonJsLoader.CallRequire | lib/pps.js:101-185 | require updates caches, records and storage in place with exactly the effect of its function |
| CommonJsLoaders.CommonJsLoader.LoadFile | lib/pps.js:133-184 | the same for the load with its rollback |
| CommonJsLoaders.CommonJsLoader.Try | lib/pps.js:145-176 | the same for the try block |
| CommonJsLoaders.CommonJsLoader.RunModule | lib/pps.js:50-66 | the same for executeModule, which finds its record by slot |
| ModuleLoader.Search | src/module_loader.cpp:42-75 | the search gives the first match over one flat list of candidates: own directory, ancestors from the root down, lib, plugin directories |
| ModuleLoader.SearchAncestors | src/module_loader.cpp:46-61 | the loop over the elements of the directory |
| ModuleLoader.SearchModuleInDir | src/module_loader.cpp:30-39 | one directory, with every extension and node_modules |
| ModuleLoader.FirstMatchIff | src/module_loader.cpp:14-22 | there is a match exactly when some candidate exists, and it is the normal form of the first that does |
| SearchOrder.PlainNameInDirectory | src/module_loader.cpp:26-40 | the ten files tried for a plain name in one directory, in order |
| SearchOrder.ExtendedNameFirst | src/module_loader.cpp:31-33 | a name with a JavaScript extension is tried as it is first |
| SearchOrder.PlacesInOrder | src/module_loader.cpp:42-75 | the directory itself, its ancestors, the library and the plugins are searched one after the other |
| SearchOrder.AncestorsAre | src/module_loader.cpp:46-61 | the ancestors of a directory from the root down, without node_modules |
| SearchOrder.AncestorsSearchedIff | src/module_loader.cpp:46 | for which names they are searched |
| StringLiterals.EscapeString | src/module.cpp:256-293 | the loop gives the escaped form |
| StringLiterals.LiteralIsExact | src/module.cpp:256-293 | reading the escaped form of any string as a literal by section 12.9.4 of ECMA-262 gives the string and stops right after it |
| StringLiterals.BodyHasNoBareQuote | src/module.cpp:256-293 | between its first and last character the escaped form has no unescaped quotation mark |
| StringLiterals.EscapeBodyGrows | src/module.cpp:261-288 | exactly the eight special characters are escaped, no raw control among them is left, and everything else stays as it is |
| StringLiterals.PrefixIsExact | src/module.cpp:4567 | the text put in front of a module gives its path and directory exactly and leaves its source unchanged |

## Left out

- FindModuleInfo: entries are found by module identity; the hash buckets of `_idToModuleInfo` are not modelled.
- FetchCJSModuleAsESModule: the outcome of `require` for a specifier is fixed; scripts it runs do not fetch ES modules of their own, and export names of the synthetic module are not modelled.
- TaskScheduler.Run: described where its loop ends; when it does is `SchedulerTiming.RunEnds` and `SchedulerTiming.QuietRunEndsIff`.
- ImportDynamic: the error values given to rejected promises, and a resolver that V8 fails to make, are not modelled; shutdown is the end of a run.
- EscapeValue: escapes that start with a digit, x or u and line continuations are not read; the escaped form contains none.
- Names: on other separators than '/' paths are not taken apart.
- The types of arguments and results are a boolean, integers of each width, char16_t, strings, opaque objects and vectors of these; floating-point numbers, function values, `any` and typed arrays are not modelled separately.
- V8's conversion of whole strings to UTF-8 is taken to be lossless but for lone surrogates.
- An ES module loaded by `require`: what the modules it imports do is part of its own body, and whether another load has fetched them before is not modelled.
- `forceReload`, bytecode files and `generateEmptyCode` of lib/pps.js; the results hold for runs without a reload.
- Reading files, listing directories, the built-in modules, plugin loading, class and enum export: input and output, or text formatting.
- The thread-level lock of the scheduler: every call is one step, re-entered only from actions.

# taskrun scheduler, modelled in Dafny

taskrun keeps a list of recurring tasks (the *query*), each with a period in
seconds, and runs a loop of *passes*. A pass first looks at the run status
(STOPPED, RUN or STOP). It then sweeps the query in order and launches every
*due* entry: one whose last launch did not succeed, or whose period has
elapsed since its last launch. Each launched entry is marked optimistically
(`lastRun = now`, `successful = true`) before its task starts. A task that
fails clears `successful`, so its entry is due on every later pass until it
succeeds. `stop` sets the status to STOP, and the next pass turns that into
STOPPED and ends the loop.

The model has three modules:

- `Entries` (`entries.dfy`): the entry record, the due test, and what `add`
  validates and appends.
- `Passes` (`passes.dfy`): one pass as functions on values. It holds the
  sweep, the launched indices, the settling of launched tasks, and the
  pass-level properties: exact launch set and order, failure forces retry,
  success waits out its period, and independence from completion order.
- `Schedulers` (`scheduler.dfy`): the `Scheduler` class. Its fields `query`,
  `status` and `requestPeriod` are updated in place by `Add`, `BeginPass` (the
  status gate and the sweep loop), `Complete` (one task's handler),
  `RecordOutcomes` (the barrier of a pass) and `Stop`. Each method is proved
  against the functions of `Passes` and `Entries`.

Conventions:

- The clock is the parameter `now` (milliseconds).
- Tasks and callbacks are opaque identities (`nat`).
- The argument checks of `add` are modelled by `Arg` (a function,
  `undefined`, or any other value).
- The parsed period is an `Option<int>`. `None` stands for NaN, which makes the
  period comparison false.
- How a launched task ends (fulfilled or rejected) is an input. The order in
  which tasks settle is an input too: a sequence of `Completion`s.
- An entry is addressed by its index. The query is never reordered or
  shortened, so the index identifies the entry object.

Two facts about the code that shape the model:

- A callback's failure is thrown on a later tick outside the promise chain and
  never changes `successful` (index.js:72-75).
- The period is whatever `parseInt` returns, negative values included, so the
  model takes any `int`.

## Model

| member | source | states |
|---|---|---|
| Entries.Due | index.js:62 | an entry is due iff it is not successful or (its period is a number and) `lastRun + period*1000 <= now`; a NaN period makes only unsuccessful entries due |
| Entries.Accepts | index.js:31-33 | `add` accepts exactly a function task together with a callback that is either `undefined` or a function |
| Entries.StoredCallback | index.js:31-38 | an accepted callback argument is stored as present exactly when it is a function, with that function's identity |
| Entries.NewEntry | index.js:35-41 | a new entry keeps the given task, period and callback, and is due at every time (never run, not successful) |
| Entries.Register | index.js:28-44 | a non-function task, or a callback that is given but not a function, leaves the query unchanged; otherwise exactly one entry is appended, the old entries form an unchanged prefix, and the new entry has the given task, period and callback function, `lastRun = 0` and `successful = false` |
| Entries.RegisterThenDue | index.js:35-41 | an accepted registration keeps every earlier entry, and the new entry is due at any time whatever its period |
| Passes.Mark | index.js:63-64 | a launched entry gets `lastRun = now` and `successful = true`; task, period and callback stay |
| Passes.Sweep | index.js:59-65 | the sweep keeps the query's length, order and each entry's task, period and callback; due entries end marked with `now`, entries not due are left exactly as they were |
| Passes.Launched | index.js:59-67 | every launched index is an index of the query |
| Passes.LaunchedExactlyDue | index.js:59-67 | an index is launched iff it is in range and its entry is due; launches are strictly increasing, so in query order and each at most once |
| Passes.LaunchedCount | index.js:59-67 | the number of tasks launched equals the number of due entries, counted independently from the front |
| Passes.Settled | index.js:70-83 | after its handler, an entry is successful iff its task was fulfilled; no other field changes |
| Passes.Settle | index.js:70-83 | the handlers of a pass, run in arrival order, keep the query's length and change no field of any entry other than `successful` |
| Passes.SettleAt | index.js:70-83 | each handler touches only its own entry: after any sequence of completions, an entry carries the outcome of its own last completion, or is untouched if it has none |
| Passes.SettleOrderIrrelevant | index.js:67-90 | any reordering of the same distinct completions leaves the query in the same state, so completion order does not matter |
| Passes.Pass | index.js:59-90 | a whole pass (sweep, then all launched tasks settle) keeps the query's length |
| Passes.EveryLaunchedSettles | index.js:89-90 | when the barrier holds one distinct completion per launch, all among the launches, every launched entry has a completion |
| Passes.PassAt | index.js:59-83 | after a pass, an entry that was not due is unchanged; every launched entry has a completion, and ends with `lastRun = now` and `successful` equal to whether its own task was fulfilled |
| Passes.FailureForcesRetry | index.js:62-64 | an entry whose task was rejected in a pass is launched by the next pass, whatever its period and whenever that pass runs |
| Passes.SuccessWaitsOutPeriod | index.js:62-73 | an entry whose task was fulfilled at `now` is launched by a later pass at `later` iff its period is a number and `now + period*1000 <= later`; with a NaN period, never |
| Passes.NaNPeriodStaysIdle | index.js:37-62 | a successful entry with a NaN period is never launched and the sweep leaves it unchanged |
| Passes.EffectAsWritten | index.js:70-83 | as written, a rejection is reported to the barrier, and the success of an entry without a callback throws an uncaught TypeError |
| Passes.HandlerEffect | index.js:70-83 | corrected handler: a failure is reported iff the task was rejected; a callback is queued iff the task was fulfilled and the entry has one, and it is that entry's callback; nothing throws |
| Passes.CallbacklessSuccessThrows | index.js:31-75 | for every query and task, the entry that `add` appends without a callback throws on success as written, while the corrected handler calls nothing |
| Schedulers.Scheduler.constructor | index.js:14-18 | a new scheduler has an empty query, status STOPPED and `requestPeriod` 1 |
| Schedulers.Scheduler.Add | index.js:28-44 | the query becomes `Register` of the old query: unchanged on rejected arguments, one entry appended with the prefix unchanged otherwise; the scheduler itself is returned on both paths |
| Schedulers.Scheduler.BeginPass | index.js:46-86 | STOP becomes STOPPED and nothing is launched or touched; STOPPED becomes RUN and RUN stays RUN, and then the query becomes `Sweep` of the old query and the launched indices are `Launched` of it |
| Schedulers.Scheduler.Complete | index.js:70-83 | the handler sets its own entry to `Settled` and nothing else, and reports `HandlerEffect` |
| Schedulers.Scheduler.RecordOutcomes | index.js:89-100 | after the barrier the query is `Settle` of the old query under the completions in their arrival order, with one reported effect per completion |
| Schedulers.Scheduler.Stop | index.js:115-119 | the status is STOP whatever it was, so a second call changes nothing |
| Schedulers.StopTakesEffectAtNextPass | index.js:52-57 | a period-0 task with a callback is launched by the first pass and its success queues that callback (as written and corrected alike); a stop made during that pass lets its task settle; after two stops the next pass launches nothing and the status is STOPPED; a following `run` is RUN again and relaunches the task |
| Schedulers.RejectedRegistration | index.js:28-33 | `add(null, 5)` registers nothing and returns the scheduler |

## Findings

| source | as written | input that shows it | evidently intended | confidence | as-written member | corrected member |
|---|---|---|---|---|---|---|
| index.js:72-74 | the success handler calls `task.callback(data)` in `process.nextTick` even when no callback was registered, although line 31 accepts an absent callback | `add(task, 5)` with no callback, then a pass in which `task` succeeds: calling `undefined` throws a TypeError outside any promise, which is an uncaught exception for the process | call the callback only when one was registered; a callback-less success has no further effect | not executed; high, from reading the code | Passes.CallbacklessSuccessThrows | Passes.HandlerEffect |

`Schedulers.Scheduler.Complete` and `Schedulers.Scheduler.RecordOutcomes` use
the corrected `HandlerEffect`.

## Left out

- The promise machinery is not modelled: `Q.defer`, `Q.fcall`, `Q.allSettled`, and the recursive `deferred.resolve(self.run(...))` chaining. A pass is a call to `BeginPass` followed by `RecordOutcomes`, and the loop is repeated calls.
- The asynchronous completion signal of `run` is not modelled. When the status is STOP, `run` returns the value of `deferred.resolve()`, which is `undefined` rather than a promise.
- `process.nextTick` scheduling and the bodies of tasks and callbacks are foreign code, so they are not modelled. A task's outcome is an input, and a callback appears only as the `CallbackScheduled` effect.
- A callback's own failure is thrown on a later tick outside the promise chain. It changes no entry and is not modelled.
- `Date.now()` is the parameter `now`. `Q.delay(requestPeriod * 1000)` between passes is not modelled: `requestPeriod` is only set by the constructor and is otherwise an ordinary field.
- The `console.log` failure report is not modelled. It appears only as the `FailureReported` effect of a rejected task. The real log follows launch order, because the results of `Q.allSettled` keep the order of the `promises` array (index.js:89-92); the `effects` of `RecordOutcomes` follow arrival order instead.
- `typeof` and `parseInt` are not modelled. Their results are taken as given: `Arg` for the type checks, and `Option<int>` for the parsed period.
- JavaScript numbers are doubles. `lastRun + period*1000` is modelled as exact integer arithmetic, so the rounding of values beyond 2^53 is not modelled.
- Entries are not modelled as shared objects captured by their handlers' closures. They are values in `query`, addressed by index.
- Calling `run` while a loop is already running starts a second, concurrent loop. This is not modelled: a pass is one sequential call.
- The module-level singleton export is not modelled. A scheduler is constructed explicitly.

/** Task entries of the scheduler: what one registration stores, when an
    entry is due, and how `add` validates its arguments and appends. */
module Entries {

  datatype Option<T> = None | Some(value: T)

  /** An argument of `add` as `typeof` sees it: a function (an opaque
      identity), `undefined`, or any other value (null, a number, an object). */
  datatype Arg = Function(id: nat) | Undefined | NonFunction

  /** One registered task. `period` is what `parseInt` made of the period
      argument, in seconds; None stands for NaN. `lastRun` is a time in
      milliseconds; `callback` is None when none was given. */
  datatype Entry = Entry(task: nat, period: Option<int>, callback: Option<nat>,
                         lastRun: int, successful: bool)

  /** The due test of the sweep: an entry whose last launch did not succeed is
      always due; a successful one is due once its period has elapsed since its
      last launch. A NaN period makes the comparison false. */
  predicate Due(e: Entry, now: int) {
    !e.successful || (e.period.Some? && e.lastRun + e.period.value * 1000 <= now)
  }

  /** `add` accepts a function task and a callback that is either absent or a function. */
  predicate Accepts(task: Arg, callback: Arg) {
    task.Function? && (callback.Undefined? || callback.Function?)
  }

  /** The callback stored for an accepted callback argument. */
  function StoredCallback(callback: Arg): (c: Option<nat>)
    requires callback.Undefined? || callback.Function?
    ensures c.Some? <==> callback.Function?
    ensures c.Some? ==> c.value == callback.id
  {
    if callback.Function? then Some(callback.id) else None
  }

  /** A newly registered entry: never run, not successful, so due at any time. */
  function NewEntry(task: nat, period: Option<int>, callback: Option<nat>): (e: Entry)
    ensures e.task == task && e.period == period && e.callback == callback
    ensures forall now :: Due(e, now)
  {
    Entry(task, period, callback, 0, false)
  }

  /** The query after `add(task, period, callback)`: unchanged when an argument
      is rejected, otherwise the old query followed by exactly one new entry. */
  function Register(q: seq<Entry>, task: Arg, period: Option<int>, callback: Arg): (r: seq<Entry>)
    ensures !Accepts(task, callback) ==> r == q
    ensures Accepts(task, callback) ==>
      |r| == |q| + 1 && r[..|q|] == q &&
      r[|q|].task == task.id && r[|q|].period == period &&
      r[|q|].callback == StoredCallback(callback) &&
      r[|q|].lastRun == 0 && !r[|q|].successful
  {
    if Accepts(task, callback) then q + [NewEntry(task.id, period, StoredCallback(callback))] else q
  }

  /** A registration never disturbs the entries already there, and the entry it
      adds is due at any time, whatever its period. */
  lemma RegisterThenDue(q: seq<Entry>, task: Arg, period: Option<int>, callback: Arg, now: int)
    requires Accepts(task, callback)
    ensures |Register(q, task, period, callback)| == |q| + 1
    ensures forall k :: 0 <= k < |q| ==> Register(q, task, period, callback)[k] == q[k]
    ensures Due(Register(q, task, period, callback)[|q|], now)
  {
  }
}

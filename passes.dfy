/** One pass of the scheduler over its query, as functions on values: the
    due-check sweep with its optimistic marking, the indices it launches, and
    the settling of launched tasks by their success and failure handlers. */
module Passes {
  import opened Entries

  /** The optimistic mark a launched entry receives before its task starts. */
  function Mark(e: Entry, now: int): (m: Entry)
    ensures m.task == e.task && m.period == e.period && m.callback == e.callback
    ensures m.lastRun == now && m.successful
  {
    e.(lastRun := now, successful := true)
  }

  /** The query after the sweep at time `now`: launched entries are marked,
      every other entry is left exactly as it was, and no entry moves. */
  function Sweep(q: seq<Entry>, now: int): (r: seq<Entry>)
    ensures |r| == |q|
    ensures forall k :: 0 <= k < |q| ==>
      r[k].task == q[k].task && r[k].period == q[k].period && r[k].callback == q[k].callback
    ensures forall k :: 0 <= k < |q| && Due(q[k], now) ==> r[k].lastRun == now && r[k].successful
    ensures forall k :: 0 <= k < |q| && !Due(q[k], now) ==> r[k] == q[k]
  {
    seq(|q|, k requires 0 <= k < |q| => if Due(q[k], now) then Mark(q[k], now) else q[k])
  }

  /** The indices the sweep launches, in launch order. */
  function Launched(q: seq<Entry>, now: int): (r: seq<nat>)
    ensures forall k :: k in r ==> k < |q|
  {
    if q == [] then []
    else Launched(q[..|q| - 1], now) + (if Due(q[|q| - 1], now) then [|q| - 1] else [])
  }

  /** The number of due entries, counted from the front: an independent
      reference for how many tasks a pass launches. */
  function CountDue(q: seq<Entry>, now: int): nat {
    if q == [] then 0 else (if Due(q[0], now) then 1 else 0) + CountDue(q[1..], now)
  }

  predicate Increasing(s: seq<nat>) {
    forall a, b :: 0 <= a < b < |s| ==> s[a] < s[b]
  }

  /** The sweep launches exactly the due entries, each once, in query order. */
  lemma {:induction false} LaunchedExactlyDue(q: seq<Entry>, now: int)
    ensures forall k :: k in Launched(q, now) <==> 0 <= k < |q| && Due(q[k], now)
    ensures Increasing(Launched(q, now))
  {
    if q != [] {
      var p := q[..|q| - 1];
      LaunchedExactlyDue(p, now);
      var tail := if Due(q[|q| - 1], now) then [|q| - 1] else [];
      assert Launched(q, now) == Launched(p, now) + tail;
      forall k | 0 <= k < |p| ensures p[k] == q[k] { }
      forall k ensures k in Launched(q, now) <==> 0 <= k < |q| && Due(q[k], now) {
        assert k in Launched(q, now) <==> k in Launched(p, now) || k in tail;
      }
      var l := Launched(q, now);
      forall a, b | 0 <= a < b < |l| ensures l[a] < l[b] {
        if b >= |Launched(p, now)| {
          assert l[a] == Launched(p, now)[a] && Launched(p, now)[a] in Launched(p, now);
        }
      }
    }
  }

  lemma {:induction false} CountDueSnoc(q: seq<Entry>, e: Entry, now: int)
    ensures CountDue(q + [e], now) == CountDue(q, now) + (if Due(e, now) then 1 else 0)
  {
    if q != [] {
      assert (q + [e])[1..] == q[1..] + [e];
      CountDueSnoc(q[1..], e, now);
    }
  }

  /** A pass launches as many tasks as there are due entries. */
  lemma {:induction false} LaunchedCount(q: seq<Entry>, now: int)
    ensures |Launched(q, now)| == CountDue(q, now)
  {
    if q != [] {
      var p := q[..|q| - 1];
      LaunchedCount(p, now);
      assert q == p + [q[|q| - 1]];
      CountDueSnoc(p, q[|q| - 1], now);
    }
  }

  /** How a launched task ended: its promise was fulfilled or rejected. */
  datatype Outcome = Fulfilled | Rejected

  /** The settling of the task launched for entry `index`. */
  datatype Completion = Completion(index: nat, outcome: Outcome)

  /** The entry after its task's handler ran: success (re)sets `successful`,
      failure clears it; nothing else of the entry changes. */
  function Settled(e: Entry, o: Outcome): (s: Entry)
    ensures s.successful <==> o == Fulfilled
    ensures s.(successful := e.successful) == e
  {
    e.(successful := o == Fulfilled)
  }

  predicate InRange(q: seq<Entry>, cs: seq<Completion>) {
    forall j :: 0 <= j < |cs| ==> cs[j].index < |q|
  }

  /** No entry settles twice (the handlers of one pass belong to distinct entries). */
  predicate Distinct(cs: seq<Completion>) {
    forall a, b :: 0 <= a < b < |cs| ==> cs[a].index != cs[b].index
  }

  /** The query after the handlers of `cs` ran, in the order given. */
  function Settle(q: seq<Entry>, cs: seq<Completion>): (r: seq<Entry>)
    requires InRange(q, cs)
    ensures |r| == |q|
    ensures forall k :: 0 <= k < |q| ==> r[k].(successful := q[k].successful) == q[k]
    decreases |cs|
  {
    if cs == [] then q
    else
      var c := cs[|cs| - 1];
      var p := Settle(q, cs[..|cs| - 1]);
      p[c.index := Settled(p[c.index], c.outcome)]
  }

  /** The outcome with which entry `k` last settled in `cs`, if it did. */
  function OutcomeOf(cs: seq<Completion>, k: nat): Option<Outcome> {
    if cs == [] then None
    else if cs[|cs| - 1].index == k then Some(cs[|cs| - 1].outcome)
    else OutcomeOf(cs[..|cs| - 1], k)
  }

  /** Each handler touches its own entry only: entry `k` ends with the outcome
      of its own completion, or untouched when it has none. */
  lemma {:induction false} SettleAt(q: seq<Entry>, cs: seq<Completion>, k: nat)
    requires InRange(q, cs) && k < |q|
    ensures OutcomeOf(cs, k).None? ==> Settle(q, cs)[k] == q[k]
    ensures OutcomeOf(cs, k).Some? ==> Settle(q, cs)[k] == Settled(q[k], OutcomeOf(cs, k).value)
  {
    if cs != [] {
      SettleAt(q, cs[..|cs| - 1], k);
    }
  }

  lemma {:induction false} OutcomeOfDistinct(cs: seq<Completion>, k: nat, o: Outcome)
    requires Distinct(cs)
    ensures OutcomeOf(cs, k) == Some(o) <==> Completion(k, o) in cs
  {
    if cs != [] {
      var p := cs[..|cs| - 1];
      OutcomeOfDistinct(p, k, o);
      assert cs == p + [cs[|cs| - 1]];
    }
  }

  /** The order in which the tasks of a pass complete does not matter: any
      reordering of the same completions leaves the query in the same state. */
  lemma SettleOrderIrrelevant(q: seq<Entry>, cs: seq<Completion>, ds: seq<Completion>)
    requires InRange(q, cs) && InRange(q, ds) && Distinct(cs) && Distinct(ds)
    requires multiset(cs) == multiset(ds)
    ensures Settle(q, cs) == Settle(q, ds)
  {
    forall k | 0 <= k < |q| ensures Settle(q, cs)[k] == Settle(q, ds)[k] {
      SettleAt(q, cs, k);
      SettleAt(q, ds, k);
      SameOutcome(cs, ds, k);
    }
  }

  lemma SameOutcome(cs: seq<Completion>, ds: seq<Completion>, k: nat)
    requires Distinct(cs) && Distinct(ds) && multiset(cs) == multiset(ds)
    ensures OutcomeOf(cs, k) == OutcomeOf(ds, k)
  {
    forall o: Outcome ensures OutcomeOf(cs, k) == Some(o) <==> OutcomeOf(ds, k) == Some(o) {
      OutcomeOfDistinct(cs, k, o);
      OutcomeOfDistinct(ds, k, o);
      assert Completion(k, o) in cs <==> Completion(k, o) in multiset(cs);
      assert Completion(k, o) in ds <==> Completion(k, o) in multiset(ds);
    }
    if OutcomeOf(cs, k).Some? {
      assert OutcomeOf(ds, k) == Some(OutcomeOf(cs, k).value);
    }
  }

  /** `cs` is what the barrier of a pass collects: one completion for every
      launched entry, and for no other. */
  predicate SettlesAll(cs: seq<Completion>, launched: seq<nat>) {
    Distinct(cs) && |cs| == |launched| && forall j :: 0 <= j < |cs| ==> cs[j].index in launched
  }

  /** The entry indices that `cs` settles, in arrival order. */
  function Indices(cs: seq<Completion>): (r: seq<nat>)
    ensures |r| == |cs| && forall j :: 0 <= j < |cs| ==> r[j] == cs[j].index
  {
    seq(|cs|, j requires 0 <= j < |cs| => cs[j].index)
  }

  function Elems(s: seq<nat>): set<nat> {
    set x | x in s
  }

  /** A sequence without repetitions has as many distinct elements as entries. */
  lemma {:induction false} DistinctCard(s: seq<nat>)
    requires forall a, b :: 0 <= a < b < |s| ==> s[a] != s[b]
    ensures |Elems(s)| == |s|
  {
    if s != [] {
      var p := s[..|s| - 1];
      DistinctCard(p);
      assert s == p + [s[|s| - 1]];
      assert Elems(s) == Elems(p) + {s[|s| - 1]};
      assert s[|s| - 1] !in Elems(p);
    }
  }

  lemma SubsetCard(a: set<nat>, b: set<nat>)
    requires a <= b
    ensures |a| <= |b|
    decreases a
  {
    if a != {} {
      var x :| x in a;
      SubsetCard(a - {x}, b - {x});
    }
  }

  /** The barrier leaves no launched entry unsettled: `SettlesAll` gives as many
      distinct completions as there are distinct launches, all among the
      launches, so every launch has one. */
  lemma EveryLaunchedSettles(cs: seq<Completion>, launched: seq<nat>, k: nat)
    requires SettlesAll(cs, launched) && Increasing(launched) && k in launched
    ensures exists o :: Completion(k, o) in cs
  {
    var ix := Indices(cs);
    DistinctCard(ix);
    DistinctCard(launched);
    var settled := Elems(ix);
    var all := Elems(launched);
    assert settled <= all;
    if k !in settled {
      SubsetCard(settled, all - {k});
      assert false;
    }
    var j :| 0 <= j < |ix| && ix[j] == k;
    assert Completion(k, cs[j].outcome) == cs[j];
  }

  /** The query after a whole pass at `now` whose tasks settled as `cs`. */
  function Pass(q: seq<Entry>, now: int, cs: seq<Completion>): (r: seq<Entry>)
    requires SettlesAll(cs, Launched(q, now))
    ensures |r| == |q|
  {
    Settle(Sweep(q, now), cs)
  }

  /** Entry by entry, a pass leaves idle entries as they were and gives every
      launched entry the launch time and its own task's outcome. */
  lemma PassAt(q: seq<Entry>, now: int, cs: seq<Completion>, k: nat)
    requires SettlesAll(cs, Launched(q, now)) && k < |q|
    ensures Due(q[k], now) ==> OutcomeOf(cs, k).Some? && Completion(k, OutcomeOf(cs, k).value) in cs
    ensures !Due(q[k], now) ==> Pass(q, now, cs)[k] == q[k]
    ensures forall o :: Completion(k, o) in cs ==>
      Pass(q, now, cs)[k] == q[k].(lastRun := now, successful := o == Fulfilled)
  {
    var s := Sweep(q, now);
    SettleAt(s, cs, k);
    LaunchedExactlyDue(q, now);
    if Due(q[k], now) {
      EveryLaunchedSettles(cs, Launched(q, now), k);
    }
    forall o | OutcomeOf(cs, k) == Some(o) ensures Completion(k, o) in cs {
      OutcomeOfDistinct(cs, k, o);
    }
    forall o | Completion(k, o) in cs ensures OutcomeOf(cs, k) == Some(o) {
      OutcomeOfDistinct(cs, k, o);
    }
  }

  /** A failed task makes its entry due on the very next pass, whatever its
      period and whenever that pass comes. */
  lemma FailureForcesRetry(q: seq<Entry>, now: int, cs: seq<Completion>, k: nat, later: int)
    requires SettlesAll(cs, Launched(q, now))
    requires Completion(k, Rejected) in cs
    ensures k < |q|
    ensures k in Launched(Pass(q, now, cs), later)
  {
    var j :| 0 <= j < |cs| && cs[j] == Completion(k, Rejected);
    assert k in Launched(q, now);
    PassAt(q, now, cs, k);
    LaunchedExactlyDue(Pass(q, now, cs), later);
  }

  /** A succeeded task's entry is launched again exactly when its period has
      elapsed since this launch; with a NaN period it is never launched again. */
  lemma SuccessWaitsOutPeriod(q: seq<Entry>, now: int, cs: seq<Completion>, k: nat, later: int)
    requires SettlesAll(cs, Launched(q, now))
    requires Completion(k, Fulfilled) in cs
    ensures k < |q|
    ensures k in Launched(Pass(q, now, cs), later) <==>
      q[k].period.Some? && now + q[k].period.value * 1000 <= later
  {
    var j :| 0 <= j < |cs| && cs[j] == Completion(k, Fulfilled);
    assert k in Launched(q, now);
    PassAt(q, now, cs, k);
    LaunchedExactlyDue(Pass(q, now, cs), later);
  }

  /** A successful entry with a NaN period is never due, so every later sweep
      passes over it and leaves it as it is. */
  lemma NaNPeriodStaysIdle(q: seq<Entry>, now: int, k: nat)
    requires k < |q| && q[k].successful && q[k].period.None?
    ensures k !in Launched(q, now) && Sweep(q, now)[k] == q[k]
  {
  }

  /** What a handler does besides updating its entry. */
  datatype Effect =
    | CallbackScheduled(callback: nat)  // the callback is queued with the task's result
    | NothingToCall                     // success, and the entry has no callback
    | FailureReported                   // the rejection reaches the barrier and is logged
    | UncaughtTypeError                 // calling a missing callback throws outside any handler

  /** The success handler as written: it queues `task.callback(data)` whether
      or not a callback was registered. */
  function EffectAsWritten(e: Entry, o: Outcome): (f: Effect)
    ensures o == Rejected ==> f == FailureReported
    ensures o == Fulfilled && e.callback.None? ==> f == UncaughtTypeError
  {
    if o == Rejected then FailureReported
    else if e.callback.Some? then CallbackScheduled(e.callback.value)
    else UncaughtTypeError
  }

  /** The handlers as the optional callback evidently intends: a callback is
      queued exactly for a successful task that has one, and nothing throws. */
  function HandlerEffect(e: Entry, o: Outcome): (f: Effect)
    ensures f != UncaughtTypeError
    ensures f == FailureReported <==> o == Rejected
    ensures f.CallbackScheduled? <==> o == Fulfilled && e.callback.Some?
    ensures f.CallbackScheduled? ==> f.callback == e.callback.value
  {
    if o.Rejected? then FailureReported
    else if e.callback.Some? then CallbackScheduled(e.callback.value)
    else NothingToCall
  }

  /** The optional callback, as written, brings the process down: every entry
      registered without a callback throws on its first successful run. */
  lemma CallbacklessSuccessThrows(q: seq<Entry>, task: nat, period: Option<int>)
    ensures var r := Register(q, Function(task), period, Undefined);
      |r| == |q| + 1 && EffectAsWritten(r[|q|], Fulfilled) == UncaughtTypeError
      && HandlerEffect(r[|q|], Fulfilled) == NothingToCall
  {
  }
}

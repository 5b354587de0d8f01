/** The scheduler object: its query of entries, its run status and its
    inter-pass delay, updated in place by registration, by the start of a
    pass, by the handlers of launched tasks and by a stop request. */
module Schedulers {
  import opened Entries
  import opened Passes

  /** The run status: STATUS_STOPPED, STATUS_RUN and STATUS_STOP. */
  datatype Status = Stopped | Running | StopRequested

  class Scheduler {
    /** Delay between two passes, in seconds. */
    var requestPeriod: int
    var query: seq<Entry>
    var status: Status

    constructor ()
      ensures requestPeriod == 1 && query == [] && status == Stopped
    {
      requestPeriod := 1;
      query := [];
      status := Stopped;
    }

    /** `add`: registers a task unless an argument is rejected, and returns the
        scheduler itself either way so that calls can be chained. */
    method Add(task: Arg, period: Option<int>, callback: Arg) returns (self: Scheduler)
      modifies this`query
      ensures self == this
      ensures query == Register(old(query), task, period, callback)
      ensures !Accepts(task, callback) ==> query == old(query)
      ensures Accepts(task, callback) ==> |query| == |old(query)| + 1 && query[..|old(query)|] == old(query)
    {
      self := this;
      if !Accepts(task, callback) {
        return;
      }
      query := query + [NewEntry(task.id, period, StoredCallback(callback))];
    }

    /** The start of `run` at time `now`: the status gate, then the due-check
        sweep, which marks every due entry and launches its task in query order.
        A pending stop request ends the loop instead and touches no entry. */
    method BeginPass(now: int) returns (launched: seq<nat>)
      modifies this`query, this`status
      ensures old(status) == StopRequested ==> status == Stopped && query == old(query) && launched == []
      ensures old(status) != StopRequested ==> status == Running
      ensures old(status) != StopRequested ==>
        query == Sweep(old(query), now) && launched == Launched(old(query), now)
    {
      if status == Stopped {
        status := Running;
      } else if status == StopRequested {
        status := Stopped;
        return [];
      }
      ghost var q0 := query;
      launched := [];
      var i := 0;
      while i < |query|
        invariant 0 <= i <= |query| == |q0|
        invariant status == Running
        invariant forall k :: 0 <= k < i ==> query[k] == if Due(q0[k], now) then Mark(q0[k], now) else q0[k]
        invariant forall k :: i <= k < |query| ==> query[k] == q0[k]
        invariant launched == Launched(q0[..i], now)
      {
        assert q0[..i + 1][..i] == q0[..i];
        if Due(query[i], now) {
          query := query[i := Mark(query[i], now)];
          launched := launched + [i];
        }
        i := i + 1;
      }
      assert q0[..i] == q0;
      assert query == Sweep(q0, now);
    }

    /** The handler of the task launched for entry `c.index`: success keeps the
        entry successful and queues its callback, failure clears `successful`
        and hands the error on to the barrier. */
    method Complete(c: Completion) returns (effect: Effect)
      requires c.index < |query|
      modifies this`query
      ensures query == old(query)[c.index := Settled(old(query)[c.index], c.outcome)]
      ensures effect == HandlerEffect(old(query)[c.index], c.outcome)
    {
      effect := HandlerEffect(query[c.index], c.outcome);
      query := query[c.index := Settled(query[c.index], c.outcome)];
    }

    /** The barrier of a pass: the handlers run as the launched tasks settle,
        in the order `cs` gives, and each reports what it did. */
    method RecordOutcomes(cs: seq<Completion>) returns (effects: seq<Effect>)
      requires InRange(query, cs)
      modifies this`query
      ensures query == Settle(old(query), cs)
      ensures |effects| == |cs|
      ensures forall j :: 0 <= j < |cs| ==> effects[j] == HandlerEffect(old(query)[cs[j].index], cs[j].outcome)
    {
      ghost var q0 := query;
      effects := [];
      var j := 0;
      while j < |cs|
        invariant 0 <= j <= |cs|
        invariant query == Settle(q0, cs[..j])
        invariant |query| == |q0|
        invariant forall k :: 0 <= k < |q0| ==> query[k].callback == q0[k].callback
        invariant |effects| == j
        invariant forall i :: 0 <= i < j ==> effects[i] == HandlerEffect(q0[cs[i].index], cs[i].outcome)
      {
        assert cs[..j + 1][..j] == cs[..j];
        var e := Complete(cs[j]);
        effects := effects + [e];
        j := j + 1;
      }
      assert cs[..j] == cs;
    }

    /** `stop`: requests that the loop end at the start of the next pass. */
    method Stop()
      modifies this`status
      ensures status == StopRequested
    {
      status := StopRequested;
    }
  }

  /** A task with period 0 and a callback is launched by the first pass; a
      stop request made while that pass is in flight still lets its task settle;
      requested twice, it makes the next pass launch nothing and stop the loop;
      a later `run` starts again and launches the task, which is due again. */
  method StopTakesEffectAtNextPass(now: int)
    returns (first: seq<nat>, effects: seq<Effect>, second: seq<nat>, third: seq<nat>, final: Status)
    ensures first == [0] && effects == [CallbackScheduled(2)]
    ensures second == [] && third == [0] && final == Running
  {
    var s := new Scheduler();
    var r := s.Add(Function(1), Some(0), Function(2));
    first := s.BeginPass(now);
    s.Stop();
    effects := s.RecordOutcomes([Completion(0, Fulfilled)]);
    s.Stop();
    second := s.BeginPass(now + 1000);
    assert s.status == Stopped;
    third := s.BeginPass(now + 2000);
    final := s.status;
  }

  /** `add(null, 5)` is ignored: nothing is registered and the scheduler is returned. */
  method RejectedRegistration() returns (same: bool, size: nat)
    ensures same && size == 0
  {
    var s := new Scheduler();
    var r := s.Add(NonFunction, Some(5), Undefined);
    same := r == s;
    size := |s.query|;
  }
}

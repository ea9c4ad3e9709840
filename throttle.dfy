/** `throttled(ms, callback)`: a last-call-wins debounce. With `ms <= 0` the callback itself
    is used; otherwise every call cancels the timer it finds and starts a new one, and the
    callback runs when a timer fires. Time itself is not modelled: a timer firing is an
    event of its own. */
module Throttle {

  datatype Event = Call | Fire

  /** The one timer slot (is a firing scheduled?) and how often the callback has run. */
  datatype Timer = Timer(pending: bool, runs: nat)

  /** The effect of one event on a throttle created with delay `ms`. */
  function Step(ms: int, t: Timer, e: Event): (r: Timer)
    ensures r.runs == t.runs || r.runs == t.runs + 1
    ensures e == Fire ==> !r.pending && (r.runs == t.runs + 1 <==> t.pending)
    ensures e == Call ==> (r.pending <==> t.pending || ms > 0) && (r.runs == t.runs + 1 <==> ms <= 0)
  {
    match e
    case Call => if ms <= 0 then t.(runs := t.runs + 1) else t.(pending := true)
    case Fire => if t.pending then Timer(false, t.runs + 1) else t
  }

  /** The effect of a sequence of events. */
  function Run(ms: int, t: Timer, events: seq<Event>): (r: Timer)
    ensures t.runs <= r.runs <= t.runs + |events|
    decreases events
  {
    if events == [] then t else Run(ms, Step(ms, t, events[0]), events[1..])
  }

  /** `n` calls in a row, with no timer firing in between. */
  function Calls(n: nat): (r: seq<Event>)
    ensures |r| == n && forall i :: 0 <= i < n ==> r[i] == Call
  {
    if n == 0 then [] else [Call] + Calls(n - 1)
  }

  /** The number of calls among the events. */
  function CountCalls(events: seq<Event>): nat {
    if events == [] then 0 else (if events[0] == Call then 1 else 0) + CountCalls(events[1..])
  }

  lemma {:induction false} RunAppend(ms: int, t: Timer, a: seq<Event>, b: seq<Event>)
    ensures Run(ms, t, a + b) == Run(ms, Run(ms, t, a), b)
    decreases a
  {
    if a == [] {
      assert a + b == b;
    } else {
      assert (a + b)[0] == a[0] && (a + b)[1..] == a[1..] + b;
      RunAppend(ms, Step(ms, t, a[0]), a[1..], b);
    }
  }

  /** With a positive delay, a burst of calls only leaves one firing scheduled. */
  lemma {:induction false} BurstSchedules(ms: int, t: Timer, n: nat)
    requires ms > 0
    ensures Run(ms, t, Calls(n)) == Timer(t.pending || n > 0, t.runs)
    decreases n
  {
    if n > 0 {
      assert Calls(n)[0] == Call && Calls(n)[1..] == Calls(n - 1);
      BurstSchedules(ms, t.(pending := true), n - 1);
    }
  }

  /** With a positive delay, a burst of calls followed by the timer firing runs the callback
      exactly once. */
  lemma BurstRunsOnce(ms: int, t: Timer, n: nat)
    requires ms > 0 && n > 0
    ensures Run(ms, t, Calls(n) + [Fire]) == Timer(false, t.runs + 1)
  {
    RunAppend(ms, t, Calls(n), [Fire]);
    BurstSchedules(ms, t, n);
  }

  /** With no delay, every call runs the callback at once and no timer is involved. */
  lemma {:induction false} Passthrough(ms: int, t: Timer, n: nat)
    requires ms <= 0
    ensures Run(ms, t, Calls(n)) == Timer(t.pending, t.runs + n)
    decreases n
  {
    if n > 0 {
      assert Calls(n)[0] == Call && Calls(n)[1..] == Calls(n - 1);
      Passthrough(ms, t.(runs := t.runs + 1), n - 1);
    }
  }

  /** Every run of the callback is paid for by a call: runs plus the scheduled firing never
      outgrow the calls made. */
  lemma {:induction false} RunsBoundedByCalls(ms: int, t: Timer, events: seq<Event>)
    ensures var r := Run(ms, t, events);
      r.runs + (if r.pending then 1 else 0) <= t.runs + (if t.pending then 1 else 0) + CountCalls(events)
    decreases events
  {
    if events != [] {
      RunsBoundedByCalls(ms, Step(ms, t, events[0]), events[1..]);
    }
  }

  class Throttled {
    const ms: int
    /** Whether a timer is scheduled and has not fired yet. */
    var pending: bool
    /** How often the wrapped callback has run. */
    var runs: nat

    function State(): Timer
      reads this
    {
      Timer(pending, runs)
    }

    constructor (ms: int)
      ensures this.ms == ms && State() == Timer(false, 0)
    {
      this.ms := ms;
      pending, runs := false, 0;
    }

    /** Calls the throttled function; `ran` tells whether the callback ran at once. */
    method Call() returns (ran: bool)
      modifies this
      ensures State() == Step(ms, old(State()), Event.Call)
      ensures ran == (ms <= 0)
    {
      if ms <= 0 {
        runs := runs + 1;
        return true;
      }
      pending := true;
      ran := false;
    }

    /** The scheduled timer fires; `ran` tells whether the callback ran. */
    method Fire() returns (ran: bool)
      modifies this
      ensures State() == Step(ms, old(State()), Event.Fire)
      ensures ran == old(pending)
    {
      ran := pending;
      if pending {
        pending := false;
        runs := runs + 1;
      }
    }
  }
}

/**
 * The debounce wrapper (script.js:496-507) reduced to what it decides:
 * which call's arguments reach the wrapped function, and how often.
 * The timer is a single pending slot: a call replaces whatever is
 * pending with its own arguments (clearTimeout, then setTimeout), and
 * the timer firing runs the wrapped function once with the pending
 * arguments and empties the slot. Delays and clocks are not modelled.
 */
module Debounce {
  import opened Wrappers

  datatype Event<A> = Call(args: A) | Fire

  /** The pending arguments, and every argument list the wrapped function has run with, in order. */
  datatype Slot<A> = Slot(pending: Option<A>, invocations: seq<A>)

  function Step<A>(s: Slot<A>, e: Event<A>): (s': Slot<A>)
    ensures e.Call? ==> s' == Slot(Some(e.args), s.invocations)
    ensures e.Fire? && s.pending.None? ==> s' == s
    ensures e.Fire? && s.pending.Some? ==> s' == Slot(None, s.invocations + [s.pending.value])
  {
    match e
    case Call(args) => Slot(Some(args), s.invocations)
    case Fire =>
      match s.pending
      case None => s
      case Some(args) => Slot(None, s.invocations + [args])
  }

  function Replay<A>(s: Slot<A>, events: seq<Event<A>>): Slot<A>
    decreases |events|
  {
    if events == [] then s else Replay(Step(s, events[0]), events[1..])
  }

  /** A burst of calls, one per argument list. */
  function Calls<A>(burst: seq<A>): (events: seq<Event<A>>)
    ensures |events| == |burst|
    ensures forall i | 0 <= i < |burst| :: events[i] == Call(burst[i])
  {
    seq(|burst|, i requires 0 <= i < |burst| => Call(burst[i]))
  }

  lemma {:induction false} ReplayAppend<A>(s: Slot<A>, xs: seq<Event<A>>, ys: seq<Event<A>>)
    ensures Replay(s, xs + ys) == Replay(Replay(s, xs), ys)
    decreases |xs|
  {
    if xs != [] {
      assert (xs + ys)[1..] == xs[1..] + ys;
      ReplayAppend(Step(s, xs[0]), xs[1..], ys);
    } else {
      assert xs + ys == ys;
    }
  }

  /** A burst of calls leaves only the last call's arguments pending and runs nothing. */
  lemma {:induction false} BurstKeepsLast<A>(s: Slot<A>, burst: seq<A>)
    requires burst != []
    ensures Replay(s, Calls(burst)) == Slot(Some(burst[|burst| - 1]), s.invocations)
    decreases |burst|
  {
    assert Calls(burst)[1..] == Calls(burst[1..]);
    if |burst| > 1 {
      BurstKeepsLast(Step(s, Call(burst[0])), burst[1..]);
    }
  }

  /**
   * A burst followed by the timer firing runs the wrapped function
   * exactly once, with the arguments of the most recent call.
   */
  lemma BurstThenFire<A>(s: Slot<A>, burst: seq<A>)
    requires burst != []
    ensures Replay(s, Calls(burst) + [Fire]) == Slot(None, s.invocations + [burst[|burst| - 1]])
  {
    ReplayAppend(s, Calls(burst), [Fire]);
    BurstKeepsLast(s, burst);
  }

  /** Each firing runs the wrapped function at most once; calls never run it. */
  function Fires<A>(events: seq<Event<A>>): nat
    decreases |events|
  {
    if events == [] then 0 else (if events[0].Fire? then 1 else 0) + Fires(events[1..])
  }

  lemma {:induction false} InvocationsBoundedByFires<A>(s: Slot<A>, events: seq<Event<A>>)
    ensures s.invocations <= Replay(s, events).invocations
    ensures |Replay(s, events).invocations| <= |s.invocations| + Fires(events)
    decreases |events|
  {
    if events != [] {
      var s' := Step(s, events[0]);
      InvocationsBoundedByFires(s', events[1..]);
    }
  }

  /** The closure state of one debounced function: its pending timer and the runs so far. */
  class Debouncer<A> {
    var pending: Option<A>
    var invocations: seq<A>

    function View(): Slot<A>
      reads this
    {
      Slot(pending, invocations)
    }

    constructor ()
      ensures pending == None && invocations == []
    {
      pending := None;
      invocations := [];
    }

    /** The wrapped function being called: cancel the pending run and schedule one with these arguments. */
    method Call(args: A)
      modifies this
      ensures View() == Step(old(View()), Event.Call(args))
      ensures pending == Some(args) && invocations == old(invocations)
    {
      pending := Some(args);
    }

    /**
     * The timer going off: if a run is pending, the wrapped function runs
     * with its arguments, returned in `ran` for the caller to carry out.
     */
    method Fire() returns (ran: Option<A>)
      modifies this
      ensures View() == Step(old(View()), Event.Fire)
      ensures ran == old(pending) && pending == None
      ensures invocations == old(invocations) + (if ran.Some? then [ran.value] else [])
    {
      ran := pending;
      if ran.Some? {
        invocations := invocations + [ran.value];
      }
      pending := None;
    }
  }
}

/** Runs of the accessory: any interleaving of set requests and timer
    firings, in any order the timers may fire. Every state a run reaches
    satisfies the invariant, and the door's target is decided by whichever
    completion fires last. */
module DoorTraces {
  import opened Wrappers
  import opened JsConfig
  import opened DoorSpec

  /** Something that happens to the accessory: the host sets the target
      (at time `now`, the relay write failing or not), or a pending timer
      fires. */
  datatype Event =
    | Request(value: int, callback: Callback, now: int, writeFails: bool)
    | FireCompletion(index: nat)
    | FirePulseOff(index: nat, writeFails: bool)

  /** A request can always arrive; a firing needs that timer to be pending. */
  predicate Enabled(d: Door, e: Event) {
    match e
    case Request(_, _, _, _) => true
    case FireCompletion(i) => i < |d.timers| && d.timers[i].Completion?
    case FirePulseOff(i, _) => i < |d.timers| && d.timers[i].PulseOff?
  }

  function Step(d: Door, e: Event): Door
    requires Enabled(d, e)
  {
    match e
    case Request(value, callback, now, writeFails) => SetTarget(d, value, callback, now, writeFails)
    case FireCompletion(i) => Complete(d, i)
    case FirePulseOff(i, writeFails) => EndPulse(d, i, writeFails)
  }

  /** The state after the events, or None if one of them fires a timer that
      is not pending. */
  function Run(d: Door, evs: seq<Event>): Option<Door>
    decreases |evs|
  {
    if evs == [] then Some(d)
    else if !Enabled(d, evs[0]) then None
    else Run(Step(d, evs[0]), evs[1..])
  }

  /** The timer at index i is the one the runtime fires next: it is due no
      later than any other, and no earlier-scheduled timer is due as early. */
  predicate Earliest(ts: seq<Timer>, i: nat) {
    && i < |ts|
    && (forall k :: 0 <= k < |ts| ==> ts[i].due <= ts[k].due)
    && (forall k :: 0 <= k < i ==> ts[k].due > ts[i].due)
  }

  lemma StepInv(d: Door, e: Event)
    requires Inv(d) && Enabled(d, e)
    ensures Inv(Step(d, e))
  {
    match e
    case Request(value, callback, now, writeFails) => SetTargetInv(d, value, callback, now, writeFails);
    case FireCompletion(i) => CompleteInv(d, i);
    case FirePulseOff(i, writeFails) => EndPulseInv(d, i, writeFails);
  }

  /** Every run from a state satisfying the invariant keeps it. */
  lemma {:induction false} RunInv(d: Door, evs: seq<Event>)
    requires Inv(d)
    ensures Run(d, evs).Some? ==> Inv(Run(d, evs).value)
    decreases |evs|
  {
    if evs != [] && Enabled(d, evs[0]) {
      StepInv(d, evs[0]);
      RunInv(Step(d, evs[0]), evs[1..]);
    }
  }

  /** Every state reachable from construction: the door reports only OPEN,
      CLOSED or OPENING; when no completion is pending it is settled on its
      target; each callback is answered at most once per request, and
      exactly once when nothing is pending; a missing relay is never
      written. */
  lemma Reachable(hasRelay: bool, pulseDuration: JsValue, evs: seq<Event>)
    ensures var r := Run(Initial(hasRelay, pulseDuration), evs);
      r.Some? ==>
        && (r.value.current == OPEN || r.value.current == CLOSED || r.value.current == OPENING)
        && (Pending(r.value.timers) == multiset{} ==> r.value.current == Settled(r.value.target))
        && multiset(r.value.answered) <= multiset(r.value.requested)
        && (Pending(r.value.timers) == multiset{} ==> multiset(r.value.answered) == multiset(r.value.requested))
        && (!hasRelay ==> r.value.writes == [])
  {
    InitialInv(hasRelay, pulseDuration);
    RunInv(Initial(hasRelay, pulseDuration), evs);
    var r := Run(Initial(hasRelay, pulseDuration), evs);
    if r.Some? {
      AnsweredExactlyOnce(r.value);
      RunKeepsRelay(Initial(hasRelay, pulseDuration), evs);
      RelayReleased(r.value);
    }
  }

  /** No event changes whether there is a relay or the pulse duration. */
  lemma {:induction false} RunKeepsRelay(d: Door, evs: seq<Event>)
    ensures Run(d, evs).Some? ==>
      Run(d, evs).value.hasRelay == d.hasRelay && Run(d, evs).value.pulseDuration == d.pulseDuration
    decreases |evs|
  {
    if evs != [] && Enabled(d, evs[0]) {
      RunKeepsRelay(Step(d, evs[0]), evs[1..]);
    }
  }

  /** Running two lists of events one after the other. */
  lemma {:induction false} RunAppend(d: Door, a: seq<Event>, b: seq<Event>)
    ensures Run(d, a + b) == if Run(d, a).Some? then Run(Run(d, a).value, b) else None
    decreases |a|
  {
    if a == [] {
      assert a + b == b;
    } else {
      assert (a + b)[0] == a[0] && (a + b)[1..] == a[1..] + b;
      if Enabled(d, a[0]) {
        RunAppend(Step(d, a[0]), a[1..], b);
      }
    }
  }

  predicate NoCompletionFires(evs: seq<Event>) {
    forall k :: 0 <= k < |evs| ==> !evs[k].FireCompletion?
  }

  /** Without completions firing, the target stays put and the door stays
      either settled on it or OPENING. */
  lemma {:induction false} TargetHeldWithoutCompletions(d: Door, evs: seq<Event>, v: int)
    requires NoCompletionFires(evs)
    requires d.target == v && (d.current == Settled(v) || d.current == OPENING)
    ensures Run(d, evs).Some? ==>
      && Run(d, evs).value.target == v
      && (Run(d, evs).value.current == Settled(v) || Run(d, evs).value.current == OPENING)
    decreases |evs|
  {
    if evs != [] && Enabled(d, evs[0]) {
      assert NoCompletionFires(evs[1..]) by {
        forall k | 0 <= k < |evs[1..]| ensures !evs[1..][k].FireCompletion? {
          assert evs[1..][k] == evs[k + 1];
        }
      }
      TargetHeldWithoutCompletions(Step(d, evs[0]), evs[1..], v);
    }
  }

  /** Commands are not serialised: the target the door ends with is the
      value of whichever completion fired last, not that of the latest
      request, and the door is then either settled on it or OPENING again. */
  lemma LastCompletionDecides(d: Door, before: seq<Event>, i: nat, after: seq<Event>)
    requires Run(d, before).Some?
    requires i < |Run(d, before).value.timers| && Run(d, before).value.timers[i].Completion?
    requires NoCompletionFires(after)
    ensures var v := Run(d, before).value.timers[i].value;
      var r := Run(d, before + [FireCompletion(i)] + after);
      r.Some? ==> r.value.target == v && (r.value.current == Settled(v) || r.value.current == OPENING)
  {
    var m := Run(d, before).value;
    var v := m.timers[i].value;
    RunAppend(d, before + [FireCompletion(i)], after);
    RunAppend(d, before, [FireCompletion(i)]);
    assert Run(m, [FireCompletion(i)]) == Some(Complete(m, i));
    TargetHeldWithoutCompletions(Complete(m, i), after, v);
  }

  /** Opening from the initial CLOSED state with the default 1000 ms pulse:
      at t=0 the door is OPENING and the relay is at 1; at t=1000 the relay
      is back at 0; at t=4000 the door is OPEN and the caller is answered. */
  lemma OpenFromClosed(callback: Callback)
    ensures var d1 := SetTarget(Initial(true, DEFAULT_PULSE_DURATION), OPEN, callback, 0, false);
      && d1.current == OPENING && d1.target == CLOSED
      && d1.writes == [RelayWrite(1, true)]
      && d1.timers == [PulseOff(1000), Completion(4000, OPEN, callback)]
      && Earliest(d1.timers, 0)
      && var d2 := EndPulse(d1, 0, false);
      && d2.current == OPENING
      && d2.writes == [RelayWrite(1, true), RelayWrite(0, true)]
      && Earliest(d2.timers, 0) && d2.timers[0].Completion?
      && var d3 := Complete(d2, 0);
      && d3.current == OPEN && d3.target == OPEN
      && d3.timers == [] && d3.answered == [callback]
      && d3.pushed == [OPENING, OPEN]
  {
  }

  /** The state after an open request at t=0 and a close request at
      t=1000, both with the default 1000 ms pulse. */
  function OpenThenClose(first: Callback, second: Callback): Door {
    SetTarget(SetTarget(Initial(true, DEFAULT_PULSE_DURATION), OPEN, first, 0, false), CLOSED, second, 1000, false)
  }

  /** A request to close at t=1000 while an open is in flight is accepted:
      a second pulse and a second completion are scheduled, and both
      callbacks wait at once. */
  lemma CloseWhileOpening(first: Callback, second: Callback)
    ensures OpenThenClose(first, second) == Door(
      OPENING, CLOSED, true, DEFAULT_PULSE_DURATION,
      [PulseOff(1000), Completion(4000, OPEN, first), PulseOff(2000), Completion(5000, CLOSED, second)],
      [RelayWrite(1, true), RelayWrite(1, true)],
      [OPENING, OPENING],
      [first, second],
      [])
  {
  }

  /** Firing those timers in due order, the door first reports OPEN (target
      OPEN) at t=4000, contradicting the latest request, and only reaches
      CLOSED at t=5000. */
  lemma CloseWhileOpeningSettles(first: Callback, second: Callback)
    ensures var d2 := OpenThenClose(first, second);
      && Earliest(d2.timers, 0)
      && var d3 := EndPulse(d2, 0, false);
      && Earliest(d3.timers, 1)
      && var d4 := EndPulse(d3, 1, false);
      && Earliest(d4.timers, 0)
      && var d5 := Complete(d4, 0);
      && d5.current == OPEN && d5.target == OPEN && d5.answered == [first]
      && Earliest(d5.timers, 0)
      && var d6 := Complete(d5, 0);
      && d6.current == CLOSED && d6.target == CLOSED && d6.answered == [first, second]
      && d6.writes == [RelayWrite(1, true), RelayWrite(1, true), RelayWrite(0, true), RelayWrite(0, true)]
  {
    CloseWhileOpening(first, second);
  }
}

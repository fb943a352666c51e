/** The garage-door state machine of the accessory, as values: the two door
    states the host sees, the timers still pending, and what has been
    written to the relay, pushed to the host and answered to callers. Each
    handler and timer callback is a function from the old state to the new
    one; the class in accessory.dfy is proved to follow these functions. */
module DoorSpec {
  import opened JsConfig

  // CurrentDoorState values of the home-automation protocol.
  const OPEN: int := 0
  const CLOSED: int := 1
  const OPENING: int := 2
  const CLOSING: int := 3
  const STOPPED: int := 4

  /** How long the door is assumed to take to move, in ms. */
  const MOVEMENT_MS: int := 4000

  /** The identity of a caller's callback passed to the set handler. */
  type Callback = nat

  /** The state a completion settles in for a requested target value: OPEN
      for 0, CLOSED for anything else. */
  function Settled(value: int): (s: int)
    ensures s == OPEN || s == CLOSED
    ensures value == OPEN ==> s == OPEN
    ensures value != OPEN ==> s == CLOSED
  {
    if value == 0 then OPEN else CLOSED
  }

  /** A timer scheduled by the set handler and not yet fired: the write of
      level 0 that ends a relay pulse, or the completion that settles the
      door and answers the caller. `due` is the time it is scheduled for. */
  datatype Timer =
    | PulseOff(due: int)
    | Completion(due: int, value: int, callback: Callback)

  /** One attempted write to the relay: the level and whether it succeeded. */
  datatype RelayWrite = RelayWrite(level: int, ok: bool)

  datatype Door = Door(
    current: int,              // currentState
    target: int,               // targetState
    hasRelay: bool,            // the GPIO line was opened (relay is not null)
    pulseDuration: JsValue,    // the configured pulse duration, after defaulting
    timers: seq<Timer>,        // pending timers, in the order they were scheduled
    writes: seq<RelayWrite>,   // every write attempted on the relay
    pushed: seq<int>,          // every currentState pushed to the host
    requested: seq<Callback>,  // the callback of every set request received
    answered: seq<Callback>)   // every callback invocation

  /** The state right after construction. */
  function Initial(hasRelay: bool, pulseDuration: JsValue): (d: Door)
    ensures d.current == CLOSED && d.target == CLOSED
    ensures d.timers == [] && d.writes == [] && d.pushed == []
    ensures d.requested == [] && d.answered == []
  {
    Door(CLOSED, CLOSED, hasRelay, pulseDuration, [], [], [], [], [])
  }

  /** The set handler: a request equal to the current state is answered at
      once and changes nothing else; any other request writes 1 to the
      relay (when there is one), schedules the end of the pulse (unless that
      write failed), enters OPENING and schedules the completion
      MOVEMENT_MS later. The two cases are told apart by whether a timer
      was scheduled; the target is left alone in both. */
  function SetTarget(d: Door, value: int, callback: Callback, now: int, writeFails: bool): (r: Door)
    ensures r.requested == d.requested + [callback]
    ensures r.target == d.target && r.hasRelay == d.hasRelay && r.pulseDuration == d.pulseDuration
    ensures r.timers == d.timers <==> value == d.current
    ensures value == d.current ==>
      && r.current == d.current && r.writes == d.writes && r.pushed == d.pushed
      && r.answered == d.answered + [callback]
    ensures value != d.current ==> r.current == OPENING && r.answered == d.answered
  {
    var d1 := d.(requested := d.requested + [callback]);
    if value == d.current then
      d1.(answered := d.answered + [callback])
    else
      var written := if d.hasRelay then [RelayWrite(1, !writeFails)] else [];
      var pulse := if d.hasRelay && !writeFails then [PulseOff(now + TimerDelay(d.pulseDuration))] else [];
      d1.(current := OPENING,
          pushed := d.pushed + [OPENING],
          writes := d.writes + written,
          timers := d.timers + pulse + [Completion(now + MOVEMENT_MS, value, callback)])
  }

  /** The pending timers once the one at index i has fired. */
  function Remove(ts: seq<Timer>, i: nat): (r: seq<Timer>)
    requires i < |ts|
    ensures |r| == |ts| - 1
  {
    ts[..i] + ts[i + 1..]
  }

  /** The completion timer at index i fires: the door settles (OPEN for
      value 0, CLOSED otherwise), the target becomes the requested value,
      the new state is pushed, the caller is answered and the relay is not
      touched. */
  function Complete(d: Door, i: nat): (r: Door)
    requires i < |d.timers| && d.timers[i].Completion?
    ensures r.current == (if d.timers[i].value == 0 then OPEN else CLOSED)
    ensures r.target == d.timers[i].value
    ensures r.pushed == d.pushed + [r.current]
    ensures r.answered == d.answered + [d.timers[i].callback]
    ensures |r.timers| == |d.timers| - 1
    ensures r.writes == d.writes && r.requested == d.requested
  {
    var c := d.timers[i];
    d.(current := Settled(c.value),
       target := c.value,
       timers := Remove(d.timers, i),
       pushed := d.pushed + [Settled(c.value)],
       answered := d.answered + [c.callback])
  }

  /** The pulse-off timer at index i fires: level 0 is written to the
      relay, and neither door state nor any caller is affected. */
  function EndPulse(d: Door, i: nat, writeFails: bool): (r: Door)
    requires i < |d.timers| && d.timers[i].PulseOff?
    ensures r.writes == d.writes + [RelayWrite(0, !writeFails)]
    ensures r.current == d.current && r.target == d.target && r.pushed == d.pushed
    ensures r.answered == d.answered && r.requested == d.requested
    ensures |r.timers| == |d.timers| - 1
  {
    d.(timers := Remove(d.timers, i), writes := d.writes + [RelayWrite(0, !writeFails)])
  }

  // ---------------------------------------------------------------------
  // Views of the pending timers and of the relay log

  /** The callbacks still waiting for their completion. */
  function Pending(ts: seq<Timer>): multiset<Callback> {
    if ts == [] then multiset{}
    else (if ts[0].Completion? then multiset{ts[0].callback} else multiset{}) + Pending(ts[1..])
  }

  /** The number of pulse-off timers pending. */
  function PulseOffs(ts: seq<Timer>): nat {
    if ts == [] then 0 else (if ts[0].PulseOff? then 1 else 0) + PulseOffs(ts[1..])
  }

  /** The number of successful writes of level 1. */
  function Activations(ws: seq<RelayWrite>): nat {
    if ws == [] then 0 else (if ws[0] == RelayWrite(1, true) then 1 else 0) + Activations(ws[1..])
  }

  /** The number of attempted writes of level 0. */
  function Releases(ws: seq<RelayWrite>): nat {
    if ws == [] then 0 else (if ws[0].level == 0 then 1 else 0) + Releases(ws[1..])
  }

  lemma {:induction false} PendingAppend(a: seq<Timer>, b: seq<Timer>)
    ensures Pending(a + b) == Pending(a) + Pending(b)
    ensures PulseOffs(a + b) == PulseOffs(a) + PulseOffs(b)
  {
    if a != [] {
      assert (a + b)[1..] == a[1..] + b;
      PendingAppend(a[1..], b);
    } else {
      assert a + b == b;
    }
  }

  lemma {:induction false} WritesAppend(a: seq<RelayWrite>, b: seq<RelayWrite>)
    ensures Activations(a + b) == Activations(a) + Activations(b)
    ensures Releases(a + b) == Releases(a) + Releases(b)
  {
    if a != [] {
      assert (a + b)[1..] == a[1..] + b;
      WritesAppend(a[1..], b);
    } else {
      assert a + b == b;
    }
  }

  lemma PendingSingle(t: Timer)
    ensures Pending([t]) == (if t.Completion? then multiset{t.callback} else multiset{})
    ensures PulseOffs([t]) == (if t.PulseOff? then 1 else 0)
  {
    assert [t][1..] == [];
  }

  /** Splitting the pending timers around index i. */
  lemma RemoveSplit(ts: seq<Timer>, i: nat)
    requires i < |ts|
    ensures Pending(ts) == Pending(ts[..i]) + Pending([ts[i]]) + Pending(ts[i + 1..])
    ensures PulseOffs(ts) == PulseOffs(ts[..i]) + PulseOffs([ts[i]]) + PulseOffs(ts[i + 1..])
    ensures Pending(Remove(ts, i)) == Pending(ts[..i]) + Pending(ts[i + 1..])
    ensures PulseOffs(Remove(ts, i)) == PulseOffs(ts[..i]) + PulseOffs(ts[i + 1..])
  {
    var a, x, b := ts[..i], ts[i], ts[i + 1..];
    assert ts == (a + [x]) + b;
    assert Remove(ts, i) == a + b;
    PendingAppend(a + [x], b);
    PendingAppend(a, [x]);
    PendingAppend(a, b);
  }

  /** Firing the completion at index i takes its callback out of the pending ones. */
  lemma RemoveCompletion(ts: seq<Timer>, i: nat)
    requires i < |ts| && ts[i].Completion?
    ensures Pending(Remove(ts, i)) + multiset{ts[i].callback} == Pending(ts)
    ensures PulseOffs(Remove(ts, i)) == PulseOffs(ts)
  {
    RemoveSplit(ts, i);
    PendingSingle(ts[i]);
  }

  /** Firing the pulse-off at index i leaves one pulse-off fewer and the
      pending callbacks as they were. */
  lemma RemovePulseOff(ts: seq<Timer>, i: nat)
    requires i < |ts| && ts[i].PulseOff?
    ensures Pending(Remove(ts, i)) == Pending(ts)
    ensures PulseOffs(Remove(ts, i)) == PulseOffs(ts) - 1
  {
    RemoveSplit(ts, i);
    PendingSingle(ts[i]);
  }

  // ---------------------------------------------------------------------
  // The invariant every reachable state satisfies

  /** The door only ever reports OPEN, CLOSED or OPENING (never CLOSING or
      STOPPED), and has only ever pushed those values to the host. */
  ghost predicate ReportsKnownStates(d: Door) {
    && (d.current == OPEN || d.current == CLOSED || d.current == OPENING)
    && forall k :: 0 <= k < |d.pushed| ==> d.pushed[k] == OPEN || d.pushed[k] == CLOSED || d.pushed[k] == OPENING
  }

  /** With no completion pending, the door is settled on its target. */
  ghost predicate SettledWhenIdle(d: Door) {
    Pending(d.timers) == multiset{} ==> d.current == Settled(d.target)
  }

  /** Without a relay nothing is written and no pulse is pending. */
  ghost predicate QuietWithoutRelay(d: Door) {
    !d.hasRelay ==> d.writes == [] && PulseOffs(d.timers) == 0
  }

  /** Every successful activation of the relay is matched by a later
      release or by a pending pulse-off. */
  ghost predicate PulsesBalanced(d: Door) {
    Activations(d.writes) == Releases(d.writes) + PulseOffs(d.timers)
  }

  /** Every request is either answered or still has its completion pending,
      and nothing else is ever answered. */
  ghost predicate AnsweredOnce(d: Door) {
    multiset(d.answered) + Pending(d.timers) == multiset(d.requested)
  }

  /** The invariant every reachable state satisfies. */
  ghost predicate Inv(d: Door) {
    ReportsKnownStates(d) && SettledWhenIdle(d) && QuietWithoutRelay(d) && PulsesBalanced(d) && AnsweredOnce(d)
  }

  lemma InitialInv(hasRelay: bool, pulseDuration: JsValue)
    ensures Inv(Initial(hasRelay, pulseDuration))
  {
  }

  /** Appending the timers one request schedules. */
  lemma ScheduleCounts(ts: seq<Timer>, pulse: seq<Timer>, c: Timer)
    requires c.Completion? && (pulse == [] || (|pulse| == 1 && pulse[0].PulseOff?))
    ensures Pending(ts + pulse + [c]) == Pending(ts) + multiset{c.callback}
    ensures PulseOffs(ts + pulse + [c]) == PulseOffs(ts) + |pulse|
  {
    PendingAppend(ts + pulse, [c]);
    PendingAppend(ts, pulse);
    PendingSingle(c);
    if pulse != [] {
      assert pulse == [pulse[0]];
      PendingSingle(pulse[0]);
    }
  }

  /** Appending the writes one request attempts. */
  lemma ActivationCounts(ws: seq<RelayWrite>, written: seq<RelayWrite>)
    requires written == [] || (|written| == 1 && written[0].level == 1)
    ensures Activations(ws + written) == Activations(ws) + (if written != [] && written[0].ok then 1 else 0)
    ensures Releases(ws + written) == Releases(ws)
  {
    WritesAppend(ws, written);
    if written != [] { assert written[1..] == []; }
  }

  /** What an accepted request adds to the pending timers and to the relay log. */
  lemma SetTargetCounts(d: Door, value: int, callback: Callback, now: int, writeFails: bool)
    requires value != d.current
    ensures var r := SetTarget(d, value, callback, now, writeFails);
      && Pending(r.timers) == Pending(d.timers) + multiset{callback}
      && PulseOffs(r.timers) == PulseOffs(d.timers) + (if d.hasRelay && !writeFails then 1 else 0)
      && Activations(r.writes) == Activations(d.writes) + (if d.hasRelay && !writeFails then 1 else 0)
      && Releases(r.writes) == Releases(d.writes)
  {
    var written := if d.hasRelay then [RelayWrite(1, !writeFails)] else [];
    var pulse := if d.hasRelay && !writeFails then [PulseOff(now + TimerDelay(d.pulseDuration))] else [];
    ScheduleCounts(d.timers, pulse, Completion(now + MOVEMENT_MS, value, callback));
    ActivationCounts(d.writes, written);
  }

  lemma SetTargetInv(d: Door, value: int, callback: Callback, now: int, writeFails: bool)
    requires Inv(d)
    ensures Inv(SetTarget(d, value, callback, now, writeFails))
  {
    var r := SetTarget(d, value, callback, now, writeFails);
    if value == d.current {
      assert r.timers == d.timers && r.writes == d.writes && r.pushed == d.pushed;
      assert multiset(r.answered) == multiset(d.answered) + multiset{callback};
      assert multiset(r.requested) == multiset(d.requested) + multiset{callback};
    } else {
      SetTargetCounts(d, value, callback, now, writeFails);
      assert ReportsKnownStates(r) by {
        assert r.pushed == d.pushed + [OPENING];
      }
      assert r.answered == d.answered;
      assert multiset(r.requested) == multiset(d.requested) + multiset{callback};
    }
  }

  lemma CompleteInv(d: Door, i: nat)
    requires Inv(d) && i < |d.timers| && d.timers[i].Completion?
    ensures Inv(Complete(d, i))
  {
    var r := Complete(d, i);
    assert ReportsKnownStates(r);
    assert SettledWhenIdle(r);
    assert QuietWithoutRelay(r) && PulsesBalanced(r) && AnsweredOnce(r) by {
      RemoveCompletion(d.timers, i);
    }
  }

  lemma EndPulseInv(d: Door, i: nat, writeFails: bool)
    requires Inv(d) && i < |d.timers| && d.timers[i].PulseOff?
    ensures Inv(EndPulse(d, i, writeFails))
  {
    var r := EndPulse(d, i, writeFails);
    var w := RelayWrite(0, !writeFails);
    assert Activations(r.writes) == Activations(d.writes) && Releases(r.writes) == Releases(d.writes) + 1 by {
      WritesAppend(d.writes, [w]);
      assert [w][1..] == [];
    }
    RemovePulseOff(d.timers, i);
  }

  // ---------------------------------------------------------------------
  // What each handler does

  /** An accepted request enters OPENING whatever the requested value,
      leaves the target alone until the completion fires, answers nobody
      yet, writes 1 to the relay only when there is one, schedules the
      pulse-off only when that write succeeded, and schedules exactly one
      completion MOVEMENT_MS after `now`. */
  lemma SetTargetAccepted(d: Door, value: int, callback: Callback, now: int, writeFails: bool)
    requires value != d.current
    ensures var r := SetTarget(d, value, callback, now, writeFails);
      && r.current == OPENING && r.target == d.target
      && r.pushed == d.pushed + [OPENING]
      && r.answered == d.answered
      && r.writes == d.writes + (if d.hasRelay then [RelayWrite(1, !writeFails)] else [])
      && r.timers[..|d.timers|] == d.timers
      && r.timers[|r.timers| - 1] == Completion(now + MOVEMENT_MS, value, callback)
      && (d.hasRelay && !writeFails ==>
            |r.timers| == |d.timers| + 2 && r.timers[|d.timers|] == PulseOff(now + TimerDelay(d.pulseDuration)))
      && (!d.hasRelay || writeFails ==> |r.timers| == |d.timers| + 1)
  {
  }

  /** While the door is OPENING, no target the host can request equals the
      current state, so every such request pulses the relay again and
      schedules another completion. */
  lemma OpeningAcceptsEveryTarget(d: Door, value: int, callback: Callback, now: int, writeFails: bool)
    requires d.current == OPENING && (value == OPEN || value == CLOSED)
    ensures var r := SetTarget(d, value, callback, now, writeFails);
      && Pending(r.timers) == Pending(d.timers) + multiset{callback}
      && PulseOffs(r.timers) == PulseOffs(d.timers) + (if d.hasRelay && !writeFails then 1 else 0)
      && Activations(r.writes) == Activations(d.writes) + (if d.hasRelay && !writeFails then 1 else 0)
  {
    SetTargetCounts(d, value, callback, now, writeFails);
  }

  /** When the relay write succeeds, the pulse ends no later than the door
      settles exactly when the pulse delay is at most MOVEMENT_MS; nothing
      in the accessory enforces that bound. */
  lemma PulseWithinMovement(d: Door, value: int, callback: Callback, now: int)
    requires value != d.current && d.hasRelay
    ensures var r := SetTarget(d, value, callback, now, false);
      && |r.timers| == |d.timers| + 2
      && r.timers[|d.timers|].PulseOff? && r.timers[|d.timers| + 1].Completion?
      && (r.timers[|d.timers|].due <= r.timers[|d.timers| + 1].due <==> TimerDelay(d.pulseDuration) <= MOVEMENT_MS)
  {
  }

  /** A completion settles the door on the state its value asks for, sets
      the target to that value, and answers its caller: the callback leaves
      the pending ones and is answered once. */
  lemma CompleteSettles(d: Door, i: nat)
    requires i < |d.timers| && d.timers[i].Completion?
    ensures var c, r := d.timers[i], Complete(d, i);
      && r.current == (if c.value == 0 then OPEN else CLOSED)
      && r.target == c.value
      && r.pushed == d.pushed + [r.current]
      && r.answered == d.answered + [c.callback]
      && Pending(r.timers) + multiset{c.callback} == Pending(d.timers)
      && PulseOffs(r.timers) == PulseOffs(d.timers)
      && r.writes == d.writes
  {
    RemoveCompletion(d.timers, i);
  }

  /** The end of a pulse writes level 0 and touches neither door state. */
  lemma EndPulseReleases(d: Door, i: nat, writeFails: bool)
    requires i < |d.timers| && d.timers[i].PulseOff?
    ensures var r := EndPulse(d, i, writeFails);
      && r.current == d.current && r.target == d.target
      && r.writes == d.writes + [RelayWrite(0, !writeFails)]
      && Pending(r.timers) == Pending(d.timers)
      && PulseOffs(r.timers) + 1 == PulseOffs(d.timers)
  {
    RemovePulseOff(d.timers, i);
  }

  // ---------------------------------------------------------------------
  // Consequences of the invariant

  /** A pulse-off is only ever pending when there is a relay, so the write
      of level 0 it performs always has a line to write to. */
  lemma PulseOffNeedsRelay(d: Door, i: nat)
    requires Inv(d) && i < |d.timers| && d.timers[i].PulseOff?
    ensures d.hasRelay
  {
    RemovePulseOff(d.timers, i);
    assert QuietWithoutRelay(d);
  }

  /** Every callback is answered at most as often as it was passed in, and
      once no completion is pending, exactly as often. */
  lemma AnsweredExactlyOnce(d: Door)
    requires Inv(d)
    ensures multiset(d.answered) <= multiset(d.requested)
    ensures Pending(d.timers) == multiset{} ==> multiset(d.answered) == multiset(d.requested)
    ensures forall cb :: multiset(d.answered)[cb] + Pending(d.timers)[cb] == multiset(d.requested)[cb]
  {
    assert AnsweredOnce(d);
  }

  /** With no completion pending the door is OPEN or CLOSED as its target
      says; for the targets the host sends (0 and 1) the two are equal. */
  lemma IdleMeansSettled(d: Door)
    requires Inv(d) && Pending(d.timers) == multiset{}
    ensures d.current == OPEN || d.current == CLOSED
    ensures d.current == Settled(d.target)
    ensures d.target == OPEN || d.target == CLOSED ==> d.current == d.target
  {
    assert SettledWhenIdle(d);
  }

  /** The door never reports CLOSING or STOPPED, even while closing. */
  lemma NeverClosing(d: Door)
    requires Inv(d)
    ensures d.current != CLOSING && d.current != STOPPED
    ensures CLOSING !in d.pushed && STOPPED !in d.pushed
  {
    assert ReportsKnownStates(d);
  }

  /** Once no pulse-off is pending, every successful activation of the
      relay has been followed by an attempt to release it; without a relay
      nothing was ever written. */
  lemma RelayReleased(d: Door)
    requires Inv(d)
    ensures PulseOffs(d.timers) == 0 ==> Activations(d.writes) == Releases(d.writes)
    ensures !d.hasRelay ==> d.writes == []
  {
    assert PulsesBalanced(d) && QuietWithoutRelay(d);
  }
}

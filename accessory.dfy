/** The accessory object itself: the constructor defaults its settings and
    opens the relay (or falls back to simulation), the two get handlers read
    the door state, and the set handler and its two timer callbacks update
    it in place. Each state-changing method is proved to follow the matching
    function of DoorSpec and to keep its invariant. */
module GpioGarageDoor {
  import opened Wrappers
  import opened JsConfig
  import opened DoorSpec

  /** An open GPIO line, configured as an output, on the given pin. */
  datatype Relay = Relay(pin: JsValue)

  class GpioGarageDoorAccessory {
    var name: JsValue
    var gpioPin: JsValue
    var pulseDuration: JsValue
    var relay: Option<Relay>          // None: the line could not be opened (simulation mode)
    var currentState: int
    var targetState: int
    var timers: seq<Timer>            // timers scheduled and not yet fired

    ghost var writes: seq<RelayWrite>
    ghost var pushed: seq<int>
    ghost var requested: seq<Callback>
    ghost var answered: seq<Callback>

    /** The accessory's state as a DoorSpec value. */
    ghost function Model(): Door
      reads this
    {
      Door(currentState, targetState, relay.Some?, pulseDuration, timers, writes, pushed, requested, answered)
    }

    ghost predicate Valid()
      reads this
    {
      && Inv(Model())
      && (relay.Some? ==> relay.value.pin == gpioPin)
    }

    /** Reads the settings with their defaults and opens the relay on the
        configured pin; `gpioOpens` says whether opening the line succeeds.
        When it fails the accessory runs without a relay. */
    constructor (config: Config, gpioOpens: bool)
      ensures name == WithDefaults(config).name
      ensures gpioPin == WithDefaults(config).gpioPin
      ensures pulseDuration == WithDefaults(config).pulseDuration
      ensures relay == if gpioOpens then Some(Relay(gpioPin)) else None
      ensures Model() == Initial(gpioOpens, pulseDuration)
      ensures currentState == CLOSED && targetState == CLOSED
      ensures Valid()
    {
      name := Or(config.name, DEFAULT_NAME);
      gpioPin := Or(config.gpioPin, DEFAULT_GPIO_PIN);
      pulseDuration := Or(config.pulseDuration, DEFAULT_PULSE_DURATION);
      if gpioOpens {
        relay := Some(Relay(gpioPin));
      } else {
        relay := None;
      }
      currentState := CLOSED;
      targetState := CLOSED;
      timers := [];
      writes, pushed, requested, answered := [], [], [], [];
      new;
      InitialInv(gpioOpens, pulseDuration);
    }

    /** The host asks for the current door state. */
    method HandleCurrentDoorStateGet() returns (state: int)
      ensures state == currentState
    {
      state := currentState;
    }

    /** The host asks for the target door state. */
    method HandleTargetDoorStateGet() returns (state: int)
      ensures state == targetState
    {
      state := targetState;
    }

    /** The host sets the target at time `now`; `writeFails` says whether
        the write of level 1 to the relay throws. */
    method HandleTargetDoorStateSet(value: int, callback: Callback, now: int, writeFails: bool)
      requires Valid()
      modifies this
      ensures Valid()
      ensures Model() == SetTarget(old(Model()), value, callback, now, writeFails)
      ensures name == old(name) && gpioPin == old(gpioPin)
      ensures relay == old(relay) && pulseDuration == old(pulseDuration)
    {
      ghost var before := Model();
      if value == currentState {
        requested := requested + [callback];
        answered := answered + [callback];
      } else {
        StartMoving(value, callback, now, writeFails);
      }
      assert Model() == SetTarget(before, value, callback, now, writeFails);
      SetTargetInv(before, value, callback, now, writeFails);
    }

    /** The set handler for a value other than the current state: pulses
        the relay, enters OPENING whatever the value, and schedules the
        completion MOVEMENT_MS after `now`. */
    method StartMoving(value: int, callback: Callback, now: int, writeFails: bool)
      requires value != currentState
      modifies this
      ensures Model() == SetTarget(old(Model()), value, callback, now, writeFails)
      ensures name == old(name) && gpioPin == old(gpioPin)
      ensures relay == old(relay) && pulseDuration == old(pulseDuration)
    {
      ghost var after := SetTarget(Model(), value, callback, now, writeFails);
      requested := requested + [callback];
      PulseRelay(now, writeFails);
      currentState := OPENING;
      pushed := pushed + [currentState];
      timers := timers + [Completion(now + MOVEMENT_MS, value, callback)];
      assert timers == after.timers;
    }

    /** Pulses the relay when there is one: writes level 1 and, unless that
        write throws (the exception is caught), schedules the write of level
        0 after the pulse duration. Without a relay nothing is written. */
    method PulseRelay(now: int, writeFails: bool)
      modifies this`writes, this`timers
      ensures writes == old(writes) + if relay.Some? then [RelayWrite(1, !writeFails)] else []
      ensures timers == old(timers) + if relay.Some? && !writeFails then [PulseOff(now + TimerDelay(pulseDuration))] else []
    {
      if relay.Some? {
        writes := writes + [RelayWrite(1, !writeFails)];
        if !writeFails {
          timers := timers + [PulseOff(now + TimerDelay(pulseDuration))];
        }
      }
    }

    /** The completion timer at index i fires. */
    method FireCompletion(i: nat)
      requires Valid() && i < |timers| && timers[i].Completion?
      modifies this
      ensures Valid()
      ensures Model() == Complete(old(Model()), i)
      ensures name == old(name) && gpioPin == old(gpioPin)
      ensures relay == old(relay) && pulseDuration == old(pulseDuration)
    {
      ghost var before := Model();
      var completion := timers[i];
      timers := Remove(timers, i);
      currentState := if completion.value == 0 then OPEN else CLOSED;
      targetState := completion.value;
      pushed := pushed + [currentState];
      answered := answered + [completion.callback];
      assert Model() == Complete(before, i);
      CompleteInv(before, i);
    }

    /** The pulse-off timer at index i fires and writes level 0 to the
        relay; `writeFails` says whether that write throws, and `thrown`
        reports the exception, which nothing in the accessory catches. */
    method FirePulseOff(i: nat, writeFails: bool) returns (thrown: bool)
      requires Valid() && i < |timers| && timers[i].PulseOff?
      modifies this
      ensures Valid()
      ensures Model() == EndPulse(old(Model()), i, writeFails)
      ensures relay.Some?
      ensures thrown == writeFails
      ensures name == old(name) && gpioPin == old(gpioPin)
      ensures relay == old(relay) && pulseDuration == old(pulseDuration)
    {
      ghost var before := Model();
      PulseOffNeedsRelay(before, i);
      timers := Remove(timers, i);
      writes := writes + [RelayWrite(0, !writeFails)];
      thrown := writeFails;
      assert Model() == EndPulse(before, i, writeFails);
      EndPulseInv(before, i, writeFails);
    }
  }
}

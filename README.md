# Garage-door accessory: a Dafny model

This project models the garage-door accessory of a home-automation bridge
plugin. The accessory drives one relay from a GPIO pin. It keeps the door's
`currentState` (OPEN=0, CLOSED=1, OPENING=2, CLOSING=3, STOPPED=4) and
`targetState` (OPEN=0, CLOSED=1) and answers the host's get and set
requests. A set request that differs from the current state does three
things. It pulses the relay (level 1, then level 0 after `pulseDuration`)
when the relay exists. It puts the door in OPENING. It schedules a
completion 4000 ms later that settles the door and answers the caller.

The project has four modules:

- `JsConfig` (config.dfy): configuration values and their JavaScript
  `||` defaulting (`name` to "Garage Door", `gpioPin` to 18,
  `pulseDuration` to 1000). It also gives the delay the runtime's
  `setTimeout` applies to a duration.
- `DoorSpec` (door.dfy): the state machine as values. `Door` holds both
  door states, the pending timers, and logs of relay writes, pushed
  states, requests received and callbacks answered. `SetTarget`,
  `Complete` and `EndPulse` are the set handler and its two timer
  callbacks. `Inv` is the invariant they keep, and lemmas state what each
  step does.
- `DoorTraces` (traces.dfy): runs of any interleaving of requests and
  timer firings. It proves the invariant for every reachable state and
  that the target is decided by the last completion to fire. It also
  replays two concrete timelines.
- `GpioGarageDoor` (accessory.dfy): the accessory class. Its fields are
  updated in place. Each handler is proved to follow the matching
  `DoorSpec` function and to keep `Valid()`.

Outside effects are parameters. Whether opening the GPIO line succeeds is
the constructor's `gpioOpens`. Whether a relay write throws is
`writeFails`. The clock is the `now` given to the set handler. The
caller's callback is a number. Timers are records in the `timers` field,
and `FireCompletion` / `FirePulseOff` fire the one at a given index. Any
firing order is allowed, which covers the runtime's due-time order
(`DoorTraces.Earliest` describes that order; the scenario lemmas follow
it).

Behaviour of the code worth noting:

- Commands are not serialised. A request made while the door is OPENING
  is accepted. It pulses the relay again and schedules a second completion.
  The door ends on the value of whichever completion fires last.
- The door enters OPENING for every accepted request, closing included.
  CLOSING and STOPPED are never reported.
- There is one attempt to open one pin, with no fallback pins. A failure
  leaves `relay` as None (simulation mode).
- Nothing bounds the pulse by the movement time. The runtime's timer
  applies 1 ms to a duration that is out of range or not a number.
  `DoorSpec.PulseWithinMovement` shows that the pulse ends before the door
  settles exactly when the delay the timer applies is at most 4000 ms.
- If the write of level 1 throws, the exception is caught. The pulse-off
  is then not scheduled, because it is set up inside the same `try`. The
  door still enters OPENING and the completion is still scheduled.

## Model

| member | source | states |
|---|---|---|
| JsConfig.Or | index.js:20-22 | JavaScript's or-operator on `v` and `d` yields one of them. It is `v` when `v` is truthy and `d` when `v` is falsy. It is truthy iff either operand is. |
| JsConfig.WithDefaults | index.js:20-22 | Each setting is the configured value when that value is truthy and the default otherwise. All three settings are truthy afterwards. |
| JsConfig.WithDefaultsIdempotent | index.js:20-22 | Applying the defaults to settings that are already defaulted changes nothing. |
| JsConfig.ZeroFallsBackToDefault | index.js:20-22 | A configured 0, "" or false gets the default, the same as a missing field. |
| JsConfig.TimerDelay | index.js:67-69 | The delay the timer applies is between 1 and 2^31-1 ms. It is the configured number when that number is in range. It is 1 ms for a number below 1 or above 2^31-1, and for any value that is not a number. |
| JsConfig.DefaultPulseDelay | index.js:22 | With no pulse duration configured, the pulse lasts 1000 ms. |
| DoorSpec.Settled | index.js:83-85 | A completion settles the door on OPEN or CLOSED: OPEN for the value 0 and CLOSED for every other value. For the host's targets 0 and 1 it is the target itself. |
| DoorSpec.Initial | index.js:34-35 | A new accessory is CLOSED with target CLOSED. Nothing is pending, written, pushed or answered. |
| DoorSpec.InitialInv | index.js:34-35 | The state after construction satisfies the invariant. |
| DoorSpec.SetTarget | index.js:56-90 | Every request is recorded. It schedules a timer iff it differs from the current state. A request equal to the current state is answered at once and changes neither state, the relay log nor the pushed states. A different one makes the door OPENING and leaves its caller unanswered. The target, the relay and the pulse duration are untouched. |
| DoorSpec.Complete | index.js:82-89 | The completion sets the door to OPEN for value 0 and CLOSED otherwise, sets the target to the value, pushes the new current state and answers the callback. It removes one timer and writes nothing to the relay. |
| DoorSpec.EndPulse | index.js:67-69 | The pulse-off appends an attempted write of 0, succeeding unless the write throws. It removes one timer and changes neither door state nor the pushed or answered lists. |
| DoorSpec.SetTargetAccepted | index.js:63-89 | An accepted request enters OPENING whatever the value, keeps the target and answers nobody yet. It writes 1 only when a relay exists. It schedules the pulse-off only if that write succeeded, and one completion at now+4000. |
| DoorSpec.OpeningAcceptsEveryTarget | index.js:58-89 | While OPENING, a request for 0 or 1 always adds a pending completion. With a working relay it also adds another pulse. |
| DoorSpec.PulseWithinMovement | index.js:67-89 | The new pulse-off is due no later than the new completion iff the pulse delay is at most 4000 ms. |
| DoorSpec.CompleteSettles | index.js:82-89 | A completion sets the door to OPEN for value 0 and CLOSED otherwise. It sets the target to the value, pushes the new current state and answers the callback, which leaves the pending ones. The relay is untouched. |
| DoorSpec.EndPulseReleases | index.js:67-69 | The pulse-off writes level 0, and neither door state changes. |
| DoorSpec.SetTargetInv | index.js:56-90 | The set handler keeps the invariant. |
| DoorSpec.CompleteInv | index.js:82-89 | The completion callback keeps the invariant. |
| DoorSpec.EndPulseInv | index.js:67-69 | The pulse-off callback keeps the invariant. |
| DoorSpec.PulseOffNeedsRelay | index.js:64-69 | A pending pulse-off implies the relay exists, so the level-0 write always has a line. |
| DoorSpec.AnsweredExactlyOnce | index.js:56-90 | Each callback is answered at most once per request. Once no completion is pending, each is answered exactly once. |
| DoorSpec.IdleMeansSettled | index.js:79-86 | With no completion pending, the door is OPEN or CLOSED as its target says. For targets 0 and 1 the current state equals the target. |
| DoorSpec.NeverClosing | index.js:79-85 | The door never reports or pushes CLOSING or STOPPED. |
| DoorSpec.RelayReleased | index.js:64-76 | Without a relay nothing is written. With no pulse-off pending, every successful write of 1 has been followed by an attempted write of 0. |
| DoorTraces.RunInv | index.js:56-90 | Any sequence of requests and timer firings keeps the invariant. |
| DoorTraces.Reachable | index.js:18-90 | Every state reachable from construction reports only OPEN, CLOSED or OPENING, and is settled on its target when idle. No callback is answered more often than requested, and nothing is written without a relay. |
| DoorTraces.RunKeepsRelay | index.js:25-32 | Whether a relay exists, and the pulse duration, never change after construction. |
| DoorTraces.TargetHeldWithoutCompletions | index.js:79-86 | While no completion fires, the target stays put and the door stays settled on it or OPENING. |
| DoorTraces.LastCompletionDecides | index.js:82-86 | The final target is the value of the last completion to fire, whatever was requested after it. |
| DoorTraces.OpenFromClosed | index.js:56-89 | Opening from CLOSED with the default pulse: OPENING with the relay at 1 at t=0, relay at 0 at t=1000, OPEN at t=4000 with the caller answered. |
| DoorTraces.CloseWhileOpening | index.js:58-89 | A close request at t=1000 during an open is accepted. It writes 1 again and leaves two completions pending. |
| DoorTraces.CloseWhileOpeningSettles | index.js:82-89 | Fired in due order, those timers make the door OPEN (target OPEN) at t=4000 and CLOSED only at t=5000. |
| GpioGarageDoor.GpioGarageDoorAccessory.constructor | index.js:18-35 | The settings are defaulted. The relay is opened on the pin, or is None when opening throws. The door starts CLOSED/CLOSED and satisfies `Valid()`. |
| GpioGarageDoor.GpioGarageDoorAccessory.HandleCurrentDoorStateGet | index.js:46-48 | Returns `currentState` and changes nothing. |
| GpioGarageDoor.GpioGarageDoorAccessory.HandleTargetDoorStateGet | index.js:51-53 | Returns `targetState` and changes nothing. |
| GpioGarageDoor.GpioGarageDoorAccessory.HandleTargetDoorStateSet | index.js:56-90 | The new state is `SetTarget` of the old one. `Valid()` is kept and the settings and relay are unchanged. |
| GpioGarageDoor.GpioGarageDoorAccessory.StartMoving | index.js:63-89 | For a value other than the current state, the new state is `SetTarget` of the old one. The settings and relay are unchanged. |
| GpioGarageDoor.GpioGarageDoorAccessory.PulseRelay | index.js:63-76 | With a relay, writes 1 and, unless that write throws, schedules a write of 0 after the pulse delay. Without a relay, does nothing. |
| GpioGarageDoor.GpioGarageDoorAccessory.FireCompletion | index.js:82-89 | The new state is `Complete` of the old one, and `Valid()` is kept. |
| GpioGarageDoor.GpioGarageDoorAccessory.FirePulseOff | index.js:67-69 | The new state is `EndPulse` of the old one. The relay exists, and a failing write is reported as thrown. |

## Left out

- Module loading (index.js:1-7). When the GPIO library fails to load, opening the line throws, which is the constructor's `gpioOpens = false`.
- The host registration, `Service` / `Characteristic` bindings and `getServices` (index.js:9-15, 37-42, 92-94). These are host plumbing. The protocol's door states appear as plain integer constants.
- The `log` messages (index.js:19, 27, 29-30, 57, 70, 72, 75). They have no effect on state.
- `service.setCharacteristic` (index.js:80, 87) is recorded only as the list of pushed states. What the host does with a pushed value is not modelled.
- Real GPIO I/O. Opening the line and each write succeed or fail according to a boolean parameter. Writes are recorded in a log.
- Real time. Timers fire in any order the caller of `FireCompletion` / `FirePulseOff` chooses. The runtime's due-time order is described by `DoorTraces.Earliest` but not imposed.
- JsConfig.TimerDelay: a string duration is taken as 1 ms. The runtime first converts a numeric string such as "1500" to a number. Fractional numbers, NaN, objects and arrays are not modelled as configuration values.
- GpioGarageDoor.GpioGarageDoorAccessory.FirePulseOff: a throwing write of level 0 (index.js:68) is not caught in the accessory. The model reports it as `thrown` and removes the timer. What the runtime then does with the uncaught exception is not modelled.
- The set handler accepts any integer value. The host only sends 0 and 1, and `IdleMeansSettled` states what holds for those.

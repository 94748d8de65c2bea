# Door closer: timed actuator sequencer and command intake

An ESP32 closes a door with a linear actuator driven through an L298N
H-bridge. An HTTP request `GET /open` starts a closing cycle. The firmware
(closer/closer.cpp) first drives the actuator for 23000 ms to reach a known
position. After that it runs one closing cycle per accepted `GET /open`: a
20000 ms first stroke, then a 20000 ms second stroke, then stop. Every stroke
is timed with unsigned 32-bit `millis()` differences.

This project models that controller in Dafny and proves how it behaves.

- `clock.dfy` (module `Clock`): `unsigned long` as `uint32`, and elapsed time
  as an unsigned difference that tolerates one wrap of the counter.
- `actuator.dfy` (module `Actuator`): the controller globals and the two pin
  levels as a `State` value. It holds the phase they encode (`Initializing`,
  `Ready`, `FirstStroke`, `SecondStroke`), the invariants `Consistent` and
  `Settled`, and the three state updates: the initialization branch of
  `loop()`, `startDoorClosing()` and `controlLinearActuator()`.
- `intake.dfy` (module `Intake`): the byte loop that builds `currentLine`
  from one client's request, as the recursive function `Serve`, with lemmas
  on where it stops and when it starts a cycle.
- `mainloop.dfy` (module `MainLoop`): one pass of `loop()` and runs of many
  passes, with the initialization gate and the 40000 ms cycle theorem.
- `scenarios.dfy` (module `Scenarios`): concrete requests (`GET /open`,
  `GET /closed`, an unrecognized path) as lemmas.
- `controller.dfy` (module `Controller`): class `DoorController`, whose
  fields are the firmware's globals. `digitalWrite` is an assignment to the
  `in1`/`in2` pin fields. Each method updates the fields step by step as the
  firmware does, and is proved to match the functions of `Actuator`,
  `Intake` and `MainLoop`.

Pins: `in1` is IN1 (pin 25), `in2` is IN2 (pin 26), and `true` means HIGH.
Every `millis()` reading is a parameter. Each byte a client sends carries
the clock reading at which it was handled (`Received(ch, at)`), because
`startDoorClosing()` reads the clock at the byte that completes `GET /open`.

Points of the code that the model follows to the letter:
- `setup()` drives IN1 LOW, IN2 HIGH and calls it retracting
  (closer/closer.cpp:71, 75). The initialization branch, also described as
  retracting (closer/closer.cpp:85, 94), drives the opposite levels IN1
  HIGH, IN2 LOW (closer/closer.cpp:86-87), which its comment at line 86
  calls "Extend to retract" and line 190 calls "Extend". The first stroke
  drives IN1 LOW, IN2 HIGH (closer/closer.cpp:180-181) and the second IN1
  HIGH, IN2 LOW (closer/closer.cpp:190-191). So the model states pin levels
  only.
- `setup()` leaves IN1 LOW, IN2 HIGH (closer/closer.cpp:74-75). The first
  pass of `loop()` overrides that with IN1 HIGH, IN2 LOW. `Initial` keeps
  the setup levels.
- The code checks `endsWith("GET /open")` after every byte
  (closer/closer.cpp:137), not once per line. So a line triggers the moment
  its `n` arrives, and `GET /opened` triggers as well.
- The tick that ends the first stroke (closer/closer.cpp:180-185) still
  writes the first stroke's levels; the second stroke's levels are written
  at the next tick (closer/closer.cpp:190-191). `ClosingCycleTiming` states
  the pins only after that tick.

## Model

| member | source | states |
|---|---|---|
| Clock.Elapsed | closer/closer.cpp:175-176 | the unsigned difference e satisfies (start + e) mod 2^32 == now; it equals now - start when there is no wrap, and 2^32 - (start - now) across a wrap |
| Clock.ElapsedSince | closer/closer.cpp:176 | two readings taken a and b ms after t0 are b - a apart, even when the 32-bit counter wrapped in between |
| Actuator.Initial | closer/closer.cpp:72-75 | after setup the sequencer is initializing from the setup clock reading, with IN1 LOW and IN2 HIGH, and the Settled invariant holds |
| Actuator.InitTick | closer/closer.cpp:81-98 | below 23000 ms elapsed (unsigned) the phase stays Initializing with IN1 HIGH, IN2 LOW; at 23000 ms or more it becomes Ready with both pins LOW; no cycle is started and the clocks are kept |
| Actuator.StartDoorClosing | closer/closer.cpp:158-170 | outside Ready the state is unchanged; from Ready it enters the first stroke with doorCloseStartTime == now; isInitialized, initStartTime and the pins never change; consistency is kept |
| Actuator.ControlLinearActuator | closer/closer.cpp:172-202 | no-op outside a cycle; first stroke drives IN1 LOW, IN2 HIGH and moves to the second stroke with its clock reset to now once 20000 ms elapsed, keeping clock and phase before that; second stroke drives IN1 HIGH, IN2 LOW and ends Ready with both pins LOW once 20000 ms elapsed |
| Actuator.StartDoorClosingIdempotent | closer/closer.cpp:159-164 | a second startDoorClosing never changes the state the first one produced, so it cannot move the stroke clock |
| Actuator.ControlIdempotentWithinStroke | closer/closer.cpp:178-193 | inside a stroke, an extra tick before a later one changes nothing: the two ticks end where the later tick alone ends |
| Intake.Serve | closer/closer.cpp:104-145 | serving a request reads at most the bytes sent and answers only after reading one; it never touches isInitialized, initStartTime or the pins; outside Ready it changes nothing; the phase either stays or becomes the first stroke; consistency is kept |
| Intake.ServeStopsAtBlankLine | closer/closer.cpp:109-128 | the response is sent at the first newline that arrives on an empty currentLine and reading stops right after it; with no such byte every byte is read and nothing is answered |
| Intake.ServeRespondsRegardlessOfState | closer/closer.cpp:113-128 | whether the response is sent, and after how many bytes, does not depend on the controller state or the commands recognized |
| Intake.ServeWithoutOpen | closer/closer.cpp:137-141 | if currentLine never ends in "GET /open" before the blank line, the request leaves the controller state unchanged |
| Intake.ServeFirstOpen | closer/closer.cpp:137-141 | if currentLine first ends in "GET /open" after byte k, the request has exactly the effect of one startDoorClosing at byte k's clock reading |
| Intake.LineAfterStep | closer/closer.cpp:129-134 | each byte that does not end the request updates currentLine by clearing it on '\n', ignoring '\r' and appending anything else |
| Intake.LineAfterHasNoBreaks | closer/closer.cpp:129-134 | currentLine never contains '\r' or '\n' |
| Intake.LineAfterPlainText | closer/closer.cpp:132-133 | while the bytes of a line without line breaks arrive, currentLine is the line's prefix received so far |
| Intake.ClosedIsNotOpen | closer/closer.cpp:137-144 | a line ending in "GET /closed" never ends in "GET /open", so a closed report never starts a cycle |
| Intake.OpensAtFinalN | closer/closer.cpp:137 | the byte that completes "GET /open" is its final 'n' |
| Intake.OneLineRequestLines | closer/closer.cpp:129-134 | while a one-line request is read, currentLine is the line so far, then the whole line after its '\r', then empty |
| Intake.OneLineRequestAnswered | closer/closer.cpp:113-128 | a request of one line followed by CR LF and a blank CR LF line is read completely and answered |
| Intake.OneLineRequestFires | closer/closer.cpp:137-141 | in such a request currentLine ends in "GET /open" exactly after the line prefixes that do (and again at the line's '\r'), never on the empty lines |
| Intake.ServeOneLineRequest | closer/closer.cpp:104-145 | such a request is answered; it changes nothing when no prefix of the line ends in "GET /open", and is one startDoorClosing at the clock reading of the first byte completing it otherwise |
| MainLoop.Loop | closer/closer.cpp:79-154 | one pass keeps Consistent and Settled (actuator stopped exactly when Ready); while initializing it only runs the initialization branch and accepts no client; isInitialized is never reset |
| MainLoop.Run | closer/closer.cpp:79-154 | any sequence of passes keeps Consistent and Settled, keeps initStartTime and never resets isInitialized |
| MainLoop.InitializationGate | closer/closer.cpp:81-98 | after any passes, the sequencer is initialized iff some pass read the clock at least 23000 ms (unsigned) after initStartTime; until then IN1 is HIGH and IN2 LOW, whatever clients are waiting |
| MainLoop.InitializationCompletesOnce | closer/closer.cpp:89-97 | the first pass reaching 23000 ms leaves the sequencer Ready with the actuator stopped; before it no prefix is initialized, after it every prefix is |
| MainLoop.CycleNextPass | closer/closer.cpp:172-202 | a pass zero or one ms after the previous one moves a densely polled cycle on as CycleAt says, whatever client is served before offset 40000 |
| MainLoop.ClosingCycleTiming | closer/closer.cpp:172-202 | with every ms polled (repeats allowed), requests at any point before offset 40000 and none after, the first stroke runs with IN1 LOW, IN2 HIGH and its start clock until offset 20000; the second starts at offset 20000 and drives IN1 HIGH, IN2 LOW; from offset 40000 on the sequencer is Ready with the actuator stopped |
| Scenarios.OpenRequestWhileReady | closer/closer.cpp:137-141 | "GET /open HTTP/1.1" while Ready is answered and starts the first stroke at the clock reading of its ninth byte; when the pass's tick comes less than 20000 ms after that byte, the pass then drives IN1 LOW, IN2 HIGH |
| Scenarios.SecondOpenRequestIgnored | closer/closer.cpp:164 | a second "GET /open HTTP/1.1" served right after the first is answered and leaves phase and stroke clock as the first request set them |
| Scenarios.OpenRequestDuringCycleIgnored | closer/closer.cpp:159-164 | "GET /open HTTP/1.1" served at any point of either stroke is answered and leaves the state, stroke clock included, unchanged |
| Scenarios.ClosedRequestChangesNothing | closer/closer.cpp:142-144 | "GET /closed HTTP/1.1" is answered and changes nothing, in every phase |
| Scenarios.UnrecognizedRequestChangesNothing | closer/closer.cpp:113-128 | an unrecognized "GET /status HTTP/1.1" gets the same response and changes nothing |
| Controller.DoorController.constructor | closer/closer.cpp:72-75 | the fields after the globals' initializers and setup are Initial(now) |
| Controller.DoorController.InitTick | closer/closer.cpp:81-98 | the initialization branch updates the fields as Actuator.InitTick says |
| Controller.DoorController.StartDoorClosing | closer/closer.cpp:158-170 | startDoorClosing updates the fields as Actuator.StartDoorClosing says |
| Controller.DoorController.ControlLinearActuator | closer/closer.cpp:172-202 | controlLinearActuator updates the fields as Actuator.ControlLinearActuator says |
| Controller.DoorController.HandleClient | closer/closer.cpp:104-145 | the byte loop, with its local currentLine and its break, leaves the fields, the responded flag and the byte count as Intake.Serve says |
| Controller.DoorController.Loop | closer/closer.cpp:79-154 | one pass of loop() leaves the fields, responded flag and byte count as MainLoop.Loop says |

## Left out

- WiFi association, the wait for a connection, `server.begin` and `server.accept` (closer/closer.cpp:56-68, 100) are network plumbing. A pass of the loop gets the accepted client, if any, as a parameter.
- `client.connected()`, `available()`, `read()` and `stop()` (closer/closer.cpp:105-107, 148) are transport I/O. A client is the finite sequence of bytes it sends before it disconnects. Waiting while no byte is available is not modelled.
- The response text (closer/closer.cpp:116-126) is not modelled. Sending it is the `responded` flag.
- `Serial` output, `Serial.write` of each byte, `pinMode`, `delay` and `Serial.begin` (closer/closer.cpp:36-48 and the log lines) are left out. They have no effect on the controller's state.
- `millis()` is a parameter at each place it is read. The model does not say that readings increase, except where a lemma assumes it.
- `lastActuatorUpdate` (closer/closer.cpp:28) is declared but never used.
- Several `digitalWrite` calls within one call are collapsed to the last levels written. The IN1 HIGH pulse on the tick that ends initialization or the second stroke is not visible.
- The collapsed writes also hide a short state with IN1 and IN2 both HIGH: between closer/closer.cpp:86 and 87 on the first initialization tick after setup, and between closer/closer.cpp:190 and 191 on the first tick of the second stroke. `Consistent` (never both HIGH) holds after every update, not between its statements.
- Arduino `String` allocation failure on `+=` is not modelled. NUL characters in a request are not modelled either (`endsWith` compares with `strcmp`).
- MainLoop.ClosingCycleTiming: states the 40000 ms cycle only for polling that never skips a millisecond. With sparser polling each stroke overruns by up to the polling gap, and that is not stated.

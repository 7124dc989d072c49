# A verified model of the robot arm and AGV system

The system has three machines. A Python backend owns one TCP connection to an ESP32 that drives a four-joint arm;
the ESP32 also relays, byte by byte, the status lines of an Arduino-driven AGV. The backend matches ACKs to arm
commands, reads the telemetry, and logs both under the current mission.

This project models the parts of it that are hard to get right, and proves what they promise over whole runs:

* **The Arm command/ACK protocol** (`AckProtocol`, `AckTheorems`, `AckOutcomes`, `AckProgress`, with the critical
  sections in `Esp32Sections` and the in-place client in `Esp32Client`). The wire carries no request ID, so an ACK is matched to
  its command by a single pending slot, a generation counter, and tearing the connection down on timeout. One step of
  the transition system is one `with self._state_lock` block, one socket call, or one action of the device; every
  thread is a program counter in the state, and anything may happen between two steps.
* **The byte protocols** (`Text`, `PyNumber`, `Esp32Parser`, `LineFraming`, `ArmCommandText`, `ArmFirmware`,
  `ArmRoundTrip`, `Telemetry`, `TornFrames`, `RelayedStream`, `ReceivedStream`). Framing, parsing and printing
  are proved against each other: round trips for commands and telemetry, and what the backend makes of an ACK that lands inside a status line.
* **The AGV controller** (`Clock`, `Schedule`, `WheelModel`, `Wheel.dfy`, `WheelEstimator`, `WheelStopping`,
  `WheelStartup`, `WheelMotor`, `WheelControl`, `LineTracer`, `Ultrasonic`, `UltrasonicEcho`, `AgvModel`,
  `AgvController`, `AgvInterlock`, `AgvCommands`, `AgvSchedule`, `AgvRanging`, `AgvSaturation`, `AgvStopping`,
  `AgvTelemetry`). Floats are exact reals; the 32-bit clocks wrap and are compared with an unbounded true time. What
  the controller must not do and what it must do are proved side by side: it stays halted until released, and after
  each serial command, sensor change, echo and control tick it does what that input asks for.
* **The whole telemetry path** (`EndToEnd`): from a run of the AGV's control loop, through the relay and the chunks of
  the link, to the events in the backend.
* **Mission-scoped logging** (`Missions`, `RobotBackend`, `MissionLog`, `MissionProgress`), run as one system together
  with the ACK protocol.

Code that changes state in place is a class whose methods are proved equal to specification functions over a value of
the state; the theorems about runs are lemmas over those functions.

## What is assumed

* The device answers each command line at most once, and in order on each connection. A reply may come arbitrarily
  late, may never come, and may be torn by the relay, in which case it is no ACK. Unsolicited ACKs appear only in
  `AckTheorems.StrayAckIsDropped`.
* Sends may fail with or without having delivered the line; waits may expire at any moment; connections may be lost,
  closed and opened at any moment by any thread. `connect` calls may overlap each other except where a theorem says
  `ConnectsDoNotOverlap`; without that hypothesis `AckTheorems.OverlapLeavesCommandPending` shows a run that leaves a
  command pending until that connection goes down.
* One iteration of the AGV's `loop()` happens at one instant of true time, except that a triggering ultrasonic poll
  may take longer. Encoder edges fall between iterations.
* Text is ASCII. A byte is written as a Dafny `char`.

## Where the code does less than its comments or its intent

* `firmware/robot_arm_esp32/robot_arm_esp32.ino:132-133` says the relay preserves newline framing. For a relay that
  starts at a line boundary that is so if and only if every ACK is written between two AGV lines
  (`RelayedStream.FramingKeptIff`). In general the relay is fail-safe, not framing-preserving
  (`RelayedStream.RelayIsFailSafe`).
* After `setTargetRPM(0)` the signed motor output can rise once: a reversed start-up pulse at -100 becomes +25 at the
  next `updateMotor` (`WheelMotor.FirstCoastCanFlipSign`). `WheelMotor.ZeroTargetNeverSpeedsUp` says exactly when.
* SETSPEED accepts negative speeds, but `dir_est` is never updated, so outside a start-up pulse a negative target never
  drives a wheel harder than -9 (`WheelMotor.NegativeTargetIsWeak`), and from rest it never drives it at all
  (`WheelMotor.ReverseNeverDrives`).
* An encoder edge accepted when `micros()` reads 0 switches the debounce off for the next edge
  (`WheelEstimator.DebouncesIff` says exactly when it is in force), and makes the estimate fall back to the window
  average (`WheelEstimator.SteadyRotationIsExact`).
* The ultrasonic distance is a 16-bit int. It never overflows exactly when polls come at most 166068 microseconds
  apart (`Ultrasonic.OverflowsIff`); and measurements end in time exactly when the gap leaves the 25 ms echo timeout
  room below a wrap of `micros()` (`Ultrasonic.MeasurementsEnd`).
* An AGV in open space, where no echo returns, takes the way for blocked not only in the first second after its last
  valid range but again for a second whenever the 32-bit millisecond clock has wrapped since
  (`AgvRanging.OpenSpaceClears`).
* `socket.sendall` does not say, when it raises, how much was sent. If it could raise after the whole line had been
  delivered, an OK ACK might be routed and the call still raise, leaving `arm_log.ack` unset
  (`AckOutcomes.FailedSendCanHideAck`). Whether a socket does so is not known; `AckOutcomes.AckedIffOkReply` covers
  both cases and `AckOutcomes.AckedExactlyWhenOkReply` the case in which it does not.

## Model

| member | source | states |
|---|---|---|
| `Esp32Client.Esp32Client.Register` | backend/esp32_client.py:142-150 | a command is registered, on the generation returned, exactly when a socket is up and nothing is pending; the new state is that of the section function |
| `Esp32Client.Esp32Client.Expire` | backend/esp32_client.py:161-172 | an expired wait completes the command with an error only if it is still uncompleted and still the pending one; otherwise nothing about it changes |
| `Esp32Client.Esp32Client.RouteAck` | backend/esp32_client.py:255-277 | a current ACK completes the pending command with its status and clears the slot; a stale one changes nothing; a current one with nothing pending is reported |
| `Esp32Client.Esp32Client.ConnectionLost` | backend/esp32_client.py:284-300 | only the receiver of the installed socket tears it down, and a pending command then fails with the reason |
| `Esp32Client.Esp32Client.DisconnectGeneration` | backend/esp32_client.py:321-338 | tears down exactly when the generation is still current, failing the pending command; otherwise changes nothing |
| `Esp32Client.Esp32Client.Install` | backend/esp32_client.py:118-132 | connect's second section installs a new generation and leaves the pending slot as it is |
| `AckProtocol.RegisterKeepsInv` | backend/esp32_client.py:142-150 | registering keeps the protocol invariant: a command that ended without its ACK leaves its generation dead before the next one registers |
| `AckProtocol.RouteAckKeepsInv` | backend/esp32_client.py:255-268 | routing an ACK keeps the invariant: on the live connection the only outstanding ACK is the current command's |
| `AckProtocol.TimeoutTeardownKeepsInv` | backend/esp32_client.py:173-180 | the teardown after a timeout re-establishes that the timed-out command's generation is dead |
| `AckProtocol.SendFailTeardownKeepsInv` | backend/esp32_client.py:152-158 | the same for the teardown after a failed send, whether or not the line was delivered |
| `AckProtocol.ConnectionLostKeepsInv` | backend/esp32_client.py:281-308 | losing a connection keeps the invariant and reports the loss of an installed socket once |
| `AckProtocol.DisconnectKeepsInv` | backend/esp32_client.py:310-359 | a disconnect of any generation read at any earlier moment keeps the invariant |
| `AckProtocol.ConnectInstallKeepsInv` | backend/esp32_client.py:117-132 | installing keeps the invariant even when another connect has come in between |
| `AckProtocol.RunKeepsInv` | backend/esp32_client.py:100-359 | the invariant holds after every run of any length in every interleaving |
| `AckTheorems.AckOwnership` | backend/esp32_client.py:173-180 | every command completed by an ACK was completed by the device's reply to that same command |
| `AckTheorems.CompletedOnce` | backend/esp32_client.py:137-187 | a registered command is pending or was completed exactly once, for exactly one cause |
| `AckTheorems.ResultIsConsistent` | backend/esp32_client.py:182-187 | a returned result has ack exactly when it has no error, and exactly when an OK reply to that command completed it |
| `AckTheorems.NoAckMeansDeadGeneration` | backend/esp32_client.py:173-180 | while no call is in progress every command that ended without an ACK belongs to a torn-down generation |
| `AckTheorems.DeadStaysDead` | backend/esp32_client.py:117-132 | a torn-down generation never becomes live again, whatever follows |
| `AckTheorems.AtMostOneLossEvent` | backend/esp32_client.py:281-308 | each connection is reported lost at most once, and never while it is live |
| `AckTheorems.StrayAckIsDropped` | backend/esp32_client.py:255-277 | in every run an ACK with nothing pending, or of an old generation, is dropped and kept nowhere |
| `AckTheorems.CallCanFinish` | backend/esp32_client.py:152-181 | from every reachable state the caller's own steps end the call and free the command lock |
| `AckTheorems.RunKeepsSerial` | backend/esp32_client.py:100-132 | without overlapping connects the pending command always belongs to the live generation and to the thread holding the lock |
| `AckTheorems.FreeLockMeansNothingPending` | backend/esp32_client.py:147-148 | without overlapping connects nothing is pending while the lock is free, so the already-pending error is never raised |
| `AckTheorems.FailedSendClearsPendingIff` | backend/esp32_client.py:155-158 | in every run the teardown after a failed send empties the slot exactly when the sender's generation is still current or the slot was empty |
| `AckTheorems.OverlapLeavesCommandPending` | backend/esp32_client.py:117-132 | two overlapping connects carry a pending command over to a new generation, where it stays pending and makes the next call fail |
| `AckOutcomes.AckedIffOkReply` | backend/esp32_client.py:152-187 | a call returns with ack exactly when an OK reply to its command completed it and the send did not fail |
| `AckOutcomes.AckedExactlyWhenOkReply` | backend/esp32_client.py:152-187 | if no failed send delivers its line, a call returns with ack exactly when an OK reply to its command completed it |
| `AckOutcomes.RunKeepsUnsent` | backend/esp32_client.py:152-158 | in such runs no connection ever owes an ACK to a command whose send failed |
| `AckOutcomes.FailedSendCanHideAck` | backend/esp32_client.py:152-158 | if a failed send may have delivered its whole line, a run in which an OK reply completes the command and the call still raises |
| `AckOutcomes.EndsAreFinal` | backend/esp32_client.py:137-187 | how a call ended never changes afterwards, along every extension of every run |
| `AckProgress.LossTearsDown` | backend/esp32_client.py:281-308 | after any run, the receiver of the live connection that finds it lost leaves no connection up and nothing pending, reports the loss once, and fails exactly the command that was pending |
| `AckProgress.StaleLossChangesNothing` | backend/esp32_client.py:284-286 | the receiver of any other connection leaves client, commands and all other connections as they were |
| `AckProgress.DisconnectTearsDown` | backend/esp32_client.py:310-359 | a disconnect of the current generation takes it down and fails exactly the pending command; one of an older generation changes nothing |
| `AckProgress.ConnectBringsUp` | backend/esp32_client.py:100-132 | connect, undisturbed, brings up a new generation on an empty connection and fails exactly the command pending on the old one |
| `AckProgress.RegisterIff` | backend/esp32_client.py:142-150 | after any run a call registers a new uncompleted command as the pending one exactly when a connection is up and nothing is pending; otherwise it is turned away and changes nothing |
| `AckProgress.CallReturnsReply` | backend/esp32_client.py:137-187 | from any quiet connection an undisturbed call returns the device's own answer, ack or error, and leaves the connection up and quiet |
| `AckProgress.TimeoutRaises` | backend/esp32_client.py:161-181 | a wait that expires first completes its command as timed out, raises, and takes down and reports its connection if that is still the current one |
| `AckProgress.SendFailureRaises` | backend/esp32_client.py:152-158 | a failed send raises and takes its connection down if it is still up, failing the command if it is still pending |
| `AckProgress.CompletedReturns` | backend/esp32_client.py:161-187 | once a command is completed its call returns what completed it, whether it is woken or its wait expires |
| `LineFraming.LineReceiver.Feed` | backend/esp32_client.py:211-227 | the loop routes the newline-split of buffer and chunk, keeps the remainder, and drops it when it exceeds 8192 bytes |
| `LineFraming.BufferStaysBounded` | backend/esp32_client.py:213-227 | between chunks of any stream the buffer has no newline and at most 8192 bytes; no routed line has a newline |
| `LineFraming.FramingIgnoresChunking` | backend/esp32_client.py:195-227 | if no line exceeds the limit the routed lines and the buffer are the newline-split of the whole stream, however it was cut |
| `LineFraming.BytesAreConserved` | backend/esp32_client.py:211-227 | every byte received was routed, ended a line, is in the buffer, or was dropped |
| `LineFraming.ExactIffNothingDropped` | backend/esp32_client.py:218-227 | the stream is recovered exactly if and only if no remainder was dropped |
| `Esp32Parser.ValidateAngles` | backend/parser.py:47-59 | accepts exactly four integers, none a bool, each in 0..180, and returns them in order |
| `Esp32Parser.StripThenSplit` | backend/parser.py:73-82 | stripping the line first does not change the stripped fields |
| `Esp32Parser.AckIff` | backend/parser.py:73-90 | a line is an ACK of a status exactly if it is the bare OK or has the two fields ARM_ACK and that status |
| `Esp32Parser.DestIff` | backend/parser.py:92-112 | a line is the destination event exactly if it has the two fields AGV and DEST |
| `Esp32Parser.SensorsIff` | backend/parser.py:92-146 | a line is a sensor event with given values exactly if it has eight fields, a supported event, three finite numbers and three integers that read as those values, and no negative RPM |
| `PyNumber.IntRoundTrip` | backend/parser.py:122-124 | int() of a printed integer is that integer |
| `PyNumber.FloatRoundTrip` | backend/parser.py:121-126 | float() of a printed integer of up to six digits is that integer |
| `ArmFirmware.ParseField` | firmware/robot_arm_esp32/robot_arm_esp32.ino:52-64 | one field of the loop: blanks, strtol, range test and blanks read exactly the field the grammar reads |
| `ArmFirmware.StrtolAt` | firmware/robot_arm_esp32/robot_arm_esp32.ino:56-60 | strtol moves its cursor past exactly the longest integer prefix and returns its saturated value, as in section 7.22.1.4 of ISO/IEC 9899:2011 |
| `ArmFirmware.ParseAngleCommand` | firmware/robot_arm_esp32/robot_arm_esp32.ino:48-76 | the cursor loop accepts a C string exactly when its comma-split is four acceptable fields, and then yields their values |
| `ArmFirmware.CommandReceiver.ProcessCommand` | firmware/robot_arm_esp32/robot_arm_esp32.ino:86-106 | one reply, applied angles exactly when the line fits and parses, and an empty buffer afterwards |
| `ArmFirmware.CommandReceiver.Reset` | firmware/robot_arm_esp32/robot_arm_esp32.ino:197-209 | each connection starts and ends with an empty receiver |
| `ArmFirmware.CommandReceiver.ConsumeClientBytes` | firmware/robot_arm_esp32/robot_arm_esp32.ino:108-129 | the in-place receiver, never past its 64-byte buffer, gives the replies and state of the byte-wise specification |
| `ArmFirmware.OneReplyPerLine` | firmware/robot_arm_esp32/robot_arm_esp32.ino:108-129 | for every byte stream the replies are the answers to its newline-terminated lines, one each, and the buffer never holds 64 characters |
| `ArmCommandText.ParserMatchesGrammar` | firmware/robot_arm_esp32/robot_arm_esp32.ino:48-76 | scanning field by field equals splitting at commas into exactly four fields and reading each |
| `ArmCommandText.FieldAcceptedIff` | firmware/robot_arm_esp32/robot_arm_esp32.ino:52-69 | a field has value v exactly when it is whitespace, an optional sign, digits of v in 0..180, and blanks |
| `ArmCommandText.WireRoundTrip` | backend/esp32_client.py:139-155 | the wire string of four angles in 0..180 is at most 15 bytes and parses to the same four angles |
| `ArmFirmware.CommandIsApplied` | firmware/robot_arm_esp32/robot_arm_esp32.ino:86-129 | a command line sent at a line boundary is applied unchanged and answered once |
| `ArmRoundTrip.EveryLineIsAcked` | firmware/robot_arm_esp32/robot_arm_esp32.ino:86-129 | whatever chunks the replies arrive in, the backend reads back one ACK per line sent, in order, OK exactly for the lines the firmware applied |
| `ArmRoundTrip.ValidCommandRoundTrip` | backend/esp32_client.py:139-155 | a validated command is applied with its own angles and read back as one OK, whatever chunks the reply arrives in |
| `Telemetry.StatusFitsBuffer` | ino/ino.ino:238-250 | with 16-bit fields no status line is truncated by the 50-byte buffer |
| `Telemetry.StatusRoundTrip` | backend/parser.py:92-146 | a status line parses to exactly the reported values for TRACING, OBSTACLE and STOP with non-negative RPMs, and is rejected otherwise with the reason the code gives |
| `TornFrames.TornHead` | firmware/robot_arm_esp32/robot_arm_esp32.ino:101-140 | any text followed by an ACK line is read as that ACK exactly when the text is blank, and is rejected otherwise |
| `TornFrames.TornTail` | backend/parser.py:76-146 | what is left of a status line after at least its first byte is always rejected |
| `TornFrames.AcceptedNeeds` | backend/parser.py:76-102 | an accepted line has a V at index 2 or later, or a K |
| `RelayedStream.FramesAreLines` | firmware/robot_arm_esp32/robot_arm_esp32.ino:131-140 | the lines of a stream with ACKs written anywhere into it are the pieces before each ACK joined to it, and the tails |
| `RelayedStream.RelayIsFailSafe` | firmware/robot_arm_esp32/robot_arm_esp32.ino:86-148 | wherever the relay starts and however many ACKs land wherever, the backend takes exactly the ACKs that only blanks precede on their line and the status lines left whole, with their exact values, and drops the rest |
| `RelayedStream.DemultiplexingIsExact` | firmware/robot_arm_esp32/robot_arm_esp32.ino:131-148 | exactly the ACKs written come back, in order, if and only if only blanks precede each on its line, and then exactly the usable reports come back too |
| `RelayedStream.FramingKeptIff` | firmware/robot_arm_esp32/robot_arm_esp32.ino:131-140 | when the relay starts at a line boundary both streams come back exactly if and only if every ACK is written between two status lines |
| `ReceivedStream.ChunksAreRead` | backend/esp32_client.py:195-227 | whatever chunks the relayed stream arrives in, the receiver routes exactly its frames, drops nothing, and gives each the verdict of RelayIsFailSafe |
| `EndToEnd.RunIsFailSafe` | ino/ino.ino:238-250 | in every run of the control loop, however its status lines are cut by ACKs and chunks, every received line gets the verdict of RelayIsFailSafe, and the ACKs come back exactly if and only if only blanks precede each on its line |
| `EndToEnd.RunIsRead` | ino/ino.ino:238-250 | when the reports of a run are relayed whole and ACKs are written between their lines, the backend reads back exactly the ACKs written and exactly the values of the TRACING, OBSTACLE and STOP reports sent, each in order, whatever the chunks |
| `WheelObject.Wheel.constructor` | ino/modules/Wheel.h:7-32 | a new wheel is the fresh state |
| `WheelObject.Wheel.OnEncoderInterrupt` | ino/modules/Wheel.h:56-67 | an edge counts exactly when it passes the debounce, and then sets interval and time stamp |
| `WheelObject.Wheel.EstimateAverageRPM` | ino/modules/Wheel.h:68-78 | closes a window: the count becomes the average and is reset |
| `WheelObject.Wheel.EstimateInstantRPM` | ino/modules/Wheel.h:79-99 | turns a new pulse's interval into an instant estimate, or -1 past a second |
| `WheelObject.Wheel.UpdateRPM` | ino/modules/Wheel.h:100-146 | one sample: estimate and stop state move together as specified |
| `WheelObject.Wheel.SetTargetRPM` | ino/modules/Wheel.h:147-171 | sets target and direction, starting a pulse exactly from a full stop |
| `WheelObject.Wheel.Stop` | ino/modules/Wheel.h:191-196 | zero target, zero output, cleared controller |
| `WheelObject.Wheel.FollowRPM` | ino/modules/Wheel.h:197-228 | one controller step with its clamps |
| `WheelObject.Wheel.UpdateMotor` | ino/modules/Wheel.h:229-267 | one motor step: start-up pulse, ramp, or reversal |
| `WheelMotor.EveryStateIsBounded` | ino/modules/Wheel.h:147-267 | in every state reached by any calls in any order duties lie in 0..255, at most one pin is driven, and signed power is in -100..255 |
| `WheelMotor.DutyRisesSlowly` | ino/modules/Wheel.h:243-252 | outside a start-up pulse the duty rises by at most 15 per updateMotor |
| `WheelMotor.CompMovesSlowly` | ino/modules/Wheel.h:208-223 | in every reachable state, for any gains, one followRPM keeps the compensated duty in 0..255 and moves it by at most 60 |
| `WheelControl.SlowWheelIsDriven` | ino/modules/Wheel.h:208-227 | in every reachable state outside a pulse, with a target and no negative gain, on a flat RPM a wheel no less too slow than before gains exactly min(60, Kp times the growth of the error + min(40, Ki e dt)), up to 255 |
| `WheelControl.FastWheelIsSlowed` | ino/modules/Wheel.h:208-227 | and one no less too fast than before loses exactly the mirrored amount, down to 0 |
| `WheelControl.AccelerationIsDamped` | ino/modules/Wheel.h:208-227 | on target, a wheel that speeds up loses and one that slows down gains exactly min(3, Kd times the second difference / dt) |
| `WheelControl.PreviousErrorIs` | ino/modules/Wheel.h:208-227 | the error a controller step compares with is that of the step before, whatever samples, motor updates and new nonzero targets come in between |
| `WheelControl.HistoryIsSampled` | ino/modules/Wheel.h:100-106 | in every run the estimate and the two before it are those of the last three samples |
| `WheelControl.MotorFollows` | ino/modules/Wheel.h:243-252 | in every reachable state with a forward target, outside a pulse, one motor update moves the duty towards the target duty by at most 15 up or 75 down, never past it, and drives the motor with it |
| `WheelControl.MotorArrives` | ino/modules/Wheel.h:243-252 | between control ticks a forward wheel driven too hard is at its target duty from the fourth motor update on, and any forward wheel from the 17th |
| `WheelControl.StartupIsKicked` | ino/modules/Wheel.h:147-240 | a wheel at rest that gets a positive target is driven at 100 by every motor update in the first 120 counts, and the first later one leaves duty, target duty and controller at 40, whatever else is called that does not stop it |
| `WheelControl.LoudSampleMoves` | ino/modules/Wheel.h:283-301 | a sample above 1.0 outside a pulse takes the wheel for moving |
| `WheelControl.RestIsRecognised` | ino/modules/Wheel.h:283-301 | after a first sample at most 1.0 any sample 200 counts or more later takes the wheel for at rest, if all samples between are at most 1.0 too |
| `WheelMotor.CoastsToZero` | ino/modules/Wheel.h:147-267 | after setTargetRPM(0), while the target stays 0, output does not rise from the first updateMotor on and is 0 from the fourth on |
| `WheelMotor.ZeroTargetNeverSpeedsUp` | ino/modules/Wheel.h:253-266 | with a zero target updateMotor never raises the magnitude of the output in any reachable state, and does not raise the signed output exactly when it was not negative |
| `WheelMotor.FirstCoastCanFlipSign` | ino/modules/Wheel.h:230-266 | a run in which the first updateMotor after setTargetRPM(0) changes the output from -100 to +25 |
| `WheelMotor.IntegratorClimbs` | ino/modules/Wheel.h:208-227 | under a constant positive error n control ticks add n integral terms, up to 255, whatever other calls that keep the error and Ki come in between, setTargetRPM included |
| `WheelMotor.SaturatesUnderConstantError` | ino/modules/Wheel.h:197-252 | once n times min(40, Ki e dt) reaches 255 the target duty is 255, and 17 more motor updates bring the duty there, whatever other calls that keep the error and Ki come in between |
| `WheelMotor.TimesIsProduct` | ino/modules/Wheel.h:216-223 | n integral terms add up to n times one of them |
| `WheelMotor.RoundsAreSteady` | ino/ino.ino:375-398 | such runs exist: on a wheel that never turns, rounds of setTargetRPM, updateRPM, followRPM and updateMotor, as trace mode makes them, keep the error constant |
| `WheelMotor.BlockedWheelSaturates` | ino/modules/Wheel.h:147-267 | a new wheel that never turns is at full duty from the 82nd such round on, start-up pulse included |
| `AgvSaturation.WheelSaturates` | ino/ino.ino:375-398 | the saturation theorem for either wheel in any run of the controller |
| `AgvSaturation.BlockedAgvSaturates` | ino/ino.ino:375-398 | an AGV held in place in trace mode with the way clear has both wheels at full duty from the 82nd control tick on |
| `WheelMotor.NegativeTargetIsWeak` | ino/modules/Wheel.h:229-267 | in every reachable state outside a start-up pulse a negative target never gives power below -9 and never raises the duty |
| `WheelMotor.ReverseNeverDrives` | ino/modules/Wheel.h:147-267 | from rest a wheel whose targets are all negative or zero is never driven |
| `WheelStartup.RestBetweenStartups` | ino/modules/Wheel.h:147-301 | between two start-up pulses of a wheel there are samples at least 200 counts of the unwrapped millisecond clock apart, which is more than 199 ms, with every estimate between them at most 1.0 |
| `WheelEstimator.AcceptedSpacing` | ino/modules/Wheel.h:56-67 | an accepted edge comes at least 10000 microseconds of true time after the one accepted before, unless that one fell where micros() read 0 |
| `WheelEstimator.DebouncesIff` | ino/modules/Wheel.h:56-67 | in every run the 10 ms debounce is in force exactly when the last accepted edge did not fall where micros() read 0 |
| `WheelEstimator.AcceptedIff` | ino/modules/Wheel.h:56-67 | in every run an edge counts exactly if it is the first, follows one accepted where micros() read 0, or comes 10 ms or more after the last accepted one by the wrapped clock |
| `WheelEstimator.WindowCount` | ino/modules/Wheel.h:56-78 | in any window of W microseconds at most W/10000 + 1 edges are accepted, not counting those that follow one of the window accepted where micros() read 0 |
| `WheelEstimator.DebounceOffAfterZero` | ino/modules/Wheel.h:58-65 | after an edge accepted at micros() == 0 every edge is accepted |
| `WheelEstimator.EstimateStaysInRange` | ino/modules/Wheel.h:56-144 | over every run with windows of at least 100 ms, none closing with an edge in it that follows one accepted where micros() read 0, the estimate lies in 0..330 and the instant estimate is -1 or in 3..300 |
| `WheelEstimator.EstimateStaysNearRange` | ino/modules/Wheel.h:56-144 | over every run with windows of at least 100 ms and no two edges in one microsecond the estimate lies in 0..361, whatever edges fall where micros() reads 0 |
| `WheelEstimator.PeriodRpmIs` | ino/modules/Wheel.h:98 | the instant estimate of period p is 3000000/p |
| `WheelEstimator.SteadyRotationIsExact` | ino/modules/Wheel.h:79-143 | on constant intervals of 10 ms to 1 s every estimate, at any sampling instants, is exactly that of the interval, except after an edge at micros() == 0, where it is the window average |
| `WheelEstimator.MeasuredAfterTwoEdges` | ino/modules/Wheel.h:56-143 | two edges p apart and a sample reach the state in which that theorem applies |
| `WheelEstimator.TimeoutCoversPeriod` | ino/modules/Wheel.h:117-129 | the timeout of such a period does not overflow, covers the period, and is at most a second |
| `WheelEstimator.WindowAverageIsExact` | ino/modules/Wheel.h:68-78 | in every run the average of a window of t ms is 3000/t times the number of accepted edges since the last window |
| `WheelEstimator.SlowEdgeIsAveraged` | ino/modules/Wheel.h:90-112 | an accepted edge that closes an interval of more than a second makes the next estimate the window average |
| `WheelStopping.AfterPulse` | ino/modules/Wheel.h:56-67 | an accepted edge closing an interval of at most a second starts the invariant under which the estimate never rises |
| `WheelStopping.FadingStarts` | ino/modules/Wheel.h:56-67 | any accepted edge starts the invariant under which the estimate reaches zero |
| `WheelStopping.EstimateNeverRises` | ino/modules/Wheel.h:100-146 | with iterations at most 50 ms apart and no further edges the estimate never rises once an edge that closed an interval of at most a second has been sampled |
| `WheelStopping.DecayIsExact` | ino/modules/Wheel.h:100-143 | with iterations at most 50 ms apart every control tick d microseconds after the last pulse of interval p estimates 3000000/p for 100 ms, then min(3000000/p, 3000000/d), and 0 past 2p, which counts as 300 ms at least and a second at most |
| `WheelStopping.EstimateReachesZero` | ino/modules/Wheel.h:100-146 | with iterations at most 50 ms apart the estimate is 0 from the first sample past the adaptive timeout on, whatever interval the last edge closed and wherever it is stamped |
| `WheelStopping.ZeroByDeadline` | ino/modules/Wheel.h:100-146 | whatever the phase of the ticks the estimate is then 0 at every iteration later than the timeout plus 21 ms |
| `LineTracer.TracePolicy.UpdateTracePolicy` | ino/ino.ino:71-130 | one step of the automaton |
| `LineTracer.SharpTurnWasHeld` | ino/ino.ino:74-91 | a sharp turn follows at least 600 counts of the unwrapped millisecond clock, which is more than 599 ms, of the soft turn of the same direction, uninterrupted, and is entered on two equal samples with the center sensor off |
| `LineTracer.SharpTurnIsTaken` | ino/ino.ino:74-91 | on such a sample the automaton does turn sharply |
| `LineTracer.NoDirectReversal` | ino/ino.ino:92-126 | no run goes from a turn, soft or sharp, to an opposite one but by way of the soft turn of the new direction |
| `LineTracer.TurnFollowsLine` | ino/ino.ino:92-129 | in every run a turn was entered when the sensor on its own side saw the line, and is held only until the center or the opposite sensor sees it |
| `LineTracer.NewSensorsSteer` | ino/ino.ino:92-126 | in every run, at every sample that shows something new: from straight to the soft turn of the side that sees the line, left first; from a turn to straight or to the other soft turn as center and opposite sensor say; as it was in every other case |
| `LineTracer.OldSensorsHold` | ino/ino.ino:72-91 | at a sample that shows nothing new the policy stays, except that a soft turn begun 600 counts ago or more turns sharply if the center is off |
| `Ultrasonic.HCSR04.UpdateMeasurement` | ino/modules/ObstacleSensor.h:69-115 | one poll of the measurement machine |
| `Ultrasonic.HCSR04.ReadDistance` | ino/modules/ObstacleSensor.h:117-125 | hands over a finished result once and leaves the range alone otherwise |
| `Ultrasonic.TriggersAreSpaced` | ino/modules/ObstacleSensor.h:72-91 | trigger pulses are at least 60000 microseconds of true time apart, however far apart the polls are |
| `Ultrasonic.ResultIsNeverOverwritten` | ino/modules/ObstacleSensor.h:73-76 | in every run, polled at any times, a finished result survives every poll until it is read |
| `Ultrasonic.MeasurementsEnd` | ino/modules/ObstacleSensor.h:93-113 | with polls at most G apart every measurement of every run has ended 50000 + G microseconds after its trigger, if and only if G + 25000 is at most a wrap of micros() |
| `Ultrasonic.DistanceIsBounded` | ino/modules/ObstacleSensor.h:103-113 | with polls at most G apart, G up to 166068, the distance is -1 or at most (25000 + G) * 343 / 2000 |
| `Ultrasonic.OverflowsIff` | ino/modules/ObstacleSensor.h:103-113 | the 16-bit distance stays at -1 or above in every run if and only if polls come at most 166068 microseconds apart |
| `Ultrasonic.LateFallOverflows` | ino/modules/ObstacleSensor.h:103-108 | a run, paced for every larger gap, that leaves a distance of -32768 |
| `UltrasonicEcho.ResultIsTheEcho` | ino/modules/ObstacleSensor.h:93-113 | in every run polled at most 166068 microseconds apart a finished result is -1 exactly when no polls since its trigger saw the echo rise and then fall, each within 25 ms, and otherwise the true time from rise to fall times 343 / 2000 |
| `UltrasonicEcho.TriggersIff` | ino/modules/ObstacleSensor.h:72-91 | in every run a poll triggers exactly when no measurement is in progress, no result is unread, and 60000 microseconds have passed since the last trigger by the wrapped clock |
| `UltrasonicEcho.ResultIsKept` | ino/modules/ObstacleSensor.h:63-67 | every measurement that has ended has its result ready, or it has been read |
| `UltrasonicEcho.TriggersAreAnswered` | ino/modules/ObstacleSensor.h:93-113 | with polls at most G apart, G up to 166068, every measurement has a result 50000 + G microseconds after its trigger, ready or read |
| `AgvController.AgvController.LineTrace` | ino/ino.ino:132-167 | stops both wheels on an obstacle and sets the policy's targets otherwise |
| `AgvController.AgvController.DoSerialCommand` | ino/ino.ino:211-237 | what each serial command does to mode, state and wheels |
| `AgvController.AgvController.ReportStatus` | ino/ino.ino:238-250 | the line sent is the status text of the current state, cut to the buffer |
| `AgvController.AgvController.UpdateFast` | ino/ino.ino:344-373 | a due fast tick takes a finished range and feeds the line sensors to the automaton |
| `AgvController.AgvController.UpdateCon` | ino/ino.ino:375-387 | a due control tick drives, samples and follows with its own elapsed time |
| `AgvController.AgvController.Loop` | ino/ino.ino:434-445 | one pass of the loop over the objects in place is the specification's sequence of phases |
| `AgvModel.WheelsRunTheirCalls` | ino/ino.ino:333-398 | a run of the controller is, for each wheel, a run of that wheel, so all theorems about wheels hold of both |
| `AgvModel.TracerRunsItsSamples` | ino/ino.ino:344-373 | a run of the controller is a run of the line-tracing automaton over its due fast ticks |
| `AgvModel.SonarRunsItsPolls` | ino/ino.ino:344-413 | a run of the controller is a run of the ultrasonic machine over its polls and due fast ticks |
| `AgvInterlock.SteersWithPolicy` | ino/ino.ino:141-166 | a tracing control tick with the way clear slows exactly the wheel on the side of the turn and reverses neither |
| `AgvInterlock.HaltedUnlessReleased` | ino/ino.ino:132-202 | from standstill exactly a tracing control tick with the way clear, or a SETSPEED other than 0,0, sets a wheel going |
| `AgvInterlock.ObstacleInterlock` | ino/ino.ino:132-139 | in any run, from a tracing control tick that sees an obstacle, both motors are off after every event in any order until released |
| `AgvInterlock.RangeDecidesObstacle` | ino/ino.ino:346-360 | over any run a valid range decides by the 120 mm threshold, and an invalid one counts as an obstacle exactly while less than 1000 counts, modulo a wrap of the 32-bit millisecond clock, have passed since the last valid one |
| `AgvInterlock.InvalidRangeStops` | ino/ino.ino:352-360 | an invalid range less than 1000 counts of the unwrapped millisecond clock after the last valid one halts both wheels at the next tracing control tick, unless another range is taken first |
| `AgvCommands.EmergencyStopHolds` | ino/ino.ino:180-207 | once EMERGENCYSTOP is served in any run both wheels are halted and unpowered after every event, obstacle or not, and every report says EMERGENCYSTOPPED, until LINETRACE, STOP or SETSPEED is served |
| `AgvCommands.StopIsObeyed` | ino/ino.ino:188-207 | every control tick after STOP, until another command but SETPID is served, leaves both targets at zero and no pulse, and names the state STOP |
| `AgvCommands.StopCoasts` | ino/ino.ino:188-207 | from that tick on every report says STOP and each wheel is without power from its fourth motor update on |
| `AgvCommands.LineTraceIsObeyed` | ino/ino.ino:132-207 | every control tick after LINETRACE halts both wheels for an obstacle, as OBSTACLE, or gives them exactly the targets of the trace policy, as TRACING |
| `AgvCommands.BootTraces` | ino/ino.ino:188-207 | the same holds from boot on, without a command |
| `AgvCommands.SetSpeedHolds` | ino/ino.ino:169-207 | after SETSPEED both wheels keep the targets and directions it gave, obstacle or not, and every report says FORCEDRUN, until another command but SETPID is served |
| `AgvCommands.SetPidHolds` | ino/ino.ino:220-226 | in every run both wheels have the gains of the last SETPID in its order, or the initial ones |
| `AgvCommands.SetPidIsQuiet` | ino/ino.ino:220-226 | SETPID changes nothing but the gains |
| `AgvRanging.RangeIsLastTaken` | ino/ino.ino:344-362 | in every run the range kept for reports is the result taken last, valid or not |
| `AgvRanging.RangeIsTheEcho` | ino/ino.ino:344-362 | and in runs whose sensor is polled at most 166068 microseconds apart that is -1 or the true echo time times 343 / 2000, as UltrasonicEcho.ResultIsTheEcho has it |
| `AgvRanging.OpenSpaceClears` | ino/ino.ino:352-360 | while no echo returns every range taken is -1 and counts as an obstacle exactly while less than 1000 counts, modulo a clock wrap, have passed since the last valid one |
| `AgvRanging.SilentRunClears` | ino/ino.ino:352-360 | so an AGV that has never heard an echo takes the way for clear from the first second on, but for one second in each clock wrap |
| `AgvSchedule.PhaseActsIff` | ino/ino.ino:333-409 | in every run a phase acts at its turn exactly if its period has passed since it acted last by the wrapped clock, never sooner in true time, and otherwise changes nothing |
| `AgvSchedule.MotorUpdatesAre` | ino/ino.ino:389-398 | in every run each wheel's motor is updated exactly once for every action of the fine phase |
| `AgvSchedule.ControlTickIs` | ino/ino.ino:375-387 | in every run a control tick samples each wheel and then follows over exactly the milliseconds since the control tick before |
| `AgvStopping.IterationIsLoop` | ino/ino.ino:333-387 | an iteration drives each wheel's estimator as the stopping theorems describe, whatever else it does |
| `AgvStopping.StoppedWheelReadsZero` | ino/ino.ino:333-387 | in any run of the whole controller whose iterations are at most 50 ms apart after a wheel's last accepted pulse, that wheel reads 0 at every iteration later than the adaptive timeout plus 21 ms |
| `AgvStopping.StoppingRunExists` | ino/ino.ino:434-445 | the assumptions of the stopping theorems are met by runs of the loop, for example two edges 20 ms apart and then iterations every 50 ms |
| `AgvStopping.StoppingWheelNeverSpeedsUp` | ino/ino.ino:333-387 | in any such run, if the last pulse closed an interval of at most a second, the estimate never rises once that pulse was sampled |
| `AgvTelemetry.EstimatesInRange` | ino/ino.ino:333-342 | in every run whose loop never stalls for a clock wrap and whose wheels never have two edges in one microsecond both estimates lie in 0..361, and in 0..330 if no edge falls where micros() reads 0 |
| `AgvTelemetry.ReportsAreSnapshots` | ino/ino.ino:238-250 | every report was sent at a due serial tick and shows the drive state, range, sensors and both estimates of that instant |
| `AgvTelemetry.TicksAreReported` | ino/ino.ino:400-409 | every due serial tick sends the next report, and it shows the state at that tick |
| `AgvTelemetry.ReportsAreNamed` | ino/ino.ino:375-409 | no report of any run has an empty state: the control tick precedes the first serial tick |
| `AgvTelemetry.EveryReportIsRead` | ino/ino.ino:238-250 | in every run every status line fits, the backend reads back exactly the reported values for TRACING, OBSTACLE and STOP, and rejects FORCEDRUN and EMERGENCYSTOPPED |
| `Missions.DatabaseManager.CreateRow` | database/database.py:100-105 | appends an open mission or, on failure, changes nothing |
| `Missions.DatabaseManager.CloseRow` | database/database.py:107-120 | closes exactly an open row of that id, refuses an empty result, and otherwise changes nothing |
| `Missions.DatabaseManager.AppendArm` | database/database.py:122-143 | appends one row of four angles or changes nothing |
| `Missions.DatabaseManager.AppendAgv` | database/database.py:145-166 | appends one row or changes nothing |
| `Missions.MissionManager.StartMission` | backend/mission_manager.py:36-43 | makes a new row current, only when none is |
| `Missions.MissionManager.FinishMission` | backend/mission_manager.py:45-52 | closes the current row and clears the id, or keeps both |
| `Missions.MissionManager.LogArmIfActive` | backend/mission_manager.py:54-67 | logs under the current mission and reports its id, or reports none |
| `Missions.MissionManager.LogAgvIfActive` | backend/mission_manager.py:69-74 | the same for an AGV event |
| `RobotBackend.RobotBackend.HandleArmCommand` | backend/robot_backend.py:314-348 | an attempt that reached the device is logged with its ack, one that found no connection is not, and the reply carries the mission |
| `RobotBackend.RobotBackend.HandleAgvEvent` | backend/robot_backend.py:350-377 | a frame is logged if a mission is active and its broadcast says whether it was |
| `MissionLog.CurrentIsOnlyOpenRow` | backend/mission_manager.py:36-52 | over every run the current id names the only open row this process created, and older rows are untouched |
| `MissionLog.EndFindsItsRow` | backend/mission_manager.py:45-52 | ending the current mission fails only for an empty result or a database error |
| `MissionLog.LoggedFlagsAgree` | backend/robot_backend.py:326-377 | the rows this process appended are exactly those its replies and broadcasts call logged, in order and under the reported mission |
| `MissionLog.MissionLogIsItsFrames` | backend/mission_manager.py:69-74 | a mission's agv_log is in order exactly the AGV frames that came while it was current and met no database error |
| `MissionLog.EndedMissionIsFrozen` | backend/mission_manager.py:45-74 | the row and both logs of an ended mission never change again |
| `MissionLog.ArmRowIsAttempt` | backend/robot_backend.py:306-328 | every arm row has the command and angles of the request it stands for: a registered command that has ended, with ack set exactly when an OK reply to that command completed it and its send did not fail, or a call refused while another was pending |
| `MissionLog.AckColumnIsExact` | backend/robot_backend.py:306-328 | if no failed send delivers its line, a registered command's row has ack set exactly when an OK reply to that command completed it |
| `MissionLog.OneRowPerCommand` | backend/robot_backend.py:326-328 | the results of two different arm rows never stand for the same attempt |
| `MissionLog.OneResultPerRow` | backend/robot_backend.py:326-328 | an arm row stands for exactly one result |
| `MissionLog.EveryRowIsRegistered` | backend/robot_backend.py:306-328 | without overlapping connects every arm row stands for a registered command |
| `MissionProgress.StartOpensMission` | backend/mission_manager.py:36-43 | in every run starting a mission appends one open row and makes it current exactly when none is current and the database does not fail; otherwise nothing changes |
| `MissionProgress.EndClosesMission` | backend/mission_manager.py:45-52 | ending one stores the stripped result in exactly the current mission's row and leaves none current, exactly when the result is not blank and the database does not fail; otherwise nothing changes |
| `MissionProgress.ResultIsKept` | database/database.py:107-120 | and that result stays in its row whatever comes after |
| `MissionProgress.HandledIsLogged` | backend/robot_backend.py:306-348 | the handler of an ended call logs and answers it with the command, angles and ack of that very call under the mission then current, answers it only without one, and does neither if the row cannot be written |
| `MissionProgress.RefusedIsLogged` | backend/robot_backend.py:306-348 | the same, without ack, for a call refused because another was pending |
| `MissionProgress.HandledOnce` | backend/robot_backend.py:306-348 | an ended call can be handled until it has been, and only its own handling settles it |
| `MissionProgress.RequestIsTaken` | backend/robot_backend.py:306-348 | a request that gets the command lock is answered at once and logged nowhere without a connection, refused while a command is pending, and registered otherwise |
| `MissionProgress.FrameIsBroadcast` | backend/robot_backend.py:350-377 | every AGV frame is broadcast once, and stored and marked with the current mission exactly if there is one and the database does not fail |

## Left out

- Floating-point rounding and NaN: floats are exact reals, so equalities such as 3000000/p hold of the model, not of 32-bit floats.
- Non-ASCII bytes and invalid UTF-8: the parser's decoding error, and Unicode whitespace and digits.
- Sockets, threads and timers as such: they are nondeterministic steps, and a socket is named by the generation that installed it. `_endpoint`, `_receiver_thread`, `_receiver_stop` and `thread.join` are not kept.
- The wire and response strings inside `ArmSendResult`: the transition system keeps ack and error; `Esp32Client.Esp32Client.RouteAck` keeps the response text.
- FreeLockMeansNothingPending: assumes that connects do not overlap, because the property is otherwise false, as `AckTheorems.OverlapLeavesCommandPending` shows.
- EveryRowIsRegistered: the same assumption, for the same reason; `MissionLog.ArmRowIsAttempt` covers the other runs.
- AckColumnIsExact: assumes that no failed send delivered its line, which `socket.sendall` does not promise; without it the property fails in the run of `AckOutcomes.FailedSendCanHideAck`. `MissionLog.ArmRowIsAttempt` needs no such assumption.
- FloatRoundTrip: for printed integers of at most six digits, which covers every 16-bit field.
- EveryReportIsRead: assumes that a wheel never has two edges in one microsecond and that the loop never stalls for the 49.7 days of a clock wrap. A window could otherwise hold more edges than a 16-bit RPM can show.
- The backend's own NDJSON framing and JSON encoding, client sockets, and the request dispatcher: library code and simpler loops than the ones modelled.
- SQL text, timestamps, the column migration and rows appended by other processes during a run; a mission's id is its place in the table.
- Mission rows left open by earlier processes: the theorems speak of rows this process created.
- The lines the AGV prints outside `reportStatus` (boot messages, the echo of SETSPEED and EMERGENCYSTOP): they are not in the relayed stream of `RelayedStream`.
- `ino/modules/Commands.h`: the outcome of reading the serial line is an arbitrary command, with unbounded integers for SETSPEED.
- The encoder interrupt inside an iteration: edges fall between iterations, and `noInterrupts` sections are atomic.
- `gui/`, `tools/`, `tests/`, `softAP_tcp.cpp`, `firmware/archive/`, `Arms.h`, `Displayer.h`, `Servo1.h`, `LineSensor.h` and `Update::monitor`: wrappers, tools and older code.

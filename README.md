# Colmi R09 ring client: a Dafny model

This project models the data-collection core of the Home Assistant integration
for the Colmi R09 smart ring (`custom_components/colmi_r09/colmi_client.py`).
A collection round reads the battery level and then runs one real-time
measurement per metric: heart rate, SpO2, stress, HRV, temperature, blood
pressure and blood sugar. Each measurement uses its own BLE connection. The
results go into a map with nine keys.

Modules:

- `Protocol` (protocol.dfy) holds the wire vocabulary.
  - It defines bytes, the command and measurement-type codes, the 16-byte frame size and the timing constants.
  - It also describes the radio link as the model sees it:
    - a stream of timed notifications (`Notification`);
    - the prefix of that stream delivered by a given tick (`Delivered`);
    - the one fault a session may suffer (`LinkFault`).
- `Packet` (packet.dfy) builds outbound frames in a zero-filled 16-byte array.
  - The command goes at offset 0, at most 14 payload bytes follow, and the checksum is at offset 15.
  - The checksum is the sum of the first 15 bytes modulo 255.
  - It also builds the START/STOP frames of a real-time measurement.
- `Decoder` (decoder.dfy) gives, for each measurement type, the update that one inbound frame makes to the state.
  - It checks the length, the command byte and the type byte.
  - The payload is read one of four ways: one byte, a big-endian 16-bit value, a temperature in tenths, or a systolic/diastolic pair.
  - A zero reading means "still measuring" and is never stored.
- `Session` (session.dfy) covers one real-time session.
  - `MeasurementState` is a class whose fields the notification handler updates in place.
  - `Poll` is the once-per-tick polling loop. It exits when the state is stable or at the deadline.
  - `RunRealtimeMeasurement` covers START, polling, STOP, unsubscribe and the result list.
  - Each method is proved against specification functions:
    - `Replay` folds the handler over the stream;
    - `StateAt` is the state the loop sees at a tick;
    - `StopTime` is the first stable tick, or the deadline;
    - `SessionSpec` is the whole session.
  - The lemmas about these functions give the promised properties.
- `Battery` (battery.dfy) covers the battery session. It writes the battery query, takes the first battery response that arrives within 10 ticks, and unsubscribes.
- `Client` (client.dfy) covers the collection round (`CollectAllData`).
  - All nine keys start at `None`.
  - A session that fails only leaves its own keys empty.
  - The blood-pressure session fills both blood-pressure keys.
  - `RoundSpec` is the round as a function of what the link does.

How the outside world is modelled:

- **Time.** `time.monotonic()` is an integer clock tick, one tick per second. Each `asyncio.sleep(1)` advances exactly one tick.
- **Notifications.** Each notification carries its arrival tick. The handler has run on every notification that arrived by the tick at which the loop wakes.
- **Link faults.** The BLE link (connect, subscribe, GATT writes, unsubscribe) is an oracle: `LinkFault` says which step fails, if any.
  - A failed connect, subscribe or command write ends the session with an error.
  - A failed STOP write or unsubscribe is swallowed, as in the client.

Behaviours of the code a reader might not expect (the model follows the code):

- Inbound frames are never checksum-checked. The handler checks only the length, byte 0 and byte 1.
- "Stable" means no notification has arrived for 4 ticks. Whether the value itself has settled is never checked.
  - Every notification resets the timer, even one that decodes to nothing.
  - So a ring that keeps sending frames keeps the session running to the 60-tick deadline (`SteadyStreamRunsToDeadline`).
- The client imports the real-time command byte (`CMD_REALTIME`) and the STOP sub-code (`REALTIME_CMD_STOP`) from const.py (`custom_components/colmi_r09/colmi_client.py:30-56`), but const.py defines neither.
  - As written, that import raises `ImportError`, so the client module cannot be loaded at all.
  - const.py:24 says that the measurement-type bytes are sent with `CMD_START_REAL_TIME = 105`, which suggests that this constant plays the role of `CMD_REALTIME`.
  - Nothing in the repository gives a value for the STOP sub-code.
  - The model therefore leaves `CmdRealtime` and `RealtimeCmdStop` as arbitrary bytes, and no property depends on their values.

## Model

| member | source | states |
|---|---|---|
| Packet.Checksum | custom_components/colmi_r09/colmi_client.py:295-298 | The checksum is a byte below 255. |
| Packet.ChecksumSeesOnlyHeader | custom_components/colmi_r09/colmi_client.py:295-298 | Only the first 15 bytes enter the checksum: two buffers that agree on them have the same checksum. |
| Packet.ChecksumValidIsHeaderSum | custom_components/colmi_r09/colmi_client.py:295-307 | A 16-byte frame is valid exactly when byte 15 is the sum of bytes 0..14 modulo 255. |
| Packet.BuildPacket | custom_components/colmi_r09/colmi_client.py:295-308 | The frame is 16 bytes. The command is at offset 0. Offsets 1..14 hold the payload bytes in order, zero-filled past the payload and cut after 14 bytes. Byte 15 is the sum of bytes 0..14 modulo 255, which is below 255. |
| Packet.BuildRealtimePacket | custom_components/colmi_r09/colmi_client.py:310-314 | The frame is [real-time command, type, sub-code, then zeros]. Its checksum is valid and equals (command + type + sub-code) mod 255. |
| Decoder.Decode | custom_components/colmi_r09/colmi_client.py:232-289 | A frame shorter than 16 bytes, or with the wrong command or type byte, changes nothing. For a frame about its own type: heart rate, SpO2 and stress store byte 3 when it is non-zero. HRV and blood sugar store the big-endian value byte3*256 + byte4 when it is non-zero. Temperature stores 10*byte3 + byte4 tenths when byte 3 is non-zero. Blood pressure stores the pair (byte 3, byte 4) exactly when both are non-zero. Any other outcome changes nothing, and a stored single value is always positive. |
| Decoder.DecodeExamples | custom_components/colmi_r09/colmi_client.py:263-289 | Decodes concrete frames: 36,7 gives 36.7 degrees; HRV 0x01,0x2C gives 300 ms; blood pressure 120/80 gives the pair; blood pressure with either half zero is ignored; a frame of another type is ignored. |
| Session.MeasurementState.constructor | custom_components/colmi_r09/colmi_client.py:61-67 | A new state has no values, zero observations, and its last-update time set to the creation tick. |
| Session.HandleRealtimeResponse | custom_components/colmi_r09/colmi_client.py:232-289 | Updates the state's value slots exactly as the decoded frame says. It leaves the time and the count alone. |
| Session.OnNotification | custom_components/colmi_r09/colmi_client.py:182-185 | The handler decodes the frame into the state, stamps the arrival tick and adds one to the observation count, whether the frame decoded or not. |
| Session.Replay | custom_components/colmi_r09/colmi_client.py:182-185 | After the handler runs over a stream, the count has grown by the number of notifications, and the last-update time is the last arrival (unchanged if none arrived). |
| Session.DeliverArrived | custom_components/colmi_r09/colmi_client.py:182-196 | While the loop sleeps, the handler runs on exactly the notifications that have arrived by the wake-up tick, in order. The state is the fold of the handler over that prefix. |
| Session.DeliveredIsFirstLate | custom_components/colmi_r09/colmi_client.py:182-196 | The notifications handed over by a tick are exactly those before the first one that has not arrived yet. |
| Session.Stable | custom_components/colmi_r09/colmi_client.py:197-202 | The early-exit test: something observed, a value present, and at least 4 ticks since the last notification. A state that passes it always has a reading to report, and that reading comes first in the result list. |
| Session.Results | custom_components/colmi_r09/colmi_client.py:221-226 | The result list holds one entry per set slot: the primary value first, then the secondary value. It holds exactly the values present in the state. |
| Session.StopTime | custom_components/colmi_r09/colmi_client.py:193-207 | The loop ends between the first check and the deadline. If it ends before the deadline, the state is stable at that tick: something observed, a value present, and 4 quiet ticks. It is not stable at any earlier check. |
| Session.StopTimeIsFirstStable | custom_components/colmi_r09/colmi_client.py:193-207 | The stop tick is unique. Any tick that is stable (or the deadline) and follows only unstable checks is the stop tick. |
| Session.Poll | custom_components/colmi_r09/colmi_client.py:193-207 | The polling loop returns at the first stable tick or at the 60-tick deadline. On return, the state is what the handler has built from everything delivered by then. |
| Session.RunRealtimeMeasurement | custom_components/colmi_r09/colmi_client.py:176-226 | The session fails exactly when connect, subscribe or the START write fails. Otherwise it stops after the START tick and by the deadline, and returns the results of the state at that tick. It writes the START frame, then the STOP frame unless that write fails, and both frames are well-formed. |
| Session.Measure | custom_components/colmi_r09/colmi_client.py:178-207 | With a healthy link, the session's outcome is the one the session specification gives. |
| Session.ValueNeverCleared | custom_components/colmi_r09/colmi_client.py:245-289 | Once a value is stored, no later notification clears it. |
| Session.UndecodedFramesChangeNothing | custom_components/colmi_r09/colmi_client.py:236-241 | Frames that decode to nothing leave both value slots as they were. |
| Session.NothingDecodedNothingSet | custom_components/colmi_r09/colmi_client.py:236-241 | If no frame of the stream decodes, the value slots at every tick are those of the initial state. |
| Session.DecodedFrameSetsValue | custom_components/colmi_r09/colmi_client.py:245-289 | If any frame in the stream decodes, a value is present after the handler has run over the stream. |
| Session.ReplayKeepsConsistent | custom_components/colmi_r09/colmi_client.py:277-283 | The handler keeps the slots consistent. Stored readings are positive. Only blood pressure uses the second slot, and only together with the first. For blood pressure, both slots are present or neither is. |
| Session.SessionValuesShape | custom_components/colmi_r09/colmi_client.py:221-226 | The result list holds only positive values. It has 0 or 2 entries for blood pressure and at most 1 entry otherwise. |
| Session.TimeoutFloor | custom_components/colmi_r09/colmi_client.py:193-226 | If no frame ever decodes, the session runs to the 60-tick deadline and returns an empty list. |
| Session.EarlyStopMeansQuiet | custom_components/colmi_r09/colmi_client.py:195-202 | An early stop means that every notification arrived at least 4 ticks before the stop, or after it. |
| Session.NotStableWhileHeard | custom_components/colmi_r09/colmi_client.py:184-201 | A notification within the last 4 ticks makes the state unstable. |
| Session.SteadyStreamRunsToDeadline | custom_components/colmi_r09/colmi_client.py:193-207 | A ring that sends a notification every few ticks keeps the session running to the deadline, whatever the frames say. |
| Session.QuietStreamConverges | custom_components/colmi_r09/colmi_client.py:193-207 | If some frame decodes and the stream ends by tick `last`, the session stops by `last + 4`. |
| Battery.FirstBatteryLevelIsFirstResponse | custom_components/colmi_r09/colmi_client.py:148-152 | The level is unknown exactly when no battery response (4+ bytes, battery command first) arrived in time. Otherwise the level is byte 1 of the first such response. |
| Battery.RunBatteryMeasurement | custom_components/colmi_r09/colmi_client.py:142-170 | The session fails exactly when connect, subscribe or the query write fails, with that fault. Otherwise the level is byte 1 of the first battery response within 10 ticks of the write, or unknown on timeout. The query frame is the battery command, 14 zeros and a checksum equal to the command. |
| Client.FoldHasAllKeys | custom_components/colmi_r09/colmi_client.py:95-105 | The result map always has exactly the nine keys. |
| Client.FoldReadsOwnSession | custom_components/colmi_r09/colmi_client.py:124-134 | After any prefix of the sessions, each key holds what its own session reported, or None if that session has not run or failed. |
| Client.RecordOutcome | custom_components/colmi_r09/colmi_client.py:126-134 | One loop step. Blood pressure fills both blood-pressure keys from the first and second values. Any other metric fills its own key from the first value. A failed session changes nothing. |
| Client.RecordReads | custom_components/colmi_r09/colmi_client.py:126-134 | One loop step writes only the keys of its own session, with what that session reported. A failed session writes nothing, and every other key keeps its value. |
| Client.RoundSpec | custom_components/colmi_r09/colmi_client.py:95-136 | The round's map has exactly the nine keys. |
| Client.CollectAllData | custom_components/colmi_r09/colmi_client.py:89-136 | The round runs the battery session and then the seven sessions in order, and returns the specified map with exactly the nine keys. |
| Client.RoundReadsOwnSession | custom_components/colmi_r09/colmi_client.py:117-134 | Each key of the round is read from its own session alone: the battery key from the battery session, every other key from its metric's session. |
| Client.FailedSessionLeavesKeyEmpty | custom_components/colmi_r09/colmi_client.py:124-134 | A metric whose session fails is None in the result. |
| Client.SessionsAreIsolated | custom_components/colmi_r09/colmi_client.py:124-134 | Changing what happens in one session does not change any key that another session fills. |
| Client.BloodPressureReportedTogether | custom_components/colmi_r09/colmi_client.py:128-130 | In every round, systolic is present exactly when diastolic is. |
| Client.RoundReadingIsPositive | custom_components/colmi_r09/colmi_client.py:125-132 | Every real-time reading in the result map is positive, never the zero "still measuring" value. |
| Client.ReportedIsPositive | custom_components/colmi_r09/colmi_client.py:128-132 | Any value a session reports for a key is positive. |

## Left out

- BLE transport: `establish_connection` with its 8 attempts, GATT characteristics, the async context manager and disconnect errors. They are replaced by the `LinkFault` oracle, one fault per session.
- Concurrency of the event loop: the handler runs between polling checks, on every notification that has arrived by then. Interleavings inside one tick are not modelled.
- The wall clock: it is an integer tick. `asyncio.sleep(1)` advances it by exactly one tick, and `time.monotonic()` reads are exact. Drift and jitter are not modelled.
- Decoder.Decode: temperature is integer tenths (10*integer part + decimal byte), not the float `round(x + y/10, 1)`. Floating point is not modelled. The two agree for all byte values.
- Decoder.Decode: the big-endian 16-bit value is written as byte3*256 + byte4, not as a shift and an or. The two are equal for bytes.
- Battery.RunBatteryMeasurement: unsubscribing takes no time, and the level is read as soon as the wait ends. In the client the handler stays subscribed until `stop_notify` completes, so a response arriving then is still stored. That covers a first response arriving just after the 10-tick timeout, which the client returns and the model reports as unknown. It also covers a later response that replaces a level already received. Frames arriving after the wait ends, whether it ended on a response or on the timeout, are not delivered in the model.
- Session.RunRealtimeMeasurement: records which START and STOP frames were written and their contents, not when they were written. The deadline tick is an input.
- Session.RunRealtimeMeasurement: teardown (the STOP write, unsubscribing and disconnecting) takes no time. The values are read at the tick the polling loop ends. In the client the handler stays subscribed until unsubscribing, so a frame that arrives during the STOP write can still set or replace the reported value. Frames arriving during teardown are not delivered in the model.
- The values of the real-time command byte and the STOP sub-code are not defined in const.py, so they stay arbitrary bytes. The `ImportError` this causes is not modelled.
- Logging (`_LOGGER`) has no effect on results and is not modelled.
- The Home Assistant glue (`__init__.py`, `config_flow.py`, `coordinator.py`, `sensor.py`) is not part of this model.

# Serial device controller — a verified model

The controller keeps one worker per laboratory instrument on a serial port,
in class `SerialDevice` (`serial_device.py`). Its fields are `available`
(the green/red indicator), `status` (a line of text), `last_result` (the
last JSON document the instrument sent), a command queue and a `running`
flag. It talks to the instrument through three exchanges:

- `check_availability` writes the probe `B` and reads one line.
- `get_measurement` tries `S`, `SI` and `si` in turn until a reply decodes as JSON.
- `get_last_json` writes `P` and decodes the one line that comes back.

Each exchange hands its records to a log sink `log_result(device, command,
result, error)`. `run` probes once, then takes commands off the queue in
order. It dispatches on the upper-cased command and probes whenever the
queue stays empty. `send_command` queues a command only while the port is
open. `close` stops the loop and closes the port.

The model has these parts:

- `Text`: Python's `str.strip` (with its exact whitespace set) and the part of
  `str.upper` that decides which commands `run` recognises.
- `Protocol`: JSON documents, the status values and their text, the log
  record, the outcome of one `readline`, and the wire commands.
- `SerialPort`: the port as a script of read outcomes. An exhausted script
  reads as an empty line, which is a timeout. The port also keeps a
  transcript of what was written and what was read.
- `DeviceModel`: the controller's fields as a value, and every operation as
  a function from the state before to the state after. `Exec` runs a
  sequence of events; an event is a submitted command, one iteration of the
  worker loop, or a close.
- `MeasureProofs` and `DeviceProofs`: what those functions guarantee.
  - The success, fault and exhaustion outcomes of a measurement.
  - The invariant that `last_result` only ever holds a value `json.loads`
    produced from a line the instrument sent.
  - First-in-first-out order of the queue.
  - Case-insensitive dispatch.
  - `close` is final and idempotent.
- `Device`: class `SerialDevice`, whose methods update its fields in place.
  Each method is proved to move the object's state exactly as the matching
  `DeviceModel` function does. Each public method (all but the helpers
  `OpenSerial` and `TryCommand`) also keeps the `last_result` invariant.

### Notable behaviours of the code

The model keeps these behaviours of `serial_device.py` as written:

- A measurement is a JSON document obtained from one of `S`, `SI` and `si`
  (`serial_device.py:78-91`). It sets `status`, never `available`.
- The probe never writes a log record.
- An empty reply to `P` logs nothing.
- A command `run` does not recognise is dropped without a record.
- `send_command` on a closed or absent port does nothing: nothing is queued
  and nothing is logged.
- `close` leaves `available` as it was.
- A measurement whose three replies are all empty leaves `status` as it
  was, for instance `"available"`, and returns False.

## Model

| member | source | states |
|---|---|---|
| DeviceModel.OpenPort | serial_device.py:44-50 | Opening succeeds: the controller holds a new open port with an unread script and an empty transcript, and is "connected". Opening fails: the port is unchanged, the status is "error: " plus the exception text, and `available` is false. Last result, log, queue and `running` are kept either way. |
| DeviceModel.Open | serial_device.py:30-50 | A new controller has no last result, an empty log and queue, is running and unavailable. Its port is open exactly when opening succeeded, in which case it is "connected"; otherwise it has no port and an error status. |
| Device.SerialDevice.constructor | serial_device.py:30-41 | The object's state is `Open(attempt)`, and the last-result invariant holds from the start. |
| Device.SerialDevice.OpenSerial | serial_device.py:44-50 | The object's new state is `OpenPort` of its old state. |
| Text.StripSpec | serial_device.py:58 | `strip()` yields the slice of the line left once the surrounding whitespace is removed. The result is empty exactly when the line is all whitespace; otherwise it neither starts nor ends with whitespace. |
| Protocol.ClassifySpec | serial_device.py:80-84 | A reply is empty exactly when the line read is all whitespace, and faulted exactly when the port raised. Otherwise the stripped, non-empty line goes to `json.loads`, and the reply is decoded or undecodable as `json.loads` decides. |
| Protocol.TextInjective | serial_device.py:37-127 | Two statuses with the same text are the same `Status` value, so the status line determines the status value and its message or line. It does not say which operation set it: "error: …" comes from opening, the probe, a measurement or `P`, and "bad json: …" from a measurement or `P`. |
| DeviceModel.Probe | serial_device.py:52-70 | On an open port, `B` is written and exactly one line is read. `available` holds exactly when that line has non-whitespace text; the status is "available", "no response" or "error: " plus the message. On a closed or absent port, `available` is false, the status is "disconnected" and nothing else changes. The log, last result, queue and `running` are never changed. |
| Device.SerialDevice.CheckAvailability | serial_device.py:52-70 | The object's new state is `Probe` of its old state, and the invariant is kept. |
| DeviceModel.Attempt | serial_device.py:79-91 | One pass writes the command and reads the next line. The reply is the classification of that line. The state changes only in the port's transcript, the log records that reply calls for, the status it calls for, and, for a decoded reply alone, the last result. |
| Device.SerialDevice.TryCommand | serial_device.py:79-91 | The reply and the object's new state are what `Attempt` gives. |
| DeviceModel.MeasureFrom | serial_device.py:78-92 | The rest of the measurement loop keeps the port present with its open flag, and keeps the queue, `running` and `available`. |
| MeasureProofs.MeasureRepliesShape | serial_device.py:78-82 | A measurement reads the script's replies in order, one per command tried, at most three. Every reply but the last is empty or undecodable. The loop stops early only after a reply that is neither. |
| MeasureProofs.MeasureFromSpec | serial_device.py:78-92 | From any command on, the loop writes the remaining commands in order, one per reply read. It succeeds exactly when the last reply decodes, which then becomes the last result. It logs exactly one record per non-empty reply, and the status follows the last non-empty reply. |
| MeasureProofs.MeasureSpec | serial_device.py:72-96 | `get_measurement` on an open port has the effect `MeasureFromSpec` describes, starting from `S`. |
| MeasureProofs.MeasureLogSplit | serial_device.py:87-95 | The log a measurement leaves is the old log, then one decode error per undecodable earlier reply (no result among them), then the records of the last reply. |
| MeasureProofs.MeasureSuccess | serial_device.py:83-88 | It returns True exactly when the last reply read decodes. Then the decoded value is the last result and the status is "measurement ok". Exactly one success record follows the earlier decode errors, tagged with the command that produced it. |
| MeasureProofs.MeasureExhausted | serial_device.py:89-92 | When the last reply is empty or undecodable, all three commands were tried and it returns False. The last result is unchanged, and exactly one record is logged per undecodable reply, none of them holding a result. The status is "bad json: " plus the last undecodable line. When every reply was empty, nothing is logged and the status is unchanged. |
| MeasureProofs.MeasureFault | serial_device.py:93-96 | When the port raises, it returns False and the last result is unchanged. The status is "error: " plus the message. The earlier decode errors stay, followed by exactly one record under `S/SI`. |
| DeviceModel.Measure | serial_device.py:72-99 | On a closed or absent port it returns False, the status is "disconnected" and nothing else changes. Queue, `running` and `available` are never changed. |
| Device.SerialDevice.GetMeasurement | serial_device.py:72-99 | The verdict and the object's new state are what `Measure` gives, and the invariant is kept. |
| DeviceModel.LastJson | serial_device.py:101-128 | On an open port, exactly one `P` is written and one line read. It returns True exactly when the line decodes. In that case the value becomes the last result, the status is "last result ok" and one success record is logged. Otherwise the last result is kept. An undecodable line logs one decode error with status "bad json: " plus the line. An empty line logs nothing and sets "no response for P". A fault logs one record under `P` and sets "error: " plus the message. On a closed or absent port it returns False with status "disconnected" and nothing else changed. |
| Device.SerialDevice.GetLastJson | serial_device.py:101-128 | The verdict and the object's new state are what `LastJson` gives, and the invariant is kept. |
| DeviceModel.Dispatch | serial_device.py:136-147 | An empty queue triggers exactly a probe. Otherwise the head of the queue is removed. `running` and the port's presence and open flag are kept. |
| DeviceProofs.CommandSpelling | serial_device.py:137-142 | The commands `run` sends to measurement are exactly `S` and `SI` spelled in any case (including the characters Python capitalises to `S` and `I`). `P` and `p` are exactly the commands sent to `get_last_json`, and `B` and `b` exactly those sent to the probe. |
| DeviceProofs.DispatchRoute | serial_device.py:136-147 | A measurement spelling at the head of the queue runs `get_measurement`, `P`/`p` runs `get_last_json`, `B`/`b` runs the probe, on the state with that command removed. Any other command is removed and nothing else changes. |
| Device.SerialDevice.Step | serial_device.py:136-147 | The object's new state is `Dispatch` of its old state, and the invariant is kept. |
| DeviceModel.Send | serial_device.py:152-154 | On an open port the command is appended to the queue and nothing else changes. Otherwise nothing changes at all. |
| Device.SerialDevice.SendCommand | serial_device.py:152-154 | The object's new state is `Send` of its old state, and the invariant is kept. |
| DeviceModel.Shutdown | serial_device.py:156-159 | After `close` the loop is stopped and no port is open. A present port is kept with only its open flag cleared. Status, `available`, last result, log and queue are unchanged. |
| Device.SerialDevice.Close | serial_device.py:156-159 | The object's new state is `Shutdown` of its old state, and the invariant is kept. |
| DeviceProofs.StoppedIsFinal | serial_device.py:152-159 | A controller that is stopped and has no open port ignores every later event: nothing is accepted, nothing is dequeued and the state stays the same. |
| DeviceProofs.CloseIsFinal | serial_device.py:156-159 | Closing twice is the same as closing once. After a close, any run of events accepts nothing, dequeues nothing and leaves the closed state as it is. |
| DeviceProofs.ExecFifo | serial_device.py:133-154 | Over any run of events, the commands taken off the queue followed by those still waiting are the commands waiting at the start followed by those accepted since, in order. |
| DeviceProofs.ExecHistory | serial_device.py:130-150 | Over any run of events, the log and the port's transcript are only appended to. The last-result invariant is preserved. |
| DeviceProofs.LastResultAlwaysDecoded | serial_device.py:84-85 | In a new controller and after any run of events, a last result, when present, is a value `json.loads` produced from a line in the port's transcript. The same holds for the `P` path (lines 110-111). |
| DeviceModel.Apply | serial_device.py:133-159 | One event: only a command submitted while the port is open is accepted, and it is accepted alone. Only a loop iteration taken while `running` holds with a non-empty queue dequeues, and what it takes is the head of the queue. No event restarts a stopped loop or removes the port. |
| DeviceModel.Exec | serial_device.py:130-159 | Over a run of events, at most one command is accepted and at most one dequeued per event. A stopped loop never restarts, and a run that starts stopped dequeues nothing. |
| Device.SerialDevice.Handle | serial_device.py:130-159 | One event submits a command through `send_command`, runs one loop iteration while `running` holds, or closes. The accepted commands, dequeued commands and new state are what `Apply` gives, and the invariant is kept. |
| Device.SerialDevice.Run | serial_device.py:130-150 | After the startup probe, handling the events in order yields the accepted commands, the dequeued commands and the final state that `Exec` gives from the probed state. The invariant is kept throughout. |
| SerialPort.Port.ReadLine | serial_device.py:58 | `readline()` returns the next scripted outcome, or an empty line once the script is exhausted. It consumes that outcome and appends it to the transcript of lines read. |

## Left out

- Threading: the `threading.Thread` base, the daemon flag and the concurrent readers of the fields are left out. The other threads' calls are modelled as a sequence of events interleaved with loop iterations (`Event`, `Exec`, `SerialDevice.Run`).
- DeviceModel.Apply: each loop iteration (`Tick`) tests `running` and runs to completion as one atomic step. In the source, an iteration that has already passed `while self.running` (`serial_device.py:133`) still finishes after another thread calls `close()`; it is usually blocked in the 0.1-second `get`. With an empty queue it then probes the closed port, setting `available` to false and the status to "disconnected" (lines 144-146 and 68-70). `StoppedIsFinal` and `CloseIsFinal` hold for the atomic steps and do not cover that one iteration in flight.
- `queue.Queue.get(timeout=0.1)`: the 0.1-second wait is not modelled. An iteration that finds the queue empty probes at once.
- `reset_input_buffer`: a scripted port holds no stale input, so the call has nothing to discard. Its exception, like those of `write` and of UTF-8 decoding, is folded into the fault outcome of the `readline` that follows.
- UTF-8 decoding and exception text: a line is already text, and an exception is just its message.
- `json.loads` and `json.dumps` are taken as given functions (`Codec`). Their behaviour on particular texts is not modelled.
- The port device, its baud rate and the outcome of `serial.Serial(...)` are parameters (`OpenAttempt`), not opened from the operating system.
- `log_result` in `db.py` (lines 24-33) is an append to the `log` sequence. The sqlite table and the timestamps it adds are not modelled.
- The outer `except` of `run` (`serial_device.py:148-150`) is not modelled. It can only be reached through a failure of the log sink or a queued command that is not a string, and both are outside the model.
- `log_command` and `send_result_http` (`serial_device.py:13-27`) are file and HTTP I/O that the controller never calls.
- `main.py` (the GUI, `check_all`, `sync_all`) and `config.py`'s device list are not part of this model. `TEST_COMMAND` appears as `Protocol.ProbeCommand`.
- DeviceModel.Attempt: a decoded JSON `null` is stored as `Some(Null)`. In the source, `json.loads("null")` is `None`, so `last_result` becomes `None`, erasing any earlier result, while the call still reports success. `Some(Null)` in the model therefore stands for the source's `None` after a decoded `null`.
- DeviceModel.LastJson: as for `Attempt`, a decoded `null` is stored as `Some(Null)`, where the source's `last_result` is `None`.
- DeviceProofs.LastResultAlwaysDecoded: because of the `null` case above, a present last result in the model means the source's `last_result` is either a decoded value or `None` after a decoded `null`.
- Text.Upper: capitalises the ASCII letters plus the two non-ASCII characters whose capital is `S` or `I`, and keeps every other character. It therefore agrees with `str.upper()` on what decides dispatch, not on every string.

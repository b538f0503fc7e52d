/** The controller of one serial device, `SerialDevice`, as an object whose
    methods update its fields in place. Each method is proved to move the
    object's state exactly as the matching function of `DeviceModel` says,
    and to keep the invariant that `lastResult` only ever holds a value
    decoded from a line the device sent. */
module Device {
  import opened Wrappers
  import opened Text
  import opened Protocol
  import opened SerialPort
  import opened DeviceModel
  import opened MeasureProofs
  import opened DeviceProofs

  class SerialDevice {
    /** The device's name, as recorded in every log record. */
    const name: string
    /** `json.loads` and `json.dumps`. */
    const codec: Codec
    /** The port, or null when opening it failed. */
    var serial: Port?
    var lastResult: Option<Json>
    var status: Status
    /** The green/red availability indicator. */
    var available: bool
    /** The commands waiting for the worker loop, oldest first. */
    var cmdQueue: seq<string>
    var running: bool
    /** The records handed to the log sink (`log_result`), oldest first. */
    var log: seq<LogEntry>

    /** The object's state as a value. */
    function State(): DevState
      reads this, serial
    {
      DevState(available, status, lastResult, log, cmdQueue, running,
        if serial == null then None else Some(serial.Snapshot()))
    }

    /** The class invariant: the last result was decoded from a reply. */
    ghost predicate Valid()
      reads this, serial
    {
      LastResultDecoded(codec, State())
    }

    /** `__init__` up to starting the worker: the fields take their initial
        values and the port is opened with the outcome `attempt`. */
    constructor (name: string, codec: Codec, attempt: OpenAttempt)
      ensures this.name == name && this.codec == codec
      ensures State() == Open(attempt) && Valid()
    {
      this.name := name;
      this.codec := codec;
      serial := null;
      lastResult := None;
      status := Disconnected;
      available := false;
      cmdQueue := [];
      running := true;
      log := [];
      new;
      OpenSerial(attempt);
      LastResultAlwaysDecoded(name, codec, attempt, []);
    }

    /** `_open_serial`. */
    method OpenSerial(attempt: OpenAttempt)
      modifies this
      ensures State() == OpenPort(old(State()), attempt)
      ensures attempt.Opened? ==> fresh(serial)
      ensures attempt.OpenFailed? ==> serial == old(serial)
    {
      match attempt
      case Opened(script) =>
        serial := new Port(script);
        status := Connected;
      case OpenFailed(msg) =>
        status := Error(msg);
        available := false;
    }

    /** `check_availability`: write `B` and read one line. */
    method CheckAvailability()
      requires Valid()
      modifies this, serial
      ensures serial == old(serial)
      ensures State() == Probe(old(State())) && Valid()
    {
      ProbeStep(codec, State());
      if serial != null && serial.isOpen {
        serial.Write(ProbeCommand);
        var r := serial.ReadLine();
        match r
        case Fault(msg) =>
          available := false;
          status := Error(msg);
        case Line(raw) =>
          var response := Strip(raw);
          if response != [] {
            available := true;
            status := Available;
          } else {
            available := false;
            status := NoResponse;
          }
      } else {
        available := false;
        status := Disconnected;
      }
    }

    /** One pass of the loop in `get_measurement`: write `cmd`, read a line,
        and update the fields as the reply calls for. */
    method TryCommand(cmd: string) returns (reply: Reply)
      requires serial != null
      modifies this, serial
      ensures serial == old(serial)
      ensures (reply, State()) == Attempt(name, codec, cmd, old(State()))
    {
      serial.Write(cmd);
      var r := serial.ReadLine();
      match r {
        case Fault(msg) =>
          status := Error(msg);
          log := log + [FaultEntry(name, MeasureFaultTag, msg)];
          reply := Faulted(msg);
        case Line(raw) =>
          var line := Strip(raw);
          if line == [] {
            reply := Silent;
          } else {
            match codec.loads(line) {
              case Ok(j) =>
                lastResult := Some(j);
                status := MeasurementOk;
                log := log + [SuccessEntry(name, cmd, codec, j)];
                reply := Decoded(line, j);
              case Err(reason) =>
                status := BadJson(line);
                log := log + [DecodeErrorEntry(name, cmd, line, reason)];
                reply := Garbled(line, reason);
            }
          }
      }
    }

    /** `get_measurement`: try `S`, `SI` and `si` in turn until a reply
        decodes or the port raises. */
    method GetMeasurement() returns (ok: bool)
      requires Valid()
      modifies this, serial
      ensures serial == old(serial)
      ensures (ok, State()) == Measure(name, codec, old(State())) && Valid()
    {
      MeasureStep(name, codec, State());
      if serial == null || !serial.isOpen {
        status := Disconnected;
        return false;
      }
      ghost var s0 := State();
      var i := 0;
      while i < |MeasureCommands|
        invariant 0 <= i <= |MeasureCommands|
        invariant serial == old(serial) && serial != null
        invariant State().port.Some?
        invariant MeasureFrom(name, codec, i, State()) == MeasureFrom(name, codec, 0, s0)
        decreases |MeasureCommands| - i
      {
        MeasureFromUnfold(name, codec, i, State());
        var reply := TryCommand(MeasureCommands[i]);
        if !(reply.Silent? || reply.Garbled?) {
          return reply.Decoded?;
        }
        i := i + 1;
      }
      MeasureFromUnfold(name, codec, i, State());
      return false;
    }

    /** `get_last_json`: write `P`, read one line and decode it. */
    method GetLastJson() returns (ok: bool)
      requires Valid()
      modifies this, serial
      ensures serial == old(serial)
      ensures (ok, State()) == LastJson(name, codec, old(State())) && Valid()
    {
      LastJsonStep(name, codec, State());
      if serial == null || !serial.isOpen {
        status := Disconnected;
        return false;
      }
      serial.Write(SnapshotCommand);
      var r := serial.ReadLine();
      match r
      case Fault(msg) =>
        status := Error(msg);
        log := log + [FaultEntry(name, SnapshotCommand, msg)];
        ok := false;
      case Line(raw) =>
        var line := Strip(raw);
        if line == [] {
          status := NoResponseForP;
          ok := false;
        } else {
          match codec.loads(line)
          case Ok(j) =>
            lastResult := Some(j);
            status := LastResultOk;
            log := log + [SuccessEntry(name, SnapshotCommand, codec, j)];
            ok := true;
          case Err(reason) =>
            status := BadJson(line);
            log := log + [DecodeErrorEntry(name, SnapshotCommand, line, reason)];
            ok := false;
        }
    }

    /** One iteration of `run`: take the oldest queued command and carry it
        out, or check availability when the queue is empty. */
    method Step()
      requires Valid()
      modifies this, serial
      ensures serial == old(serial)
      ensures State() == Dispatch(name, codec, old(State())) && Valid()
    {
      if cmdQueue == [] {
        CheckAvailability();
      } else {
        var cmd := cmdQueue[0];
        cmdQueue := cmdQueue[1..];
        DecodedKept(codec, old(State()), State());
        var command := Upper(cmd);
        if command == "S" || command == "SI" {
          var _ := GetMeasurement();
        } else if command == SnapshotCommand {
          var _ := GetLastJson();
        } else if command == ProbeCommand {
          CheckAvailability();
        }
      }
    }

    /** `send_command`: queue `cmd` if the port is open. */
    method SendCommand(cmd: string)
      requires Valid()
      modifies this
      ensures serial == old(serial)
      ensures State() == Send(old(State()), cmd) && Valid()
    {
      if serial != null && serial.isOpen {
        cmdQueue := cmdQueue + [cmd];
      }
      DecodedKept(codec, old(State()), State());
    }

    /** `close`: stop the worker loop and close an open port. */
    method Close()
      requires Valid()
      modifies this, serial
      ensures serial == old(serial)
      ensures State() == Shutdown(old(State())) && Valid()
    {
      running := false;
      if serial != null && serial.isOpen {
        serial.Close();
      }
      DecodedKept(codec, old(State()), State());
    }

    /** One event seen by the controller: another thread submits a
        command, the worker loop runs one iteration while `running` holds,
        or another thread closes the controller. Returns the commands this
        event put on the queue and took off it. */
    method Handle(e: Event) returns (accepted: seq<string>, dequeued: seq<string>)
      requires Valid()
      modifies this, serial
      ensures serial == old(serial)
      ensures (accepted, dequeued, State()) == Apply(name, codec, old(State()), e) && Valid()
    {
      accepted, dequeued := [], [];
      match e {
        case Submit(cmd) =>
          if serial != null && serial.isOpen {
            accepted := [cmd];
          }
          SendCommand(cmd);
        case Tick =>
          if running {
            if cmdQueue != [] {
              dequeued := [cmdQueue[0]];
            }
            Step();
          }
        case Stop =>
          Close();
      }
    }

    /** `run`, with the other threads' calls laid out as `events`: check
        availability once, then handle the events in order. Returns the
        commands accepted into the queue and those taken off it. */
    method Run(events: seq<Event>) returns (accepted: seq<string>, dequeued: seq<string>)
      requires Valid()
      modifies this, serial
      ensures serial == old(serial)
      ensures (accepted, dequeued, State()) == Exec(name, codec, Probe(old(State())), events) && Valid()
    {
      CheckAvailability();
      ghost var goal := Exec(name, codec, State(), events);
      accepted, dequeued := [], [];
      var k := 0;
      assert events[k..] == events;
      assert accepted + goal.0 == goal.0 && dequeued + goal.1 == goal.1;
      while k < |events|
        invariant 0 <= k <= |events|
        invariant serial == old(serial) && Valid()
        invariant var x := Exec(name, codec, State(), events[k..]);
          (accepted + x.0, dequeued + x.1, x.2) == goal
        decreases |events| - k
      {
        ExecResume(name, codec, State(), events, k, accepted, dequeued, goal);
        var acc, deq := Handle(events[k]);
        accepted, dequeued := accepted + acc, dequeued + deq;
        k := k + 1;
      }
      assert events[k..] == [];
      assert accepted + [] == accepted && dequeued + [] == dequeued;
    }
  }
}

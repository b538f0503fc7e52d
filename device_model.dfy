/** The observable state of one device controller as a value, and each of its
    operations as a function from the state before to the state after. The
    class `Device.SerialDevice` is proved to follow these functions step by
    step; the lemmas in `MeasureProofs` and `DeviceProofs` state what the
    functions guarantee. */
module DeviceModel {
  import opened Wrappers
  import opened Text
  import opened Protocol
  import opened SerialPort

  /** The fields of a controller: `available`, `status`, `last_result`, the
      records it has handed to the log sink, its command queue, its
      `running` flag and its port (absent when opening failed). */
  datatype DevState = DevState(
    available: bool,
    status: Status,
    lastResult: Option<Json>,
    log: seq<LogEntry>,
    queue: seq<string>,
    running: bool,
    port: Option<PortState>)

  /** `self.serial and self.serial.is_open`. */
  predicate PortOpen(s: DevState)
  {
    s.port.Some? && s.port.value.isOpen
  }

  /** A line that still holds something once stripped. */
  predicate HasText(raw: string)
  {
    exists k :: 0 <= k < |raw| && !IsSpace(raw[k])
  }

  /** `a` is a prefix of `b`. */
  ghost predicate Extends<T>(a: seq<T>, b: seq<T>)
  {
    |a| <= |b| && b[..|a|] == a
  }

  /** The outcome of opening the port: the device's scripted replies, or
      the message of the exception `serial.Serial(...)` raised. */
  datatype OpenAttempt = Opened(script: seq<ReadOutcome>) | OpenFailed(msg: string)

  /** `_open_serial`: on success the controller holds a new open port and
      is connected; on failure the port is left as it was, the status
      carries the exception text and the controller is unavailable. */
  function OpenPort(s: DevState, a: OpenAttempt): (s': DevState)
    ensures s'.lastResult == s.lastResult && s'.log == s.log && s'.queue == s.queue && s'.running == s.running
    ensures a.Opened? ==> s'.port == Some(PortState(true, a.script, [], [])) && s'.status == Connected && s'.available == s.available
    ensures a.OpenFailed? ==> s'.port == s.port && s'.status == Error(a.msg) && !s'.available
  {
    match a
    case Opened(script) => s.(port := Some(PortState(true, script, [], [])), status := Connected)
    case OpenFailed(msg) => s.(status := Error(msg), available := false)
  }

  /** A controller as `__init__` leaves it before opening the port:
      disconnected, unavailable, no result, an empty queue, running. */
  const Unopened := DevState(false, Disconnected, None, [], [], true, None)

  /** A new controller once `_open_serial` has run. */
  function Open(a: OpenAttempt): (s: DevState)
    ensures s.lastResult == None && s.log == [] && s.queue == [] && s.running && !s.available
    ensures PortOpen(s) <==> a.Opened?
    ensures a.Opened? ==> s.status == Connected && s.port == Some(PortState(true, a.script, [], []))
    ensures a.OpenFailed? ==> s.status == Error(a.msg) && s.port == None
  {
    OpenPort(Unopened, a)
  }

  /** `check_availability`: send the probe, read one line. */
  function Probe(s: DevState): (s': DevState)
    ensures s'.log == s.log && s'.lastResult == s.lastResult
    ensures s'.queue == s.queue && s'.running == s.running
    ensures s'.port.Some? == s.port.Some? && PortOpen(s') == PortOpen(s)
    ensures !PortOpen(s) ==> s' == s.(available := false, status := Disconnected)
    ensures PortOpen(s) ==>
      var p, p', r := s.port.value, s'.port.value, Peek(s.port.value.input, 0);
      && p'.written == p.written + [ProbeCommand]
      && p'.received == p.received + [r]
      && p'.input == Drop(p.input, 1)
      && (s'.available <==> r.Line? && HasText(r.raw))
      && s'.status == (if r.Fault? then Error(r.msg) else if HasText(r.raw) then Available else NoResponse)
  {
    if !PortOpen(s) then s.(available := false, status := Disconnected)
    else
      var x := Exchange(s.port.value, ProbeCommand);
      var s1 := s.(port := Some(x.1));
      match x.0
      case Fault(msg) => s1.(available := false, status := Error(msg))
      case Line(raw) =>
        StripSpec(raw);
        if Strip(raw) != [] then s1.(available := true, status := Available)
        else s1.(available := false, status := NoResponse)
  }

  /** The log records that one reply to `cmd` produces: none for an empty
      line, one for every other reply; `faultTag` is the command recorded
      when the port raised. */
  function ReplyEntries(name: string, codec: Codec, cmd: string, faultTag: string, r: ReadOutcome): seq<LogEntry>
  {
    match Classify(codec, r)
    case Silent => []
    case Garbled(line, reason) => [DecodeErrorEntry(name, cmd, line, reason)]
    case Decoded(_, j) => [SuccessEntry(name, cmd, codec, j)]
    case Faulted(msg) => [FaultEntry(name, faultTag, msg)]
  }

  /** The status a reply leaves behind during a measurement. */
  function ReplyStatus(st: Status, reply: Reply): Status
  {
    match reply
    case Silent => st
    case Garbled(line, _) => BadJson(line)
    case Decoded(_, _) => MeasurementOk
    case Faulted(msg) => Error(msg)
  }

  /** One pass of the measurement loop: write `cmd`, read a line, and record
      what the reply calls for. */
  function Attempt(name: string, codec: Codec, cmd: string, s: DevState): (res: (Reply, DevState))
    requires s.port.Some?
    ensures var p, r := s.port.value, Peek(s.port.value.input, 0);
      && res.0 == Classify(codec, r)
      && res.1 == s.(port := Some(PortState(p.isOpen, Drop(p.input, 1), p.written + [cmd], p.received + [r])),
                     log := s.log + ReplyEntries(name, codec, cmd, MeasureFaultTag, r),
                     status := ReplyStatus(s.status, res.0),
                     lastResult := if res.0.Decoded? then Some(res.0.value) else s.lastResult)
  {
    var x := Exchange(s.port.value, cmd);
    var s1 := s.(port := Some(x.1));
    match x.0
    case Fault(msg) =>
      (Faulted(msg), s1.(status := Error(msg), log := s.log + [FaultEntry(name, MeasureFaultTag, msg)]))
    case Line(raw) =>
      var line := Strip(raw);
      if line == [] then (Silent, s1)
      else match codec.loads(line)
        case Ok(j) =>
          (Decoded(line, j), s1.(lastResult := Some(j), status := MeasurementOk, log := s.log + [SuccessEntry(name, cmd, codec, j)]))
        case Err(reason) =>
          (Garbled(line, reason), s1.(status := BadJson(line), log := s.log + [DecodeErrorEntry(name, cmd, line, reason)]))
  }

  /** The measurement loop from its `i`-th command on, in the state `s`: an
      empty or undecodable reply moves on to the next command, anything else
      ends the loop. */
  function MeasureFrom(name: string, codec: Codec, i: nat, s: DevState): (res: (bool, DevState))
    requires i <= |MeasureCommands| && s.port.Some?
    ensures res.1.port.Some? && res.1.port.value.isOpen == s.port.value.isOpen
    ensures res.1.queue == s.queue && res.1.running == s.running && res.1.available == s.available
    decreases |MeasureCommands| - i
  {
    if i == |MeasureCommands| then (false, s)
    else
      var a := Attempt(name, codec, MeasureCommands[i], s);
      if a.0.Silent? || a.0.Garbled? then MeasureFrom(name, codec, i + 1, a.1)
      else (a.0.Decoded?, a.1)
  }

  /** `get_measurement`. */
  function Measure(name: string, codec: Codec, s: DevState): (res: (bool, DevState))
    ensures res.1.queue == s.queue && res.1.running == s.running && res.1.available == s.available
    ensures res.1.port.Some? == s.port.Some? && PortOpen(res.1) == PortOpen(s)
    ensures !PortOpen(s) ==> res == (false, s.(status := Disconnected))
  {
    if PortOpen(s) then MeasureFrom(name, codec, 0, s) else (false, s.(status := Disconnected))
  }

  /** `get_last_json`: send `P`, read one line, decode it. */
  function LastJson(name: string, codec: Codec, s: DevState): (res: (bool, DevState))
    ensures res.1.queue == s.queue && res.1.running == s.running && res.1.available == s.available
    ensures res.1.port.Some? == s.port.Some? && PortOpen(res.1) == PortOpen(s)
    ensures !PortOpen(s) ==> res == (false, s.(status := Disconnected))
    ensures PortOpen(s) ==>
      var p, p', r := s.port.value, res.1.port.value, Peek(s.port.value.input, 0);
      var reply := Classify(codec, r);
      && p'.written == p.written + [SnapshotCommand]
      && p'.received == p.received + [r]
      && p'.input == Drop(p.input, 1)
      && (res.0 <==> reply.Decoded?)
      && res.1.lastResult == (if reply.Decoded? then Some(reply.value) else s.lastResult)
      && res.1.log == s.log + ReplyEntries(name, codec, SnapshotCommand, SnapshotCommand, r)
      && res.1.status == match reply
           case Silent => NoResponseForP
           case Garbled(line, _) => BadJson(line)
           case Decoded(_, _) => LastResultOk
           case Faulted(msg) => Error(msg)
  {
    if !PortOpen(s) then (false, s.(status := Disconnected))
    else
      var x := Exchange(s.port.value, SnapshotCommand);
      var s1 := s.(port := Some(x.1));
      match x.0
      case Fault(msg) =>
        (false, s1.(status := Error(msg), log := s.log + [FaultEntry(name, SnapshotCommand, msg)]))
      case Line(raw) =>
        var line := Strip(raw);
        if line == [] then (false, s1.(status := NoResponseForP))
        else match codec.loads(line)
          case Ok(j) =>
            (true, s1.(lastResult := Some(j), status := LastResultOk, log := s.log + [SuccessEntry(name, SnapshotCommand, codec, j)]))
          case Err(reason) =>
            (false, s1.(status := BadJson(line), log := s.log + [DecodeErrorEntry(name, SnapshotCommand, line, reason)]))
  }

  /** Commands that `run` hands to `get_measurement`. */
  predicate IsMeasureCommand(cmd: string)
  {
    Upper(cmd) == "S" || Upper(cmd) == "SI"
  }

  /** One iteration of `run`: take the next queued command and carry it out,
      or probe when the queue is empty. */
  function Dispatch(name: string, codec: Codec, s: DevState): (s': DevState)
    ensures s'.running == s.running
    ensures s'.port.Some? == s.port.Some? && PortOpen(s') == PortOpen(s)
    ensures s.queue == [] ==> s' == Probe(s)
    ensures s.queue != [] ==> s'.queue == s.queue[1..]
  {
    if s.queue == [] then Probe(s)
    else
      var cmd := s.queue[0];
      var s1 := s.(queue := s.queue[1..]);
      if IsMeasureCommand(cmd) then Measure(name, codec, s1).1
      else if Upper(cmd) == SnapshotCommand then LastJson(name, codec, s1).1
      else if Upper(cmd) == ProbeCommand then Probe(s1)
      else s1
  }

  /** `send_command`: queue `cmd` only while the port is open. */
  function Send(s: DevState, cmd: string): (s': DevState)
    ensures PortOpen(s) ==> s' == s.(queue := s.queue + [cmd])
    ensures !PortOpen(s) ==> s' == s
  {
    if PortOpen(s) then s.(queue := s.queue + [cmd]) else s
  }

  /** `close`: stop the loop and close an open port. */
  function Shutdown(s: DevState): (s': DevState)
    ensures !s'.running && !PortOpen(s')
    ensures s'.port.Some? == s.port.Some?
    ensures s.port.Some? ==> s'.port.value == s.port.value.(isOpen := false)
    ensures s'.available == s.available && s'.status == s.status && s'.lastResult == s.lastResult
    ensures s'.log == s.log && s'.queue == s.queue
  {
    var s1 := s.(running := false);
    if PortOpen(s) then s1.(port := Some(s.port.value.(isOpen := false))) else s1
  }

  /** What can happen to a controller: a caller submits a command, the
      worker loop runs one iteration, or the controller is closed. */
  datatype Event = Submit(cmd: string) | Tick | Stop

  /** The effect of one event: the commands accepted into the queue, the
      commands taken off it, and the new state. The loop only iterates while
      `running` holds. */
  function Apply(name: string, codec: Codec, s: DevState, e: Event): (r: (seq<string>, seq<string>, DevState))
    ensures r.2.running ==> s.running
    ensures r.2.port.Some? == s.port.Some?
    ensures r.0 != [] ==> e.Submit? && PortOpen(s) && r.0 == [e.cmd]
    ensures r.1 != [] ==> e.Tick? && s.running && s.queue != [] && r.1 == [s.queue[0]]
  {
    match e
    case Submit(cmd) => (if PortOpen(s) then [cmd] else [], [], Send(s, cmd))
    case Tick =>
      if !s.running then ([], [], s)
      else ([], if s.queue == [] then [] else [s.queue[0]], Dispatch(name, codec, s))
    case Stop => ([], [], Shutdown(s))
  }

  /** A run of events, from the state `s`. */
  function Exec(name: string, codec: Codec, s: DevState, events: seq<Event>): (r: (seq<string>, seq<string>, DevState))
    ensures r.2.running ==> s.running
    ensures |r.0| <= |events| && |r.1| <= |events|
    ensures !s.running ==> r.1 == []
    decreases |events|
  {
    if events == [] then ([], [], s)
    else
      var a := Apply(name, codec, s, events[0]);
      var b := Exec(name, codec, a.2, events[1..]);
      (a.0 + b.0, a.1 + b.1, b.2)
  }
}

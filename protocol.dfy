/** The values exchanged between a controller, its instrument and the log:
    decoded JSON, the status line shown for a device, the log record, the
    outcome of one `readline`, and the wire commands. */
module Protocol {
  import opened Wrappers
  import opened Text

  /** A decoded JSON document. Numbers keep their literal text. */
  datatype Json =
    | Null
    | Bool(b: bool)
    | Number(literal: string)
    | Str(s: string)
    | Array(items: seq<Json>)
    | Object(members: seq<(string, Json)>)

  /** `json.loads` and `json.dumps`, taken as given: `loads` either yields a
      document or the text of the exception it raises. */
  datatype Codec = Codec(loads: string -> Result<Json, string>, dumps: Json -> string)

  /** What one `readline()` on the port gives: the raw text of a line (the
      empty text when the read timed out), or the message of an exception
      raised while talking to the port. */
  datatype ReadOutcome = Line(raw: string) | Fault(msg: string)

  /** A record passed to the log sink `log_result(device, command, result, error)`. */
  datatype LogEntry = LogEntry(device: string, command: string, result: Option<string>, error: Option<string>)

  /** The value of a device's `status` field. */
  datatype Status =
    | Disconnected
    | Connected
    | Available
    | NoResponse
    | Error(msg: string)
    | MeasurementOk
    | BadJson(line: string)
    | LastResultOk
    | NoResponseForP
  {
    /** The status text exactly as the controller stores it. */
    function Text(): string
    {
      match this
      case Disconnected => "disconnected"
      case Connected => "connected"
      case Available => "available"
      case NoResponse => "no response"
      case Error(msg) => "error: " + msg
      case MeasurementOk => "measurement ok"
      case BadJson(line) => "bad json: " + line
      case LastResultOk => "last result ok"
      case NoResponseForP => "no response for P"
    }
  }

  /** The liveness probe, `TEST_COMMAND` in the configuration. */
  const ProbeCommand: string := "B"
  /** The measurement commands, tried in this order. */
  const MeasureCommands: seq<string> := ["S", "SI", "si"]
  /** The command asking for the last stored result. */
  const SnapshotCommand: string := "P"
  /** The command recorded when a measurement exchange raises. */
  const MeasureFaultTag: string := "S/SI"

  /** How the controller reads one reply once it is stripped and, if not
      empty, handed to `json.loads`. */
  datatype Reply =
    | Silent                                  // empty after stripping: a timeout
    | Garbled(line: string, reason: string)   // `json.loads` raised
    | Decoded(line: string, value: Json)      // `json.loads` succeeded
    | Faulted(msg: string)                    // the port raised

  function Classify(codec: Codec, r: ReadOutcome): Reply
  {
    match r
    case Fault(m) => Faulted(m)
    case Line(raw) =>
      var line := Strip(raw);
      if line == [] then Silent
      else match codec.loads(line)
        case Ok(j) => Decoded(line, j)
        case Err(e) => Garbled(line, e)
  }

  /** A reply is empty exactly when the line is all whitespace; otherwise the
      controller hands the stripped line, which has no surrounding whitespace,
      to `json.loads`, and the classification follows its verdict. */
  lemma ClassifySpec(codec: Codec, r: ReadOutcome)
    ensures var reply := Classify(codec, r);
      && (reply.Silent? <==> r.Line? && forall k :: 0 <= k < |r.raw| ==> IsSpace(r.raw[k]))
      && (reply.Faulted? <==> r.Fault?)
      && ((reply.Garbled? || reply.Decoded?) ==>
            reply.line == Strip(r.raw) && reply.line != [] && !IsSpace(reply.line[0]) && !IsSpace(reply.line[|reply.line| - 1]))
      && (reply.Decoded? ==> codec.loads(reply.line) == Ok(reply.value))
      && (reply.Garbled? ==> codec.loads(reply.line) == Err(reply.reason))
  {
    if r.Line? {
      StripSpec(r.raw);
    }
  }

  /** The log record of a decoded reply: the re-encoded document as result. */
  function SuccessEntry(device: string, cmd: string, codec: Codec, j: Json): LogEntry
  {
    LogEntry(device, cmd, Some(codec.dumps(j)), None)
  }

  /** The log record of a reply `json.loads` rejected. */
  function DecodeErrorEntry(device: string, cmd: string, line: string, reason: string): LogEntry
  {
    LogEntry(device, cmd, None, Some("JSON decode error: " + line + " | " + reason))
  }

  /** The log record of an exchange the port aborted. */
  function FaultEntry(device: string, cmd: string, msg: string): LogEntry
  {
    LogEntry(device, cmd, None, Some(msg))
  }

  /** The status text identifies the status: distinct outcomes never show the
      same text. */
  lemma TextInjective(a: Status, b: Status)
    requires a.Text() == b.Text()
    ensures a == b
  {
    if a.Error? && b.Error? {
      assert a.msg == a.Text()[7..] == b.Text()[7..] == b.msg;
    } else if a.BadJson? && b.BadJson? {
      assert a.line == a.Text()[10..] == b.Text()[10..] == b.line;
    } else {
      var t, u := a.Text(), b.Text();
      assert |t| == |u| && t[0] == u[0] && t[1] == u[1] && t[3] == u[3];
    }
  }
}

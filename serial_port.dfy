/** The serial channel a controller owns (`serial.Serial` opened with a
    one-second timeout), as a scripted device: `input` holds the outcomes
    of the coming `readline()` calls in order, and once it runs out every
    read times out with an empty line. The port also keeps the transcript
    of what was written and what was read, so that properties can speak
    about the exchange. */
module SerialPort {
  import opened Protocol

  /** The outcome of the `j`-th read from now, given the scripted input. */
  function Peek(input: seq<ReadOutcome>, j: nat): ReadOutcome
  {
    if j < |input| then input[j] else Line("")
  }

  /** The script left after `n` reads. */
  function Drop(input: seq<ReadOutcome>, n: nat): seq<ReadOutcome>
  {
    if n <= |input| then input[n..] else []
  }

  lemma PeekDrop(input: seq<ReadOutcome>, n: nat, j: nat)
    ensures Peek(Drop(input, n), j) == Peek(input, n + j)
  {
  }

  lemma DropDrop(input: seq<ReadOutcome>, n: nat, m: nat)
    ensures Drop(Drop(input, n), m) == Drop(input, n + m)
  {
  }

  /** A value snapshot of a port. */
  datatype PortState = PortState(isOpen: bool, input: seq<ReadOutcome>, written: seq<string>, received: seq<ReadOutcome>)

  /** One framed exchange: write `cmd` followed by a newline, then read one line. */
  function Exchange(p: PortState, cmd: string): (ReadOutcome, PortState)
  {
    var r := Peek(p.input, 0);
    (r, p.(input := Drop(p.input, 1), written := p.written + [cmd], received := p.received + [r]))
  }

  class Port {
    var isOpen: bool
    var input: seq<ReadOutcome>
    var written: seq<string>
    var received: seq<ReadOutcome>

    function Snapshot(): PortState
      reads this
    {
      PortState(isOpen, input, written, received)
    }

    /** A port that opened successfully and will answer with `script`. */
    constructor (script: seq<ReadOutcome>)
      ensures Snapshot() == PortState(true, script, [], [])
    {
      isOpen := true;
      input := script;
      written := [];
      received := [];
    }

    /** `write(cmd + "\n")`. */
    method Write(cmd: string)
      modifies this
      ensures Snapshot() == old(Snapshot()).(written := old(written) + [cmd])
    {
      written := written + [cmd];
    }

    /** `readline()`: the next scripted outcome, or an empty line on timeout. */
    method ReadLine() returns (r: ReadOutcome)
      modifies this
      ensures r == Peek(old(input), 0)
      ensures Snapshot() == old(Snapshot()).(input := Drop(old(input), 1), received := old(received) + [r])
    {
      if input == [] {
        r := Line("");
      } else {
        r := input[0];
        input := input[1..];
      }
      received := received + [r];
    }

    /** `close()`. */
    method Close()
      modifies this
      ensures Snapshot() == old(Snapshot()).(isOpen := false)
    {
      isOpen := false;
    }
  }
}

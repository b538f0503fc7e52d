/** What the controller's worker loop, `send_command` and `close` guarantee
    over any run of events. */
module DeviceProofs {
  import opened Wrappers
  import opened Text
  import opened Protocol
  import opened SerialPort
  import opened DeviceModel
  import opened MeasureProofs

  /** `t` is a later state than `s`: the log and the port's transcript have
      only been appended to, and a port that existed still exists. */
  ghost predicate Grows(s: DevState, t: DevState)
  {
    && Extends(s.log, t.log)
    && (s.port.Some? ==>
          && t.port.Some?
          && Extends(s.port.value.written, t.port.value.written)
          && Extends(s.port.value.received, t.port.value.received))
  }

  /** `last_result` only ever holds a value that `json.loads` produced from
      a line the device sent. */
  ghost predicate LastResultDecoded(codec: Codec, s: DevState)
  {
    s.lastResult.Some? ==>
      s.port.Some? &&
      exists r :: r in s.port.value.received && Classify(codec, r).Decoded? && Classify(codec, r).value == s.lastResult.value
  }

  /** A step that keeps the last result and only appends keeps the invariant. */
  lemma DecodedKept(codec: Codec, s: DevState, t: DevState)
    requires Grows(s, t) && t.lastResult == s.lastResult
    requires LastResultDecoded(codec, s)
    ensures LastResultDecoded(codec, t)
  {
    if s.lastResult.Some? {
      var r :| r in s.port.value.received && Classify(codec, r).Decoded? && Classify(codec, r).value == s.lastResult.value;
      var a, b := s.port.value.received, t.port.value.received;
      var k :| 0 <= k < |a| && a[k] == r;
      assert b[k] == r;
    }
  }

  /** A step whose new last result decodes from a reply it appended keeps the invariant. */
  lemma DecodedSet(codec: Codec, s: DevState, t: DevState, r: ReadOutcome)
    requires t.port.Some? && r in t.port.value.received
    requires Classify(codec, r).Decoded? && t.lastResult == Some(Classify(codec, r).value)
    ensures LastResultDecoded(codec, t)
  {
  }

  lemma GrowsTrans(s: DevState, t: DevState, u: DevState)
    requires Grows(s, t) && Grows(t, u)
    ensures Grows(s, u)
  {
  }

  /** Appending a suffix extends a sequence. */
  lemma ExtendsAppend<T>(a: seq<T>, b: seq<T>)
    ensures Extends(a, a + b)
  {
    assert (a + b)[..|a|] == a;
  }

  lemma ProbeStep(codec: Codec, s: DevState)
    ensures Grows(s, Probe(s))
    ensures LastResultDecoded(codec, s) ==> LastResultDecoded(codec, Probe(s))
  {
    var t := Probe(s);
    if PortOpen(s) {
      var r := Peek(s.port.value.input, 0);
      ExtendsAppend(s.port.value.written, [ProbeCommand]);
      ExtendsAppend(s.port.value.received, [r]);
    }
    if LastResultDecoded(codec, s) {
      DecodedKept(codec, s, t);
    }
  }

  lemma MeasureStep(name: string, codec: Codec, s: DevState)
    ensures Grows(s, Measure(name, codec, s).1)
    ensures LastResultDecoded(codec, s) ==> LastResultDecoded(codec, Measure(name, codec, s).1)
  {
    var res := Measure(name, codec, s);
    if PortOpen(s) {
      var p, R := s.port.value, MeasureReplies(codec, 0, s.port.value.input);
      MeasureSpec(name, codec, s);
      ExtendsAppend(p.written, MeasureCommands[0..|R|]);
      ExtendsAppend(p.received, R);
      ExtendsAppend(s.log, TranscriptEntries(name, codec, MeasureCommands[0..|R|], R));
      if res.0 {
        assert R[|R| - 1] == res.1.port.value.received[|p.received| + |R| - 1];
        DecodedSet(codec, s, res.1, R[|R| - 1]);
      } else if LastResultDecoded(codec, s) {
        DecodedKept(codec, s, res.1);
      }
    } else if LastResultDecoded(codec, s) {
      DecodedKept(codec, s, res.1);
    }
  }

  lemma LastJsonStep(name: string, codec: Codec, s: DevState)
    ensures Grows(s, LastJson(name, codec, s).1)
    ensures LastResultDecoded(codec, s) ==> LastResultDecoded(codec, LastJson(name, codec, s).1)
  {
    var res := LastJson(name, codec, s);
    if PortOpen(s) {
      var p, r := s.port.value, Peek(s.port.value.input, 0);
      ExtendsAppend(p.written, [SnapshotCommand]);
      ExtendsAppend(p.received, [r]);
      ExtendsAppend(s.log, ReplyEntries(name, codec, SnapshotCommand, SnapshotCommand, r));
      if res.0 {
        assert r == res.1.port.value.received[|p.received|];
        DecodedSet(codec, s, res.1, r);
        return;
      }
    }
    if LastResultDecoded(codec, s) {
      DecodedKept(codec, s, res.1);
    }
  }

  lemma DispatchStep(name: string, codec: Codec, s: DevState)
    ensures Grows(s, Dispatch(name, codec, s))
    ensures LastResultDecoded(codec, s) ==> LastResultDecoded(codec, Dispatch(name, codec, s))
  {
    if s.queue == [] {
      ProbeStep(codec, s);
    } else {
      var cmd, s1 := s.queue[0], s.(queue := s.queue[1..]);
      if IsMeasureCommand(cmd) {
        MeasureStep(name, codec, s1);
      } else if Upper(cmd) == SnapshotCommand {
        LastJsonStep(name, codec, s1);
      } else if Upper(cmd) == ProbeCommand {
        ProbeStep(codec, s1);
      }
    }
  }

  lemma ApplyStep(name: string, codec: Codec, s: DevState, e: Event)
    ensures Grows(s, Apply(name, codec, s, e).2)
    ensures LastResultDecoded(codec, s) ==> LastResultDecoded(codec, Apply(name, codec, s, e).2)
  {
    var t := Apply(name, codec, s, e).2;
    match e
    case Tick =>
      if s.running {
        DispatchStep(name, codec, s);
      }
    case _ =>
      if LastResultDecoded(codec, s) {
        DecodedKept(codec, s, t);
      }
  }

  /** Over any run of events, the log and the port's transcript are only
      appended to, and `last_result` only ever holds a value decoded from a
      line the device sent. */
  lemma {:induction false} ExecHistory(name: string, codec: Codec, s: DevState, events: seq<Event>)
    ensures Grows(s, Exec(name, codec, s, events).2)
    ensures LastResultDecoded(codec, s) ==> LastResultDecoded(codec, Exec(name, codec, s, events).2)
    decreases |events|
  {
    if events != [] {
      var a := Apply(name, codec, s, events[0]);
      ApplyStep(name, codec, s, events[0]);
      ExecHistory(name, codec, a.2, events[1..]);
      GrowsTrans(s, a.2, Exec(name, codec, a.2, events[1..]).2);
    }
  }

  /** A new controller satisfies the last-result invariant, and it then
      holds over every run. */
  lemma LastResultAlwaysDecoded(name: string, codec: Codec, a: OpenAttempt, events: seq<Event>)
    ensures LastResultDecoded(codec, Open(a))
    ensures LastResultDecoded(codec, Exec(name, codec, Open(a), events).2)
  {
    ExecHistory(name, codec, Open(a), events);
  }

  /** A run from the `k`-th event on: that event, then the rest. */
  lemma ExecUnfold(name: string, codec: Codec, s: DevState, events: seq<Event>, k: nat)
    requires k < |events|
    ensures var a := Apply(name, codec, s, events[k]);
      var b := Exec(name, codec, a.2, events[k + 1..]);
      Exec(name, codec, s, events[k..]) == (a.0 + b.0, a.1 + b.1, b.2)
  {
    assert events[k..][0] == events[k] && events[k..][1..] == events[k + 1..];
  }

  /** A run that reaches `goal` from the `k`-th event on, after the
      commands `accepted` and `dequeued` so far, still reaches it after one
      more event. */
  lemma ExecResume(name: string, codec: Codec, s: DevState, events: seq<Event>, k: nat,
                   accepted: seq<string>, dequeued: seq<string>, goal: (seq<string>, seq<string>, DevState))
    requires k < |events|
    requires var x := Exec(name, codec, s, events[k..]); (accepted + x.0, dequeued + x.1, x.2) == goal
    ensures var a := Apply(name, codec, s, events[k]);
      var y := Exec(name, codec, a.2, events[k + 1..]);
      ((accepted + a.0) + y.0, (dequeued + a.1) + y.1, y.2) == goal
  {
    ExecUnfold(name, codec, s, events, k);
    var a := Apply(name, codec, s, events[k]);
    var y := Exec(name, codec, a.2, events[k + 1..]);
    assert accepted + (a.0 + y.0) == (accepted + a.0) + y.0;
    assert dequeued + (a.1 + y.1) == (dequeued + a.1) + y.1;
  }

  lemma ApplyFifo(name: string, codec: Codec, s: DevState, e: Event)
    ensures var x := Apply(name, codec, s, e); x.1 + x.2.queue == s.queue + x.0
  {
    match e
    case Tick =>
      if s.running && s.queue != [] {
        assert [s.queue[0]] + s.queue[1..] == s.queue;
      }
    case _ =>
  }

  /** Two stretches of first-in-first-out queueing compose into one. */
  lemma QueueCompose<T>(q0: seq<T>, in1: seq<T>, out1: seq<T>, q1: seq<T>, in2: seq<T>, out2: seq<T>, q2: seq<T>)
    requires out1 + q1 == q0 + in1 && out2 + q2 == q1 + in2
    ensures (out1 + out2) + q2 == q0 + (in1 + in2)
  {
    calc {
      (out1 + out2) + q2;
      out1 + (q1 + in2);
      (q0 + in1) + in2;
    }
  }

  /** The queue is first in, first out: the commands taken off the queue,
      followed by those still waiting, are the commands that were waiting
      before, followed by those accepted since, in the order they came. */
  lemma {:induction false} ExecFifo(name: string, codec: Codec, s: DevState, events: seq<Event>)
    ensures var x := Exec(name, codec, s, events); x.1 + x.2.queue == s.queue + x.0
    decreases |events|
  {
    if events != [] {
      var a := Apply(name, codec, s, events[0]);
      var b := Exec(name, codec, a.2, events[1..]);
      ApplyFifo(name, codec, s, events[0]);
      ExecFifo(name, codec, a.2, events[1..]);
      QueueCompose(s.queue, a.0, a.1, a.2.queue, b.0, b.1, b.2.queue);
    }
  }

  /** A controller that is stopped and whose port is closed or absent ignores
      every later event: commands are not accepted, the loop never runs, and
      closing again changes nothing. */
  lemma {:induction false} StoppedIsFinal(name: string, codec: Codec, s: DevState, events: seq<Event>)
    requires !s.running && !PortOpen(s)
    ensures Exec(name, codec, s, events) == ([], [], s)
    decreases |events|
  {
    if events != [] {
      assert Apply(name, codec, s, events[0]) == ([], [], s);
      StoppedIsFinal(name, codec, s, events[1..]);
      var x := Exec(name, codec, s, events);
      assert x.0 == [] && x.1 == [] && x.2 == s;
    }
  }

  /** `close` is final: after it, nothing a caller or the loop does has any
      effect, and closing again is idempotent. */
  lemma CloseIsFinal(name: string, codec: Codec, s: DevState, events: seq<Event>)
    ensures Shutdown(Shutdown(s)) == Shutdown(s)
    ensures Exec(name, codec, s, [Stop] + events) == ([], [], Shutdown(s))
  {
    StoppedIsFinal(name, codec, Shutdown(s), events);
    assert ([Stop] + events)[1..] == events;
  }

  /** Spellings that `run` treats as a measurement: `S` or `SI` in any case,
      where Python's `upper()` also maps LATIN SMALL LETTER LONG S to `S`
      and LATIN SMALL LETTER DOTLESS I to `I`. */
  predicate MeasureSpelling(cmd: string)
  {
    && 1 <= |cmd| <= 2
    && (cmd[0] == 'S' || cmd[0] == 's' || cmd[0] == 'ſ')
    && (|cmd| == 2 ==> cmd[1] == 'I' || cmd[1] == 'i' || cmd[1] == 'ı')
  }

  /** The commands `run` recognises, spelled out. */
  lemma {:induction false} CommandSpelling(cmd: string)
    ensures IsMeasureCommand(cmd) <==> MeasureSpelling(cmd)
    ensures Upper(cmd) == SnapshotCommand <==> cmd == "P" || cmd == "p"
    ensures Upper(cmd) == ProbeCommand <==> cmd == "B" || cmd == "b"
  {
    var u := Upper(cmd);
    if 1 <= |cmd| {
      UpperCharInverse(cmd[0]);
    }
    if 2 <= |cmd| {
      UpperCharInverse(cmd[1]);
    }
    if |cmd| == 1 {
      assert u == [UpperChar(cmd[0])];
      assert cmd == [cmd[0]];
    } else if |cmd| == 2 {
      assert u == [UpperChar(cmd[0]), UpperChar(cmd[1])];
    }
  }

  /** Where one iteration of `run` sends the command at the head of the
      queue; a command it does not recognise is dropped and nothing else
      happens. */
  lemma DispatchRoute(name: string, codec: Codec, s: DevState)
    requires s.queue != []
    ensures var cmd, rest := s.queue[0], s.(queue := s.queue[1..]);
      && (MeasureSpelling(cmd) ==> Dispatch(name, codec, s) == Measure(name, codec, rest).1)
      && (cmd == "P" || cmd == "p" ==> Dispatch(name, codec, s) == LastJson(name, codec, rest).1)
      && (cmd == "B" || cmd == "b" ==> Dispatch(name, codec, s) == Probe(rest))
      && (!MeasureSpelling(cmd) && cmd !in ["P", "p", "B", "b"] ==> Dispatch(name, codec, s) == rest)
  {
    CommandSpelling(s.queue[0]);
  }
}

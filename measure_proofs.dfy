/** What `get_measurement` guarantees, stated over the replies it reads and
    proved from `DeviceModel.MeasureFrom`. */
module MeasureProofs {
  import opened Wrappers
  import opened Protocol
  import opened SerialPort
  import opened DeviceModel

  /** A reply after which the loop goes on to the next command. */
  predicate Skippable(codec: Codec, r: ReadOutcome)
  {
    Classify(codec, r).Silent? || Classify(codec, r).Garbled?
  }

  /** The replies the measurement loop reads from its `i`-th command on when
      the port would answer `input`: one reply per command, stopping after
      the first reply that is neither empty nor undecodable. */
  function MeasureReplies(codec: Codec, i: nat, input: seq<ReadOutcome>): (R: seq<ReadOutcome>)
    requires i <= |MeasureCommands|
    ensures i + |R| <= |MeasureCommands|
    decreases |MeasureCommands| - i
  {
    if i == |MeasureCommands| then []
    else
      var r := Peek(input, 0);
      if Skippable(codec, r) then [r] + MeasureReplies(codec, i + 1, Drop(input, 1)) else [r]
  }

  /** The log records for commands `W` answered by replies `R`, in order. */
  function TranscriptEntries(name: string, codec: Codec, W: seq<string>, R: seq<ReadOutcome>): seq<LogEntry>
    requires |W| == |R|
  {
    if R == [] then [] else ReplyEntries(name, codec, W[0], MeasureFaultTag, R[0]) + TranscriptEntries(name, codec, W[1..], R[1..])
  }

  /** The stripped text of the last reply in `R` that `json.loads` rejected. */
  function LastGarbled(codec: Codec, R: seq<ReadOutcome>): Option<string>
  {
    if R == [] then None
    else if LastGarbled(codec, R[1..]).Some? then LastGarbled(codec, R[1..])
    else if Classify(codec, R[0]).Garbled? then Some(Classify(codec, R[0]).line)
    else None
  }

  /** The status a measurement leaves after the replies `R`, starting from `st`. */
  function MeasureStatus(codec: Codec, st: Status, R: seq<ReadOutcome>): Status
  {
    if R != [] && Classify(codec, R[|R| - 1]).Decoded? then MeasurementOk
    else if R != [] && R[|R| - 1].Fault? then Error(R[|R| - 1].msg)
    else match LastGarbled(codec, R)
      case None => st
      case Some(line) => BadJson(line)
  }

  /** The number of replies `json.loads` rejected. */
  function CountGarbled(codec: Codec, R: seq<ReadOutcome>): nat
  {
    if R == [] then 0 else (if Classify(codec, R[0]).Garbled? then 1 else 0) + CountGarbled(codec, R[1..])
  }

  /** The measurement reads the port's replies in order, one per command
      still to try, and stops exactly after the first reply that is neither
      empty nor undecodable. */
  lemma {:induction false} MeasureRepliesShape(codec: Codec, i: nat, input: seq<ReadOutcome>)
    requires i <= |MeasureCommands|
    ensures var R := MeasureReplies(codec, i, input);
      && i + |R| <= |MeasureCommands|
      && (i < |MeasureCommands| ==> 1 <= |R|)
      && (forall j :: 0 <= j < |R| ==> R[j] == Peek(input, j))
      && (forall j :: 0 <= j < |R| - 1 ==> Skippable(codec, R[j]))
      && (0 < |R| && i + |R| < |MeasureCommands| ==> !Skippable(codec, R[|R| - 1]))
    decreases |MeasureCommands| - i
  {
    if i < |MeasureCommands| && Skippable(codec, Peek(input, 0)) {
      var R2 := MeasureReplies(codec, i + 1, Drop(input, 1));
      MeasureRepliesShape(codec, i + 1, Drop(input, 1));
      var R := [Peek(input, 0)] + R2;
      forall j | 0 <= j < |R|
        ensures R[j] == Peek(input, j)
      {
        if j > 0 {
          PeekDrop(input, 1, j - 1);
        }
      }
      if 0 < |R2| {
        assert R[|R| - 1] == R2[|R2| - 1];
      }
    }
  }

  /** What a run that wrote `W` and read `R` does to the port and to the
      verdict, starting in `s` and ending with verdict `ok` in `t`: it
      succeeds exactly when the last reply decodes, which then becomes the
      last result, and otherwise keeps the last result. */
  ghost predicate IoOf(codec: Codec, W: seq<string>, R: seq<ReadOutcome>, s: DevState, ok: bool, t: DevState)
    requires s.port.Some?
  {
    var p := s.port.value;
    && t.port == Some(p.(input := Drop(p.input, |R|), written := p.written + W, received := p.received + R))
    && (ok <==> R != [] && Classify(codec, R[|R| - 1]).Decoded?)
    && t.lastResult == (if ok then Some(Classify(codec, R[|R| - 1]).value) else s.lastResult)
  }

  /** What the measurement loop from its `i`-th command on does to the port
      and to the verdict: it writes the next commands in their fixed order
      and reads `MeasureReplies`. */
  ghost predicate MeasureIo(name: string, codec: Codec, i: nat, s: DevState, ok: bool, t: DevState)
    requires i <= |MeasureCommands| && s.port.Some?
  {
    var R := MeasureReplies(codec, i, s.port.value.input);
    IoOf(codec, MeasureCommands[i..i + |R|], R, s, ok, t)
  }

  /** What a run that wrote `W` and read `R` records: one log record per
      non-empty reply, in order, and the status `MeasureStatus` derives from
      the replies. */
  ghost predicate RecordOf(name: string, codec: Codec, W: seq<string>, R: seq<ReadOutcome>, s: DevState, t: DevState)
    requires |W| == |R|
  {
    && t.log == s.log + TranscriptEntries(name, codec, W, R)
    && t.status == MeasureStatus(codec, s.status, R)
  }

  /** What the measurement loop from its `i`-th command on records. */
  ghost predicate MeasureRecord(name: string, codec: Codec, i: nat, s: DevState, t: DevState)
    requires i <= |MeasureCommands| && s.port.Some?
  {
    var R := MeasureReplies(codec, i, s.port.value.input);
    RecordOf(name, codec, MeasureCommands[i..i + |R|], R, s, t)
  }

  ghost predicate MeasureEffect(name: string, codec: Codec, i: nat, s: DevState, ok: bool, t: DevState)
    requires i <= |MeasureCommands| && s.port.Some?
  {
    MeasureIo(name, codec, i, s, ok, t) && MeasureRecord(name, codec, i, s, t)
  }

  lemma MeasureEffectDone(name: string, codec: Codec, s: DevState)
    requires s.port.Some?
    ensures MeasureEffect(name, codec, |MeasureCommands|, s, false, s)
  {
    var p := s.port.value;
    assert MeasureReplies(codec, |MeasureCommands|, p.input) == [];
    assert MeasureCommands[|MeasureCommands|..|MeasureCommands|] == [];
    assert Drop(p.input, 0) == p.input && p.written + [] == p.written && p.received + [] == p.received;
    assert p.(input := p.input, written := p.written, received := p.received) == p;
  }

  lemma MeasureEffectStop(name: string, codec: Codec, i: nat, s: DevState)
    requires i < |MeasureCommands| && s.port.Some?
    requires !Skippable(codec, Peek(s.port.value.input, 0))
    ensures var a := Attempt(name, codec, MeasureCommands[i], s);
      MeasureEffect(name, codec, i, s, a.0.Decoded?, a.1)
  {
    var p, cmd, r := s.port.value, MeasureCommands[i], Peek(s.port.value.input, 0);
    assert MeasureReplies(codec, i, p.input) == [r];
    assert MeasureCommands[i..i + 1] == [cmd];
    assert [r][1..] == [] && [cmd][1..] == [];
    assert TranscriptEntries(name, codec, [cmd], [r]) == ReplyEntries(name, codec, cmd, MeasureFaultTag, r);
  }

  /** An empty or undecodable reply followed by the replies `R` leaves the
      status that `R` alone leaves after that reply's own status. */
  lemma MeasureStatusSkip(codec: Codec, st: Status, r: ReadOutcome, R: seq<ReadOutcome>)
    requires Skippable(codec, r)
    ensures MeasureStatus(codec, st, [r] + R) == MeasureStatus(codec, ReplyStatus(st, Classify(codec, r)), R)
  {
    var R' := [r] + R;
    assert R'[1..] == R;
    if R != [] {
      assert R'[|R'| - 1] == R[|R| - 1];
    }
  }

  /** The replies read from the `i`-th command on, when the first reply is
      empty or undecodable: that reply, then those read from the next. */
  lemma MeasureRepliesSkip(codec: Codec, i: nat, input: seq<ReadOutcome>)
    requires i < |MeasureCommands| && Skippable(codec, Peek(input, 0))
    ensures MeasureReplies(codec, i, input) == [Peek(input, 0)] + MeasureReplies(codec, i + 1, Drop(input, 1))
  {
  }

  /** `u` is the state after one empty or undecodable reply `r` to `cmd`. */
  ghost predicate SkipStep(name: string, codec: Codec, cmd: string, r: ReadOutcome, s: DevState, u: DevState)
    requires s.port.Some?
  {
    var p := s.port.value;
    && u.port == Some(p.(input := Drop(p.input, 1), written := p.written + [cmd], received := p.received + [r]))
    && u.lastResult == s.lastResult
    && u.log == s.log + ReplyEntries(name, codec, cmd, MeasureFaultTag, r)
    && u.status == ReplyStatus(s.status, Classify(codec, r))
  }

  lemma AttemptSkip(name: string, codec: Codec, i: nat, s: DevState)
    requires i < |MeasureCommands| && s.port.Some?
    requires Skippable(codec, Peek(s.port.value.input, 0))
    ensures SkipStep(name, codec, MeasureCommands[i], Peek(s.port.value.input, 0), s, Attempt(name, codec, MeasureCommands[i], s).1)
  {
  }

  /** One exchange followed by several composes into one longer exchange. */
  lemma PortCompose(p: PortState, cmd: string, r: ReadOutcome, W2: seq<string>, R2: seq<ReadOutcome>)
    ensures var p1 := p.(input := Drop(p.input, 1), written := p.written + [cmd], received := p.received + [r]);
      p1.(input := Drop(p1.input, |R2|), written := p1.written + W2, received := p1.received + R2)
      == p.(input := Drop(p.input, 1 + |R2|), written := p.written + ([cmd] + W2), received := p.received + ([r] + R2))
  {
    DropDrop(p.input, 1, |R2|);
    assert (p.written + [cmd]) + W2 == p.written + ([cmd] + W2);
    assert (p.received + [r]) + R2 == p.received + ([r] + R2);
  }

  lemma CommandsCons(i: nat, n: nat)
    requires i + 1 + n <= |MeasureCommands|
    ensures MeasureCommands[i..i + 1 + n] == [MeasureCommands[i]] + MeasureCommands[i + 1..i + 1 + n]
  {
  }

  lemma TranscriptCons(name: string, codec: Codec, cmd: string, r: ReadOutcome, W2: seq<string>, R2: seq<ReadOutcome>)
    requires |W2| == |R2|
    ensures TranscriptEntries(name, codec, [cmd] + W2, [r] + R2)
      == ReplyEntries(name, codec, cmd, MeasureFaultTag, r) + TranscriptEntries(name, codec, W2, R2)
  {
    assert ([cmd] + W2)[1..] == W2 && ([r] + R2)[1..] == R2;
  }

  /** An exchange with an empty or undecodable reply followed by a further
      run composes into one run. */
  lemma IoCons(codec: Codec, cmd: string, r: ReadOutcome, W2: seq<string>, R2: seq<ReadOutcome>,
               s: DevState, u: DevState, ok: bool, t: DevState)
    requires s.port.Some? && u.port.Some? && Skippable(codec, r)
    requires r == Peek(s.port.value.input, 0)
    requires var p := s.port.value;
      u.port == Some(p.(input := Drop(p.input, 1), written := p.written + [cmd], received := p.received + [r]))
    requires u.lastResult == s.lastResult
    requires IoOf(codec, W2, R2, u, ok, t)
    ensures IoOf(codec, [cmd] + W2, [r] + R2, s, ok, t)
  {
    PortCompose(s.port.value, cmd, r, W2, R2);
    if R2 != [] {
      assert ([r] + R2)[|R2|] == R2[|R2| - 1];
    }
  }

  lemma MeasureIoSkip(name: string, codec: Codec, i: nat, s: DevState, u: DevState, ok: bool, t: DevState)
    requires i < |MeasureCommands| && s.port.Some?
    requires Skippable(codec, Peek(s.port.value.input, 0))
    requires SkipStep(name, codec, MeasureCommands[i], Peek(s.port.value.input, 0), s, u)
    requires MeasureIo(name, codec, i + 1, u, ok, t)
    ensures MeasureIo(name, codec, i, s, ok, t)
  {
    var p, cmd, r := s.port.value, MeasureCommands[i], Peek(s.port.value.input, 0);
    var R2 := MeasureReplies(codec, i + 1, Drop(p.input, 1));
    MeasureRepliesSkip(codec, i, p.input);
    CommandsCons(i, |R2|);
    IoCons(codec, cmd, r, MeasureCommands[i + 1..i + 1 + |R2|], R2, s, u, ok, t);
  }

  /** Records of an empty or undecodable reply followed by those of a
      further run compose into the records of the whole run. */
  lemma RecordCons(name: string, codec: Codec, cmd: string, r: ReadOutcome, W2: seq<string>, R2: seq<ReadOutcome>,
                   s: DevState, u: DevState, t: DevState)
    requires |W2| == |R2| && Skippable(codec, r)
    requires u.log == s.log + ReplyEntries(name, codec, cmd, MeasureFaultTag, r)
    requires u.status == ReplyStatus(s.status, Classify(codec, r))
    requires RecordOf(name, codec, W2, R2, u, t)
    ensures RecordOf(name, codec, [cmd] + W2, [r] + R2, s, t)
  {
    TranscriptCons(name, codec, cmd, r, W2, R2);
    MeasureStatusSkip(codec, s.status, r, R2);
  }

  lemma MeasureRecordSkip(name: string, codec: Codec, i: nat, s: DevState, u: DevState, t: DevState)
    requires i < |MeasureCommands| && s.port.Some?
    requires Skippable(codec, Peek(s.port.value.input, 0))
    requires SkipStep(name, codec, MeasureCommands[i], Peek(s.port.value.input, 0), s, u)
    requires MeasureRecord(name, codec, i + 1, u, t)
    ensures MeasureRecord(name, codec, i, s, t)
  {
    var p, cmd, r := s.port.value, MeasureCommands[i], Peek(s.port.value.input, 0);
    var R2 := MeasureReplies(codec, i + 1, Drop(p.input, 1));
    MeasureRepliesSkip(codec, i, p.input);
    CommandsCons(i, |R2|);
    RecordCons(name, codec, cmd, r, MeasureCommands[i + 1..i + 1 + |R2|], R2, s, u, t);
  }

  lemma MeasureEffectSkip(name: string, codec: Codec, i: nat, s: DevState, u: DevState, ok: bool, t: DevState)
    requires i < |MeasureCommands| && s.port.Some?
    requires Skippable(codec, Peek(s.port.value.input, 0))
    requires SkipStep(name, codec, MeasureCommands[i], Peek(s.port.value.input, 0), s, u)
    requires MeasureEffect(name, codec, i + 1, u, ok, t)
    ensures MeasureEffect(name, codec, i, s, ok, t)
  {
    MeasureIoSkip(name, codec, i, s, u, ok, t);
    MeasureRecordSkip(name, codec, i, s, u, t);
  }

  /** One empty or undecodable reply followed by the rest of the loop. */
  lemma MeasureEffectAttempt(name: string, codec: Codec, i: nat, s: DevState, ok: bool, t: DevState)
    requires i < |MeasureCommands| && s.port.Some?
    requires Skippable(codec, Peek(s.port.value.input, 0))
    requires MeasureEffect(name, codec, i + 1, Attempt(name, codec, MeasureCommands[i], s).1, ok, t)
    ensures MeasureEffect(name, codec, i, s, ok, t)
  {
    AttemptSkip(name, codec, i, s);
    MeasureEffectSkip(name, codec, i, s, Attempt(name, codec, MeasureCommands[i], s).1, ok, t);
  }

  /** The measurement loop from its `i`-th command on has `MeasureEffect`. */
  lemma {:induction false} MeasureFromSpec(name: string, codec: Codec, i: nat, s: DevState)
    requires i <= |MeasureCommands| && s.port.Some?
    ensures var res := MeasureFrom(name, codec, i, s); MeasureEffect(name, codec, i, s, res.0, res.1)
    decreases |MeasureCommands| - i
  {
    var res := MeasureFrom(name, codec, i, s);
    if i == |MeasureCommands| {
      assert res == (false, s);
      MeasureEffectDone(name, codec, s);
    } else {
      var a := Attempt(name, codec, MeasureCommands[i], s);
      if a.0.Silent? || a.0.Garbled? {
        assert res == MeasureFrom(name, codec, i + 1, a.1);
        MeasureFromSpec(name, codec, i + 1, a.1);
        MeasureEffectAttempt(name, codec, i, s, res.0, res.1);
      } else {
        assert res == (a.0.Decoded?, a.1);
        MeasureEffectStop(name, codec, i, s);
      }
    }
  }

  /** Replies none of which `json.loads` rejected count no decode error. */
  lemma {:induction false} CountGarbledNone(codec: Codec, R: seq<ReadOutcome>)
    requires forall j :: 0 <= j < |R| ==> !Classify(codec, R[j]).Garbled?
    ensures CountGarbled(codec, R) == 0
  {
    if R != [] {
      assert forall j :: 0 <= j < |R[1..]| ==> R[1..][j] == R[j + 1];
      CountGarbledNone(codec, R[1..]);
    }
  }

  /** No reply was rejected exactly when there is no last rejected line. */
  lemma {:induction false} LastGarbledNone(codec: Codec, R: seq<ReadOutcome>)
    ensures LastGarbled(codec, R).None? <==> CountGarbled(codec, R) == 0
  {
    if R != [] {
      LastGarbledNone(codec, R[1..]);
    }
  }

  /** The records logged for replies that were all empty or undecodable:
      one decode error per undecodable reply, and no result among them. */
  lemma {:induction false} TranscriptSkipped(name: string, codec: Codec, W: seq<string>, R: seq<ReadOutcome>)
    requires |W| == |R|
    requires forall j :: 0 <= j < |R| ==> Skippable(codec, R[j])
    ensures |TranscriptEntries(name, codec, W, R)| == CountGarbled(codec, R)
    ensures forall e :: e in TranscriptEntries(name, codec, W, R) ==> e.result == None && e.error.Some?
  {
    if R != [] {
      assert forall j :: 0 <= j < |R[1..]| ==> Skippable(codec, R[1..][j]);
      TranscriptSkipped(name, codec, W[1..], R[1..]);
    }
  }

  /** The records for one more command and reply come after the others. */
  lemma {:induction false} TranscriptSnoc(name: string, codec: Codec, W: seq<string>, R: seq<ReadOutcome>, w: string, r: ReadOutcome)
    requires |W| == |R|
    ensures TranscriptEntries(name, codec, W + [w], R + [r])
      == TranscriptEntries(name, codec, W, R) + ReplyEntries(name, codec, w, MeasureFaultTag, r)
  {
    if R == [] {
      assert W + [w] == [w] && R + [r] == [r];
      assert [w][1..] == [] && [r][1..] == [];
    } else {
      assert (W + [w])[1..] == W[1..] + [w] && (R + [r])[1..] == R[1..] + [r];
      TranscriptSnoc(name, codec, W[1..], R[1..], w, r);
    }
  }

  /** One pass of the measurement loop, then the rest of it or its end. */
  lemma MeasureFromUnfold(name: string, codec: Codec, i: nat, s: DevState)
    requires i <= |MeasureCommands| && s.port.Some?
    ensures i == |MeasureCommands| ==> MeasureFrom(name, codec, i, s) == (false, s)
    ensures i < |MeasureCommands| ==>
      var a := Attempt(name, codec, MeasureCommands[i], s);
      MeasureFrom(name, codec, i, s) == if a.0.Silent? || a.0.Garbled? then MeasureFrom(name, codec, i + 1, a.1) else (a.0.Decoded?, a.1)
  {
  }

  /** `get_measurement` on an open port writes `S`, `SI`, `si` in turn,
      reading one reply after each (see `MeasureRepliesShape`), and stops
      after the first reply that is neither empty nor undecodable; what it
      leaves behind is `MeasureEffect`. */
  lemma MeasureSpec(name: string, codec: Codec, s: DevState)
    requires PortOpen(s)
    ensures var res := Measure(name, codec, s); MeasureEffect(name, codec, 0, s, res.0, res.1)
  {
    MeasureFromSpec(name, codec, 0, s);
  }

  /** The records for a non-empty run: those of all replies but the last,
      then those of the last. */
  lemma TranscriptSplit(name: string, codec: Codec, W: seq<string>, R: seq<ReadOutcome>)
    requires |W| == |R| && R != []
    ensures var k := |R| - 1;
      TranscriptEntries(name, codec, W, R)
        == TranscriptEntries(name, codec, W[..k], R[..k]) + ReplyEntries(name, codec, W[k], MeasureFaultTag, R[k])
  {
    var k := |R| - 1;
    assert W[..k] + [W[k]] == W;
    assert R[..k] + [R[k]] == R;
    TranscriptSnoc(name, codec, W[..k], R[..k], W[k], R[k]);
  }

  /** The log a measurement leaves: the records of the replies before the
      last one, which are decode errors only, one per undecodable reply,
      then the records of the last reply. */
  lemma MeasureLogSplit(name: string, codec: Codec, s: DevState, ok: bool, t: DevState)
    requires PortOpen(s) && MeasureEffect(name, codec, 0, s, ok, t)
    ensures var R := MeasureReplies(codec, 0, s.port.value.input);
      var k := |R| - 1;
      var E := TranscriptEntries(name, codec, MeasureCommands[..k], R[..k]);
      && 0 <= k < |MeasureCommands|
      && t.log == s.log + E + ReplyEntries(name, codec, MeasureCommands[k], MeasureFaultTag, R[k])
      && |E| == CountGarbled(codec, R[..k])
      && (forall e :: e in E ==> e.result == None && e.error.Some?)
  {
    var R := MeasureReplies(codec, 0, s.port.value.input);
    MeasureRepliesShape(codec, 0, s.port.value.input);
    var k := |R| - 1;
    var W := MeasureCommands[0..|R|];
    TranscriptSplit(name, codec, W, R);
    assert W[..k] == MeasureCommands[..k];
    assert forall j :: 0 <= j < |R[..k]| ==> Skippable(codec, R[..k][j]);
    TranscriptSkipped(name, codec, MeasureCommands[..k], R[..k]);
  }

  /** A measurement succeeds exactly when its last reply decodes: the decoded
      value becomes the last result, the status is "measurement ok", and
      after the decode errors of the earlier replies exactly one record is
      logged, holding the value under the command that produced it. */
  lemma MeasureSuccess(name: string, codec: Codec, s: DevState, ok: bool, t: DevState)
    requires PortOpen(s) && MeasureEffect(name, codec, 0, s, ok, t)
    ensures var R := MeasureReplies(codec, 0, s.port.value.input);
      var k := |R| - 1;
      && 0 <= k
      && (ok <==> Classify(codec, R[k]).Decoded?)
      && (ok ==>
            var j := Classify(codec, R[k]).value;
            && t.lastResult == Some(j)
            && t.status == MeasurementOk
            && t.log == s.log + TranscriptEntries(name, codec, MeasureCommands[..k], R[..k]) + [SuccessEntry(name, MeasureCommands[k], codec, j)])
  {
    MeasureLogSplit(name, codec, s, ok, t);
  }

  /** When the port raises during a measurement, the measurement fails, the
      last result is kept, the status carries the message, and after the
      decode errors of the earlier replies exactly one record is logged,
      holding the message under `S/SI`. */
  lemma MeasureFault(name: string, codec: Codec, s: DevState, ok: bool, t: DevState)
    requires PortOpen(s) && MeasureEffect(name, codec, 0, s, ok, t)
    ensures var R := MeasureReplies(codec, 0, s.port.value.input);
      var k := |R| - 1;
      && 0 <= k
      && (R[k].Fault? ==>
            && !ok
            && t.lastResult == s.lastResult
            && t.status == Error(R[k].msg)
            && t.log == s.log + TranscriptEntries(name, codec, MeasureCommands[..k], R[..k]) + [FaultEntry(name, MeasureFaultTag, R[k].msg)])
  {
    MeasureLogSplit(name, codec, s, ok, t);
  }

  /** When no reply holds JSON and the port never raises, all three commands
      are tried, the measurement fails, the last result is kept, one decode
      error is logged per undecodable reply, and the status names the last
      undecodable line, or is left as it was when every reply was empty. */
  lemma MeasureExhausted(name: string, codec: Codec, s: DevState, ok: bool, t: DevState)
    requires PortOpen(s) && MeasureEffect(name, codec, 0, s, ok, t)
    ensures var R := MeasureReplies(codec, 0, s.port.value.input);
      && R != []
      && (Skippable(codec, R[|R| - 1]) ==>
            && |R| == |MeasureCommands|
            && !ok
            && t.lastResult == s.lastResult
            && |t.log| == |s.log| + CountGarbled(codec, R)
            && (forall e :: e in t.log[|s.log|..] ==> e.result == None)
            && t.status == match LastGarbled(codec, R)
                 case None => s.status
                 case Some(line) => BadJson(line))
      && ((forall j :: 0 <= j < |R| ==> Classify(codec, R[j]).Silent?) ==>
            !ok && t.log == s.log && t.status == s.status)
  {
    var R := MeasureReplies(codec, 0, s.port.value.input);
    MeasureRepliesShape(codec, 0, s.port.value.input);
    if Skippable(codec, R[|R| - 1]) {
      var W := MeasureCommands[0..|R|];
      TranscriptSkipped(name, codec, W, R);
      assert t.log[|s.log|..] == TranscriptEntries(name, codec, W, R);
      if forall j :: 0 <= j < |R| ==> Classify(codec, R[j]).Silent? {
        CountGarbledNone(codec, R);
        LastGarbledNone(codec, R);
        assert t.log == s.log + t.log[|s.log|..];
      }
    }
  }
}

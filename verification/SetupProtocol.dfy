/** The byte protocol by which a child reports, over a close-on-exec pipe, that it failed before its exec:
    nothing at all when the exec happened, or one eight-byte record. */
module SetupProtocol {
  import opened Kernel

  const RECORD := 8
  const STAGE_FIRST := 1
  const STAGE_EXECVE := 6
  const STAGE_LAST := 8

  datatype Outcome = Waiting | ExecSucceeded | SpawnFailed | Corrupt

  /** The caller-held state of a drain. `raw` is a fixed buffer of eight bytes. */
  datatype SetupState = SetupState(raw: seq<byte>, length: nat, outcome: Outcome, stage: nat, errno: int)

  const FRESH := SetupState([0, 0, 0, 0, 0, 0, 0, 0], 0, Waiting, 0, 0)

  function U32(b: seq<byte>): nat
    requires |b| == 4
  {
    b[0] as int + 0x100 * (b[1] as int + 0x100 * (b[2] as int + 0x100 * (b[3] as int)))
  }

  function I32(b: seq<byte>): int
    requires |b| == 4
  {
    if U32(b) < 0x8000_0000 then U32(b) else U32(b) - 0x1_0000_0000
  }

  function Bytes32(n: nat): (b: seq<byte>)
    requires n < 0x1_0000_0000
    ensures |b| == 4 && U32(b) == n
  {
    var q1 := n / 0x100;
    var q2 := q1 / 0x100;
    var q3 := q2 / 0x100;
    var b: seq<byte> := [n % 0x100, q1 % 0x100, q2 % 0x100, q3];
    assert b[2] as int + 0x100 * (b[3] as int) == q2;
    assert b[1] as int + 0x100 * q2 == q1;
    b
  }

  /** The record a child writes, little-endian, the error number in two's complement. */
  function Record(stage: nat, errno: int): (b: seq<byte>)
    requires stage < 0x1_0000_0000 && -0x8000_0000 <= errno < 0x8000_0000
    ensures |b| == RECORD
  {
    Bytes32(stage) + Bytes32(if errno >= 0 then errno else errno + 0x1_0000_0000)
  }

  datatype Report = Clean | Failed(stage: nat, errno: int) | Garbled

  /** What a complete byte string means, whatever pieces it arrived in. */
  function Classify(bytes: seq<byte>): Report {
    if bytes == [] then Clean
    else if |bytes| != RECORD then Garbled
    else if STAGE_FIRST <= U32(bytes[..4]) <= STAGE_LAST && I32(bytes[4..]) > 0 then
      Failed(U32(bytes[..4]), I32(bytes[4..]))
    else Garbled
  }

  /** What a state says once it is no longer waiting. */
  function Reported(s: SetupState): Report {
    match s.outcome
    case ExecSucceeded => Clean
    case SpawnFailed => Failed(s.stage, s.errno)
    case _ => Garbled
  }

  /** The judgement on a closed pipe: nothing is success, anything but a whole record is corrupt, and a
      record is only believed if its stage is a real one and its error number positive. */
  function Judged(s: SetupState): (r: SetupState)
    requires |s.raw| == RECORD && s.length <= RECORD
    ensures r.outcome != Waiting && r.raw == s.raw && r.length == s.length
    ensures Reported(r) == Classify(s.raw[..s.length])
  {
    if s.length == 0 then s.(outcome := ExecSucceeded)
    else if s.length != RECORD then s.(outcome := Corrupt)
    else
      assert s.raw[..s.length] == s.raw;
      var stage, errno := U32(s.raw[..4]), I32(s.raw[4..]);
      if stage < STAGE_FIRST || stage > STAGE_LAST || errno <= 0 then s.(outcome := Corrupt)
      else s.(stage := stage, errno := errno, outcome := SpawnFailed)
  }

  /** The value of four bytes, the least significant first. */
  function Weighed(b: seq<byte>, at: nat): nat
    requires at + 4 <= |b|
  {
    b[at] as int + 256 * b[at + 1] as int + 65536 * b[at + 2] as int + 16777216 * b[at + 3] as int
  }

  /** What a byte string means, byte by byte. Only eight bytes can be a failure: a stage between one and eight, then a
      positive error number, its sign in the last byte. */
  lemma ClassifyByTheBytes(bytes: seq<byte>)
    ensures Classify(bytes) == Clean <==> |bytes| == 0
    ensures Classify(bytes).Failed? <==>
              |bytes| == 8 && 1 <= Weighed(bytes, 0) <= 8 && bytes[7] as int < 128 && Weighed(bytes, 4) > 0
    ensures Classify(bytes).Failed? ==> Classify(bytes) == Failed(Weighed(bytes, 0), Weighed(bytes, 4))
  {
    if |bytes| == 8 {
      WeighedPart(bytes, 0);
      WeighedPart(bytes, 4);
      assert bytes[4..8] == bytes[4..];
      Negative(bytes[4..]);
      hide U32, Weighed;
    }
  }

  lemma Negative(b: seq<byte>)
    requires |b| == 4
    ensures U32(b) < 0x8000_0000 <==> b[3] as int < 128
  {
  }

  lemma WeighedPart(bytes: seq<byte>, at: nat)
    requires at + 4 <= |bytes|
    ensures U32(bytes[at..at + 4]) == Weighed(bytes, at)
  {
  }

  /** The bytes a child writes. */
  lemma RecordByTheBytes(stage: nat, errno: int)
    requires stage < 0x1_0000_0000 && -0x8000_0000 <= errno < 0x8000_0000
    ensures |Record(stage, errno)| == 8 && Weighed(Record(stage, errno), 0) == stage
    ensures Weighed(Record(stage, errno), 4) == if errno >= 0 then errno else 4294967296 + errno
  {
    var r, number := Record(stage, errno), if errno >= 0 then errno else errno + 0x1_0000_0000;
    WeighedPart(r, 0);
    WeighedPart(r, 4);
    hide U32, Weighed;
    assert r[0..4] == Bytes32(stage) && r[4..8] == Bytes32(number);
  }

  /** A report read back is the report written, exactly when its stage is a real one and its error number
      positive. */
  lemma RecordRoundTrip(stage: nat, errno: int)
    requires stage < 0x1_0000_0000 && -0x8000_0000 <= errno < 0x8000_0000
    ensures Classify(Record(stage, errno)) == Failed(stage, errno)
       <==> STAGE_FIRST <= stage <= STAGE_LAST && errno > 0
    ensures !(STAGE_FIRST <= stage <= STAGE_LAST && errno > 0) ==> Classify(Record(stage, errno)) == Garbled
  {
    var r := Record(stage, errno);
    assert r[..4] == Bytes32(stage);
    assert r[4..] == Bytes32(if errno >= 0 then errno else errno + 0x1_0000_0000);
  }

  /** The only byte string that means a given failure is the record of that failure. */
  lemma FailureHasOneRecord(bytes: seq<byte>)
    requires Classify(bytes).Failed?
    ensures bytes == Record(Classify(bytes).stage, Classify(bytes).errno)
  {
    var stage, errno := Classify(bytes).stage, Classify(bytes).errno;
    BytesUnique(bytes[..4], Bytes32(stage));
    BytesUnique(bytes[4..], Bytes32(errno));
    assert bytes == bytes[..4] + bytes[4..];
  }

  lemma BytesUnique(a: seq<byte>, b: seq<byte>)
    requires |a| == |b| == 4 && U32(a) == U32(b)
    ensures a == b
  {
    var p, q := a[1] as int + 0x100 * (a[2] as int + 0x100 * (a[3] as int)),
                b[1] as int + 0x100 * (b[2] as int + 0x100 * (b[3] as int));
    assert p == q;
    assert a[2] as int + 0x100 * (a[3] as int) == b[2] as int + 0x100 * (b[3] as int);
  }

  // ----- Draining -----

  /** One drain seen from outside: the state, the bytes still to come and whether the read end is open. */
  datatype Line = Line(state: SetupState, wire: seq<byte>, open: bool)

  ghost predicate WellFormed(l: Line) {
    |l.state.raw| == RECORD && l.state.length <= RECORD
  }

  /** Everything the child ever wrote, from what was received and what is still to come. */
  ghost function Sent(l: Line): seq<byte>
    requires WellFormed(l)
  {
    l.state.raw[..l.state.length] + l.wire
  }

  /** Moving bytes from the pipe into the record changes nothing about what was sent. */
  lemma ReceivedKeepsSent(l: Line, bytes: seq<byte>, l': Line)
    requires WellFormed(l) && l.wire == bytes + l'.wire && l.state.length + |bytes| <= RECORD
    requires l'.state.length == l.state.length + |bytes|
    requires l'.state.raw == l.state.raw[..l.state.length] + bytes + l.state.raw[l'.state.length..]
    ensures WellFormed(l') && Sent(l') == Sent(l)
  {
    assert l'.state.raw[..l'.state.length] == l.state.raw[..l.state.length] + bytes;
  }

  /** What one drain call does. It may stop anywhere short of the end; at the end it closes the pipe, and
      only if that close succeeds does it judge what it has received. */
  ghost predicate Drains(l: Line, l': Line, rc: int)
    requires WellFormed(l)
  {
    && WellFormed(l')
    && (rc == 0 || rc == -1)
    && (l'.open ==> l.open)
    && (if l.state.outcome != Waiting then
          l' == l && rc == 0
        else if !l.open then
          && rc == 0 && l'.wire == l.wire
          && l'.state == l.state.(outcome := if l.state.length == 0 then ExecSucceeded else Corrupt)
        else if l'.state.outcome == Waiting then
          && Sent(l') == Sent(l)
          && l'.state.stage == l.state.stage && l'.state.errno == l.state.errno
          && (!l'.open ==> rc == -1 && l'.wire == [])
        else
          && rc == 0
          && Reported(l'.state) == Classify(Sent(l))
          && (!l'.open ==> l'.wire == []))
  }

  /** A drain that stops short of the end. */
  lemma StoppedDrains(l: Line, l': Line, rc: int)
    requires WellFormed(l) && WellFormed(l') && l.open && l'.open && l.state.outcome == Waiting
    requires Sent(l') == Sent(l) && l'.state == l.state.(raw := l'.state.raw, length := l'.state.length)
    requires rc == 0 || rc == -1
    ensures Drains(l, l', rc)
  {
  }

  /** A drain that receives more than a record. */
  lemma OverfullDrains(l: Line, l': Line)
    requires WellFormed(l) && WellFormed(l') && l.open && l'.open && l.state.outcome == Waiting
    requires |Sent(l)| > RECORD && l'.state.outcome == Corrupt
    ensures Drains(l, l', 0)
  {
  }

  /** A drain that reaches the end: `s` is what was received, judged only if the close succeeded. */
  lemma EndedDrains(l: Line, s: SetupState, l': Line, rc: int)
    requires WellFormed(l) && WellFormed(Line(s, [], true)) && l.open && l.state.outcome == Waiting
    requires Sent(Line(s, [], true)) == Sent(l) && s == l.state.(raw := s.raw, length := s.length)
    requires !l'.open && l'.wire == [] && (rc == 0 || rc == -1)
    requires l'.state == if rc == 0 then Judged(s) else s
    ensures Drains(l, l', rc)
  {
    assert Sent(l) == s.raw[..s.length];
    if rc == 0 { assert Reported(l'.state) == Classify(s.raw[..s.length]); }
  }

  ghost predicate DrainRun(lines: seq<Line>, rcs: seq<int>) {
    && |lines| == |rcs| + 1
    && WellFormed(lines[0])
    && forall i | 0 <= i < |rcs| :: WellFormed(lines[i]) && Drains(lines[i], lines[i + 1], rcs[i])
  }

  /** The close at end of file failed: everything has been received, nothing has been judged. */
  ghost predicate Unjudged(l: Line) {
    WellFormed(l) && l.state.outcome == Waiting && !l.open && l.wire == []
  }

  lemma {:induction false} NeverReopens(lines: seq<Line>, rcs: seq<int>, i: nat, j: nat)
    requires DrainRun(lines, rcs) && i <= j < |lines| && lines[j].open
    ensures lines[i].open
    decreases j - i
  {
    if i < j {
      assert Drains(lines[j - 1], lines[j], rcs[j - 1]);
      NeverReopens(lines, rcs, i, j - 1);
    }
  }

  /** However reads are split, stalled and repeated, a verdict depends on the byte string alone: it is
      what the string means, except exactly when the string is a failure record whose close at end of file
      failed. Then the next call says Corrupt. */
  lemma {:induction false} VerdictIsTheByteString(lines: seq<Line>, rcs: seq<int>, sent: seq<byte>)
    requires DrainRun(lines, rcs)
    requires lines[0] == Line(FRESH, sent, true)
    ensures var last := lines[|lines| - 1];
            && WellFormed(last)
            && (last.state.outcome == Waiting ==> Sent(last) == sent && (!last.open ==> Unjudged(last)))
            && (last.state.outcome != Waiting ==>
                  (Reported(last.state) == Classify(sent)
                   <==> !(Classify(sent).Failed? && exists i | 0 <= i < |lines| - 1 :: Unjudged(lines[i]))))
            && (last.state.outcome != Waiting && Reported(last.state) != Classify(sent) ==>
                  last.state.outcome == Corrupt)
    decreases |lines|
  {
    if |rcs| == 0 {
      assert FRESH.raw[..0] == [];
    } else {
      var n := |rcs| - 1;
      var before, after := lines[n], lines[n + 1];
      VerdictIsTheByteString(lines[..n + 1], rcs[..n], sent);
      assert lines[..n + 1][n] == before;
      assert Drains(before, after, rcs[n]);
      assert forall i | 0 <= i < n :: lines[..n + 1][i] == lines[i];
      if before.state.outcome == Waiting {
        if before.open {
          forall i | 0 <= i < n + 1
            ensures !Unjudged(lines[i])
          {
            NeverReopens(lines, rcs, i, n);
          }
        } else {
          assert Unjudged(lines[n]);
          assert Sent(before) == before.state.raw[..before.state.length];
        }
      }
    }
  }

  /** Once judged, always judged the same. */
  lemma {:induction false} VerdictIsFinal(lines: seq<Line>, rcs: seq<int>, i: nat, j: nat)
    requires DrainRun(lines, rcs) && i <= j < |lines|
    requires lines[i].state.outcome != Waiting
    ensures lines[j] == lines[i]
    decreases j - i
  {
    if i < j {
      assert Drains(lines[i], lines[i + 1], rcs[i]);
      VerdictIsFinal(lines, rcs, i + 1, j);
    }
  }

  /** The exception is real: a well-formed failure record, received whole, is called corrupt when the close
      behind it fails and the caller asks again. */
  lemma FailedCloseLosesTheRecord(stage: nat, errno: int)
    requires STAGE_FIRST <= stage <= STAGE_LAST && 0 < errno < 0x8000_0000
    ensures exists lines: seq<Line>, rcs: seq<int> ::
              && DrainRun(lines, rcs)
              && lines[0] == Line(FRESH, Record(stage, errno), true)
              && Reported(lines[|lines| - 1].state) == Garbled
              && lines[|lines| - 1].state.outcome == Corrupt
  {
    var sent := Record(stage, errno);
    var received := Line(FRESH.(raw := sent, length := RECORD), [], false);
    var judged := received.(state := received.state.(outcome := Corrupt));
    var lines, rcs := [Line(FRESH, sent, true), received, judged], [-1, 0];
    assert Sent(lines[0]) == sent && Sent(received) == sent;
    assert Drains(lines[0], lines[1], rcs[0]);
    assert Drains(lines[1], lines[2], rcs[1]);
    assert DrainRun(lines, rcs);
  }
}

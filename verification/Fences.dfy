/** Reading a captured log the way GitHub does: `::stop-commands::T` turns workflow commands off until the exact
    line `::T::`. Logs are sequences of lines. */
module Fences {
  import opened Wrappers
  import opened TextLines

  const STOP := "::stop-commands::"
  const KINDS: seq<string> := ["error", "warning", "notice"]

  // ----- Lines -----

  /** The token a stop line carries. */
  function StopToken(line: string): Option<string> {
    if STOP < line && forall c | c in line[|STOP|..] :: !IsSpace(c) then Some(line[|STOP|..]) else None
  }

  function CloseLine(token: string): string { "::" + token + "::" }

  /** Text from the first colon on. */
  function FromColon(s: string): string {
    if s == [] || s[0] == ':' then s else FromColon(s[1..])
  }

  /** The rest of a line behind `::` and an annotation kind is well formed: properties, if any, hold no colon. */
  predicate Annotates(rest: string) {
    "::" <= rest || (" " <= rest && "::" <= FromColon(rest[1..]))
  }

  predicate Parses(line: string) {
    exists k | k in KINDS :: "::" + k <= line && Annotates(line[2 + |k|..])
  }

  /** Whatever GitHub would read as one of the annotation commands, well formed or not. */
  predicate Opens(line: string) {
    exists k | k in KINDS :: "::" + k <= line && (|line| == 2 + |k| || line[2 + |k|] in {' ', ':'})
  }

  /** A line that parses opens, so keeping what parses or opens keeps what opens. */
  lemma ParsedLinesOpen(line: string)
    requires Parses(line)
    ensures Opens(line)
  {
  }

  // ----- Scanning -----

  /** A closed fence. Its token is the one on its opening line. */
  datatype Fence = Fence(open: nat, close: nat)

  predicate Stops(lines: seq<string>, n: nat) {
    n < |lines| && StopToken(lines[n]).Some?
  }

  function Token(lines: seq<string>, open: nat): string {
    if Stops(lines, open) then StopToken(lines[open]).value else ""
  }

  /** Line n lifts the stop of line `open`. */
  predicate Lifts(lines: seq<string>, open: nat, n: nat) {
    n < |lines| && lines[n] == CloseLine(Token(lines, open))
  }

  /** What is in force before line n: commands run, or are stopped by the line given. */
  function StoppedAt(lines: seq<string>, n: nat): Option<nat>
    requires n <= |lines|
  {
    if n == 0 then None
    else
      match StoppedAt(lines, n - 1)
      case None => if Stops(lines, n - 1) then Some(n - 1) else None
      case Some(open) => if Lifts(lines, open, n - 1) then None else Some(open)
  }

  /** The fences closed before line n. */
  function FencesAt(lines: seq<string>, n: nat): seq<Fence>
    requires n <= |lines|
  {
    if n == 0 then []
    else
      With(FencesAt(lines, n - 1), ClosedBy(lines, n - 1))
  }

  function With(fences: seq<Fence>, f: Option<Fence>): seq<Fence> {
    if f.Some? then fences + [f.value] else fences
  }

  /** The fence line n closes, if any. */
  function ClosedBy(lines: seq<string>, n: nat): Option<Fence>
    requires n < |lines|
  {
    match StoppedAt(lines, n)
    case Some(open) => if Lifts(lines, open, n) then Some(Fence(open, n)) else None
    case None => None
  }

  function Fences(lines: seq<string>): seq<Fence> { FencesAt(lines, |lines|) }

  predicate Dangling(lines: seq<string>) { StoppedAt(lines, |lines|).Some? }

  method ScanFences(lines: seq<string>) returns (fences: seq<Fence>, dangling: bool)
    ensures fences == Fences(lines) && dangling == Dangling(lines)
  {
    fences := [];
    var active: Option<string>, start := None, -1;
    for idx := 0 to |lines|
      invariant fences == FencesAt(lines, idx)
      invariant active.None? <==> StoppedAt(lines, idx).None?
      invariant active.Some? ==>
                  start >= 0 && StoppedAt(lines, idx) == Some(start) && active.value == Token(lines, start)
    {
      var line := lines[idx];
      if active.None? {
        var token := StopToken(line);
        if token.Some? { active, start := token, idx; }
      } else if line == CloseLine(active.value) {
        fences := fences + [Fence(start, idx)];
        active, start := None, -1;
      }
    }
    dangling := active.Some?;
  }

  /** A stop still in force has been in force ever since its own line. */
  lemma {:induction false} StoppedSince(lines: seq<string>, n: nat, i: nat)
    requires n <= |lines| && StoppedAt(lines, n).Some?
    requires StoppedAt(lines, n).value < i <= n
    ensures StoppedAt(lines, i) == StoppedAt(lines, n)
    decreases n
  {
    if i < n {
      StoppedSince(lines, n - 1, i);
    }
  }

  lemma {:induction false} StopIsEarlier(lines: seq<string>, n: nat)
    requires n <= |lines| && StoppedAt(lines, n).Some?
    ensures StoppedAt(lines, n).value < n && Stops(lines, StoppedAt(lines, n).value)
  {
    if StoppedAt(lines, n - 1).Some? { StopIsEarlier(lines, n - 1); }
  }

  predicate Sealed(fences: seq<Fence>, idx: nat) {
    exists f | f in fences :: f.open < idx < f.close
  }

  /** The fences are the stops in force at the line that lifts them. */
  lemma {:induction false} FenceMeans(lines: seq<string>, n: nat, f: Fence)
    requires n <= |lines|
    ensures f in FencesAt(lines, n) <==>
            f.close < n && StoppedAt(lines, f.close) == Some(f.open) && Lifts(lines, f.open, f.close)
  {
    if n > 0 { FenceMeans(lines, n - 1, f); }
  }

  /** Line c lifts the stop in force at line idx. */
  ghost predicate LiftedAt(lines: seq<string>, idx: nat, c: nat) {
    && idx <= c < |lines|
    && StoppedAt(lines, idx).Some?
    && StoppedAt(lines, c) == StoppedAt(lines, idx)
    && Lifts(lines, StoppedAt(lines, idx).value, c)
  }

  /** Line idx is sealed exactly if commands are stopped there and the same stop is lifted further down. */
  lemma SealedMeans(lines: seq<string>, idx: nat)
    requires idx < |lines|
    ensures Sealed(Fences(lines), idx) <==> exists c: nat :: idx < c && LiftedAt(lines, idx, c)
  {
    hide StoppedAt, FencesAt, Lifts;
    if Sealed(Fences(lines), idx) {
      var f :| f in Fences(lines) && f.open < idx < f.close;
      FenceMeans(lines, |lines|, f);
      StoppedSince(lines, f.close, idx);
      assert LiftedAt(lines, idx, f.close);
    }
    if c: nat :| idx < c && LiftedAt(lines, idx, c) {
      var open := StoppedAt(lines, idx).value;
      StopIsEarlier(lines, idx);
      var f := Fence(open, c);
      FenceMeans(lines, |lines|, f);
      assert f in Fences(lines) && f.open < idx < f.close;
    }
  }

  // ----- The annotation tail -----

  /** The marked lines among the first n, in order. */
  function Select(lines: seq<string>, marks: seq<bool>, n: nat): seq<string>
    requires n <= |lines| == |marks|
  {
    if n == 0 then [] else Select(lines, marks, n - 1) + if marks[n - 1] then [lines[n - 1]] else []
  }

  /** The annotation lines that no fence seals. */
  function Unsealed(lines: seq<string>, fences: seq<Fence>): (marks: seq<bool>)
    ensures |marks| == |lines|
    ensures forall i: nat | i < |lines| :: marks[i] == (Opens(lines[i]) && !Sealed(fences, i))
  {
    seq(|lines|, i requires 0 <= i < |lines| => Opens(lines[i]) && !Sealed(fences, i))
  }

  /** The annotation lines at which commands run. */
  function Running(lines: seq<string>): (marks: seq<bool>)
    ensures |marks| == |lines|
    ensures forall i: nat | i < |lines| :: marks[i] == (Opens(lines[i]) && StoppedAt(lines, i).None?)
  {
    seq(|lines|, i requires 0 <= i < |lines| => Opens(lines[i]) && StoppedAt(lines, i).None?)
  }

  function Tail(lines: seq<string>, fences: seq<Fence>): seq<string> {
    Select(lines, Unsealed(lines, fences), |lines|)
  }

  /** What GitHub processes. */
  function Processed(lines: seq<string>): seq<string> {
    Select(lines, Running(lines), |lines|)
  }

  /** A larger selection is the same one only if it marks no more lines. */
  lemma {:induction false} SelectMore(lines: seq<string>, p: seq<bool>, q: seq<bool>, n: nat)
    requires n <= |lines| == |p| == |q| && forall i: nat | i < n && q[i] :: p[i]
    ensures |Select(lines, q, n)| <= |Select(lines, p, n)|
    ensures (forall i: nat | i < n :: p[i] == q[i]) ==> Select(lines, q, n) == Select(lines, p, n)
    ensures (exists i: nat | i < n :: p[i] != q[i]) ==> |Select(lines, q, n)| < |Select(lines, p, n)|
  {
    if n > 0 {
      SelectMore(lines, p, q, n - 1);
    }
  }

  method AnnotationTail(lines: seq<string>) returns (tail: seq<string>)
    ensures tail == Tail(lines, Fences(lines))
  {
    var fences, _ := ScanFences(lines);
    tail := [];
    hide FencesAt, Parses, Opens, Sealed;
    for idx := 0 to |lines|
      invariant tail == Select(lines, Unsealed(lines, fences), idx)
    {
      if !Parses(lines[idx]) && !Opens(lines[idx]) { continue; }
      if Parses(lines[idx]) { ParsedLinesOpen(lines[idx]); }
      if Sealed(fences, idx) { continue; }
      tail := tail + [lines[idx]];
    }
  }

  /** An annotation line that GitHub does not process and that is kept in the tail all the same: the line that
      lifts a stop, or any line behind a stop that is never lifted. */
  ghost predicate Surprise(lines: seq<string>, idx: nat)
    requires idx < |lines|
  {
    && Opens(lines[idx])
    && StoppedAt(lines, idx).Some?
    && (Lifts(lines, StoppedAt(lines, idx).value, idx) || StoppedAt(lines, |lines|) == StoppedAt(lines, idx))
  }

  /** A stop is in force until it is lifted. */
  lemma {:induction false} StopsOrLifts(lines: seq<string>, idx: nat, n: nat)
    requires idx <= n <= |lines| && StoppedAt(lines, idx).Some?
    ensures StoppedAt(lines, n) == StoppedAt(lines, idx) || exists c: nat :: c < n && LiftedAt(lines, idx, c)
  {
    if idx < n {
      StopsOrLifts(lines, idx, n - 1);
      if StoppedAt(lines, n - 1) == StoppedAt(lines, idx) && Lifts(lines, StoppedAt(lines, idx).value, n - 1) {
        assert LiftedAt(lines, idx, n - 1);
      }
    }
  }

  /** A stop lifted further down is neither lifted here nor in force at the end. */
  lemma LiftedLater(lines: seq<string>, idx: nat, c: nat)
    requires idx < c && LiftedAt(lines, idx, c)
    ensures !Lifts(lines, StoppedAt(lines, idx).value, idx)
    ensures StoppedAt(lines, |lines|) != StoppedAt(lines, idx)
  {
    StopIsEarlier(lines, idx);
    StoppedSince(lines, c, idx + 1);
    assert StoppedAt(lines, c + 1) == None;
    hide Lifts;
    if StoppedAt(lines, |lines|) == StoppedAt(lines, idx) {
      StoppedSince(lines, |lines|, c + 1);
    }
  }

  /** A line kept out of the tail is stopped; a stopped line is in the tail exactly if it is a surprise. */
  lemma KeptMeans(lines: seq<string>, idx: nat)
    requires idx < |lines| && Opens(lines[idx])
    ensures !Sealed(Fences(lines), idx) <==> StoppedAt(lines, idx).None? || Surprise(lines, idx)
  {
    SealedMeans(lines, idx);
    if StoppedAt(lines, idx).Some? {
      StopsOrLifts(lines, idx, |lines|);
      hide StoppedAt, Opens, Fences, Sealed, Lifts;
      if c: nat :| idx < c && LiftedAt(lines, idx, c) {
        LiftedLater(lines, idx, c);
      }
    }
  }

  /** The extracted tail is what GitHub processes exactly if there is no surprise. */
  lemma TailIsProcessedExactly(lines: seq<string>)
    ensures Tail(lines, Fences(lines)) == Processed(lines) <==> forall i | 0 <= i < |lines| :: !Surprise(lines, i)
  {
    var p, q := Unsealed(lines, Fences(lines)), Running(lines);
    forall i: nat | i < |lines|
      ensures q[i] ==> p[i]
      ensures p[i] == q[i] <==> !Surprise(lines, i)
    {
      if Opens(lines[i]) { KeptMeans(lines, i); }
    }
    hide Fences, Surprise, Opens, StoppedAt, Sealed, Select;
    SelectMore(lines, p, q, |lines|);
  }

  // ----- Accepted logs -----

  /** At least 128 bits in lower-case hexadecimal. */
  predicate Hex(token: string) {
    |token| >= 32 && forall c | c in token :: '0' <= c <= '9' || 'a' <= c <= 'f'
  }

  /** What the fencing check demands when it is not asked about a forged marker. */
  ghost predicate Accepted(lines: seq<string>, seeded: Option<string>, requireFence: bool) {
    && !Dangling(lines)
    && (requireFence ==> Fences(lines) != [])
    && (forall f | f in Fences(lines) :: Fit(Token(lines, f.open), seeded))
  }

  method CheckFencing(lines: seq<string>, seeded: Option<string>, requireFence: bool) returns (accepted: bool)
    ensures accepted <==> Accepted(lines, seeded, requireFence)
  {
    var fences, dangling := ScanFences(lines);
    accepted := !dangling && (!requireFence || fences != []);
    for i := 0 to |fences|
      invariant accepted <==>
        && !Dangling(lines) && (requireFence ==> Fences(lines) != [])
        && forall j | 0 <= j < i :: Fit(Token(lines, fences[j].open), seeded)
    {
      if !Fit(Token(lines, fences[i].open), seeded) { accepted := false; }
    }
  }

  predicate Fit(token: string, seeded: Option<string>) {
    Hex(token) && seeded != Some(token)
  }

  /** Which lines stop commands, by their characters, and which line lifts such a stop. */
  lemma StopsMeans(lines: seq<string>, open: nat, n: nat)
    requires open < |lines| && n < |lines|
    ensures Stops(lines, open) <==>
              && |lines[open]| > 17 && lines[open][..17] == "::stop-commands::"
              && forall i | 17 <= i < |lines[open]| :: !IsSpace(lines[open][i])
    ensures Stops(lines, open) ==> (Lifts(lines, open, n) <==> lines[n] == "::" + lines[open][17..] + "::")
  {
    var line := lines[open];
    assert STOP == "::stop-commands::" && |STOP| == 17;
    if |line| > 17 {
      assert STOP < line <==> line[..17] == STOP;
      assert forall i | 17 <= i < |line| :: line[i] == line[17..][i - 17];
      assert forall c :: c in line[17..] <==> exists i :: 17 <= i < |line| && line[i] == c;
    }
  }

  /** The line is an annotation command of kind k as far as its first character behind the kind tells. */
  predicate Announces(line: string, k: string, rest: string) {
    line == "::" + k + rest && (rest == "" || rest[0] == ' ' || rest[0] == ':')
  }

  /** Which lines look like an annotation command. */
  lemma OpensMeans(line: string)
    ensures Opens(line) <==>
              exists rest: string :: Announces(line, "error", rest) || Announces(line, "warning", rest)
                                     || Announces(line, "notice", rest)
  {
    hide Announces;
    assert KINDS[0] == "error" && KINDS[1] == "warning" && KINDS[2] == "notice";
    OpensAs(line, "error");
    OpensAs(line, "warning");
    OpensAs(line, "notice");
  }

  lemma OpensAs(line: string, k: string)
    ensures "::" + k <= line && (|line| == 2 + |k| || line[2 + |k|] in {' ', ':'}) <==>
              exists rest: string :: Announces(line, k, rest)
  {
    if "::" + k <= line && (|line| == 2 + |k| || line[2 + |k|] in {' ', ':'}) {
      assert line == "::" + k + line[2 + |k|..];
      assert Announces(line, k, line[2 + |k|..]);
    }
  }

  /** What an accepted log looks like: every stop is lifted, and the tokens have at least 32 characters, all of them
      lower-case hexadecimal digits, and are not the token that was seeded. */
  lemma AcceptedMeans(lines: seq<string>, seeded: Option<string>, requireFence: bool)
    ensures Accepted(lines, seeded, requireFence) <==>
              && !Dangling(lines) && !(requireFence && Fences(lines) == [])
              && forall f | f in Fences(lines) :: f.open < |lines| && Unguessable(lines[f.open], seeded)
  {
    hide FencesAt, StoppedAt;
    forall f | f in Fences(lines)
      ensures f.open < |lines| && (Fit(Token(lines, f.open), seeded) <==> Unguessable(lines[f.open], seeded))
    {
      FenceMeans(lines, |lines|, f);
      StopIsEarlier(lines, f.close);
      StopsMeans(lines, f.open, f.open);
      TokenDigits(lines[f.open][17..]);
    }
  }

  ghost predicate Unguessable(line: string, seeded: Option<string>) {
    && |line| >= 17 + 32 && (seeded.Some? ==> line != "::stop-commands::" + seeded.value)
    && forall i | 17 <= i < |line| :: line[i] in "0123456789abcdef"
  }

  lemma TokenDigits(token: string)
    ensures Hex(token) <==> |token| >= 32 && forall c | c in token :: c in "0123456789abcdef"
  {
    forall c: char
      ensures '0' <= c <= '9' || 'a' <= c <= 'f' <==> c in "0123456789abcdef"
    {
      assert c in "0123456789abcdef" <==> exists i :: 0 <= i < 16 && "0123456789abcdef"[i] == c;
    }
  }

  /** A line that lifts a hexadecimal token reads as no annotation. */
  lemma HexNeverOpens(token: string)
    requires Hex(token)
    ensures !Opens(CloseLine(token))
  {
    var line := CloseLine(token);
    assert token[0] in token && token[1] in token;
    assert line[2] == token[0] && line[3] == token[1];
    assert line[2] !in {'w', 'n'} && line[3] != 'r';
  }

  /** Of an accepted log the extracted tail is exactly what GitHub processes. */
  lemma AcceptedTailIsProcessed(lines: seq<string>, seeded: Option<string>, requireFence: bool)
    requires Accepted(lines, seeded, requireFence)
    ensures Tail(lines, Fences(lines)) == Processed(lines)
  {
    forall i: nat | i < |lines|
      ensures !Surprise(lines, i)
    {
      if StoppedAt(lines, i).Some? && Lifts(lines, StoppedAt(lines, i).value, i) {
        var open := StoppedAt(lines, i).value;
        var f := Fence(open, i);
        FenceMeans(lines, |lines|, f);
        HexNeverOpens(Token(lines, open));
      }
    }
    TailIsProcessedExactly(lines);
  }

  /** The check is needed: a log fenced with the token `error` keeps its closing line in the tail. */
  lemma TokenCanBeAnAnnotation()
    ensures exists lines: seq<string> :: !Dangling(lines) && Tail(lines, Fences(lines)) != Processed(lines)
  {
    var stop, close := STOP + "error", CloseLine("error");
    var lines := [stop, close];
    assert stop[|STOP|..] == "error";
    assert StopToken(stop) == Some("error");
    assert StoppedAt(lines, 1) == Some(0) && Lifts(lines, 0, 1);
    assert close == "::" + "error" + "::" && "::" + "error" <= close && close[7] == ':';
    assert "error" == KINDS[0] && "error" in KINDS;
    assert Opens(lines[1]);
    assert Surprise(lines, 1);
    TailIsProcessedExactly(lines);
  }

  // ----- Composition -----

  function Moved(f: Fence, offset: nat): Fence {
    Fence(f.open + offset, f.close + offset)
  }

  function Shift(fences: seq<Fence>, offset: nat): (r: seq<Fence>)
    ensures |r| == |fences| && forall i | 0 <= i < |r| :: r[i] == Moved(fences[i], offset)
  {
    seq(|fences|, i requires 0 <= i < |fences| => Moved(fences[i], offset))
  }

  lemma ShiftOne(f: Fence, offset: nat)
    ensures Shift([f], offset) == [Fence(f.open + offset, f.close + offset)]
  {
  }

  lemma ShiftWith(a: seq<Fence>, b: seq<Fence>, f: Option<Fence>, offset: nat)
    ensures a + Shift(With(b, f), offset)
            == With(a + Shift(b, offset), if f.Some? then Some(Moved(f.value, offset)) else None)
  {
  }

  lemma {:induction false} PrefixScan(a: seq<string>, b: seq<string>, n: nat)
    requires n <= |a|
    ensures StoppedAt(a + b, n) == StoppedAt(a, n) && FencesAt(a + b, n) == FencesAt(a, n)
  {
    if n > 0 {
      PrefixScan(a, b, n - 1);
      if StoppedAt(a, n - 1).Some? { StopIsEarlier(a, n - 1); }
    }
  }

  /** A line keeps its meaning behind other lines. */
  lemma LinesMove(a: seq<string>, b: seq<string>, open: nat, n: nat)
    requires open < n < |b|
    ensures Stops(a + b, |a| + n) == Stops(b, n)
    ensures Lifts(a + b, |a| + open, |a| + n) == Lifts(b, open, n)
  {
  }

  lemma {:induction false} SuffixStops(a: seq<string>, b: seq<string>, n: nat)
    requires n <= |b| && StoppedAt(a, |a|) == None
    ensures StoppedAt(a + b, |a| + n)
            == if StoppedAt(b, n).Some? then Some(|a| + StoppedAt(b, n).value) else None
  {
    hide Stops, Lifts, Token;
    if n == 0 {
      PrefixScan(a, b, |a|);
    } else {
      SuffixStops(a, b, n - 1);
      StopMoves(a, b, n - 1);
      if StoppedAt(b, n - 1).Some? {
        StopIsEarlier(b, n - 1);
        LinesMove(a, b, StoppedAt(b, n - 1).value, n - 1);
      }
    }
  }

  lemma StopMoves(a: seq<string>, b: seq<string>, n: nat)
    requires n < |b|
    ensures Stops(a + b, |a| + n) == Stops(b, n)
  {
  }

  lemma ClosedMoves(a: seq<string>, b: seq<string>, n: nat)
    requires n < |b| && StoppedAt(a, |a|) == None
    ensures ClosedBy(a + b, |a| + n)
            == if ClosedBy(b, n).Some? then Some(Moved(ClosedBy(b, n).value, |a|)) else None
  {
    hide StoppedAt, Lifts, Token, Stops;
    SuffixStops(a, b, n);
    if StoppedAt(b, n).Some? {
      StopIsEarlier(b, n);
      LinesMove(a, b, StoppedAt(b, n).value, n);
    }
  }

  lemma FencesOneMore(lines: seq<string>, n: nat)
    requires 0 < n <= |lines|
    ensures FencesAt(lines, n) == With(FencesAt(lines, n - 1), ClosedBy(lines, n - 1))
  {
  }

  lemma SuffixStart(a: seq<string>, b: seq<string>)
    ensures FencesAt(a + b, |a|) == Fences(a) + Shift(FencesAt(b, 0), |a|)
  {
    PrefixScan(a, b, |a|);
  }

  lemma {:induction false} SuffixScan(a: seq<string>, b: seq<string>, n: nat)
    requires n <= |b| && StoppedAt(a, |a|) == None
    ensures FencesAt(a + b, |a| + n) == Fences(a) + Shift(FencesAt(b, n), |a|)
  {
    hide *;
    if n == 0 {
      SuffixStart(a, b);
    } else {
      SuffixScan(a, b, n - 1);
      FencesOneMore(a + b, |a| + n);
      FencesOneMore(b, n);
      ClosedMoves(a, b, n - 1);
      ShiftWith(Fences(a), FencesAt(b, n - 1), ClosedBy(b, n - 1), |a|);
    }
  }

  /** Behind a log that leaves no fence open, another log is scanned as if it stood alone. */
  lemma ScanConcat(a: seq<string>, b: seq<string>)
    requires !Dangling(a)
    ensures Fences(a + b) == Fences(a) + Shift(Fences(b), |a|)
    ensures Dangling(a + b) == Dangling(b)
  {
    SuffixScan(a, b, |b|);
    SuffixStops(a, b, |b|);
    assert |a + b| == |a| + |b|;
    hide FencesAt, StoppedAt, Shift;
  }

  lemma {:induction false} BodyScan(stop: string, body: seq<string>, close: string, n: nat)
    requires StopToken(stop).Some? && close == CloseLine(StopToken(stop).value) && close !in body && n <= |body|
    ensures StoppedAt([stop] + body + [close], n + 1) == Some(0)
    ensures FencesAt([stop] + body + [close], n + 1) == []
  {
    var lines := [stop] + body + [close];
    if n == 0 {
      assert StoppedAt(lines, 0) == None && FencesAt(lines, 0) == [];
    } else {
      BodyScan(stop, body, close, n - 1);
      assert lines[n] == body[n - 1] && lines[0] == stop;
    }
  }

  /** Whatever stands inside a fence, further stop lines included, it is one fence, and what stands before and
      behind it is scanned as if it were not there. */
  lemma FenceComposes(pre: seq<string>, stop: string, body: seq<string>, post: seq<string>)
    requires !Dangling(pre) && StopToken(stop).Some?
    requires CloseLine(StopToken(stop).value) !in body
    ensures var token := StopToken(stop).value;
            var lines := pre + ([stop] + body + [CloseLine(token)]) + post;
            && Fences(lines) == Fences(pre) + [Fence(|pre|, |pre| + (|body| + 1))]
                                + Shift(Fences(post), |pre| + |body| + 2)
            && Dangling(lines) == Dangling(post)
  {
    var token := StopToken(stop).value;
    var fenced := [stop] + body + [CloseLine(token)];
    FencedScan(stop, body);
    assert |fenced| == |body| + 2;
    hide *;
    OneFenceBetween(pre, fenced, Fence(0, |body| + 1), post);
  }

  lemma OneFenceBetween(pre: seq<string>, fenced: seq<string>, f: Fence, post: seq<string>)
    requires !Dangling(pre) && !Dangling(fenced) && Fences(fenced) == [f]
    ensures Fences(pre + fenced + post)
            == Fences(pre) + [Fence(|pre| + f.open, |pre| + f.close)] + Shift(Fences(post), |pre| + |fenced|)
    ensures Dangling(pre + fenced + post) == Dangling(post)
  {
    hide *;
    ScanConcat(pre, fenced);
    ShiftOne(f, |pre|);
    ScanConcat(pre + fenced, post);
  }

  lemma FencedScan(stop: string, body: seq<string>)
    requires StopToken(stop).Some? && CloseLine(StopToken(stop).value) !in body
    ensures var fenced := [stop] + body + [CloseLine(StopToken(stop).value)];
            Fences(fenced) == [Fence(0, |body| + 1)] && !Dangling(fenced)
  {
    var close := CloseLine(StopToken(stop).value);
    var fenced := [stop] + body + [close];
    BodyScan(stop, body, close, |body|);
    assert fenced[|body| + 1] == close && fenced[0] == stop;
  }
}

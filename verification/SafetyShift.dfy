/** Texts that the SAFETY gate passes although the unsafe operation in them is not documented: a line end inside a
    comment is lost in stripping, and the reader looks one line too far up. */
module SafetyShift {
  import opened TextLines
  import opened SafetyLexer
  import opened SafetyCoverage
  import opened SafetyText
  import opened SafetyCandidates

  /** A comment that holds a form feed and behind it, on what is a line of its own to `splitlines`, a SAFETY comment;
      then a step. */
  const HEAD := "#\U{0C}#SAFETY:x\ns\n"

  /** Only then an operation. */
  function Shifted(op: string): (text: string)
    ensures text == HEAD + op
  {
    HEAD + op
  }

  /** An operation on one line, without a literal or a comment. */
  predicate IsPlain(op: string) {
    !IsBlank(op) && forall c | c in op :: !IsBreak(c) && c != '#' && !IsQuote(c)
  }

  const BLANKED := "           "

  /** A test that takes the operation for unsafe, and neither the step nor the blanked comment. */
  ghost predicate Singles(candidate: string -> bool, op: string) {
    candidate(op) && !candidate("s") && !candidate(BLANKED)
  }

  lemma HeadChars()
    ensures |HEAD| == 14 && HEAD[0] == '#' && HEAD[1] == '\U{0C}'
    ensures HEAD[2..11] == "#SAFETY:x" && forall i | 2 <= i < 11 :: HEAD[i] != '\n' && !IsBreak(HEAD[i])
    ensures HEAD[11] == HEAD[13] == '\n' && HEAD[12] == 's'
  {
    assert HEAD[2..11] == "#SAFETY:x";
    assert forall i | 2 <= i < 11 :: HEAD[i] == HEAD[2..11][i - 2];
  }

  lemma Chars(op: string)
    requires IsPlain(op)
    ensures var s := Shifted(op);
            && |s| == 14 + |op| > 14 && s[0] == '#' && s[1] == '\U{0C}'
            && s[2..11] == "#SAFETY:x" && (forall i | 2 <= i < 11 :: s[i] != '\n' && !IsBreak(s[i]))
            && s[11] == s[13] == '\n' && s[12] == 's' && s[14..] == op
            && (forall i | 14 <= i < |s| :: !IsBreak(s[i]) && s[i] != '#' && s[i] != '\n' && !IsQuote(s[i]))
  {
    HeadChars();
    hide HEAD;
    var s := Shifted(op);
    assert op != [];
    assert s[2..11] == HEAD[2..11];
    assert s[14..] == op;
    assert forall i | 14 <= i < |s| :: s[i] == op[i - 14] && op[i - 14] in op;
    assert IsBreak('\n');
  }

  // ----- Where its lines start -----

  lemma {:induction false} Modes(op: string, n: nat)
    requires IsPlain(op) && n <= |Shifted(op)|
    ensures ModeAt(Shifted(op), n) == if 1 <= n <= 11 then Comment else Code
  {
    hide HEAD, IsPlain, Shifted;
    Chars(op);
    if n > 0 { Modes(op, n - 1); }
  }

  lemma CleanChar(op: string, i: nat)
    requires IsPlain(op) && i < |Shifted(op)|
    ensures |Clean(Shifted(op))| == |Shifted(op)|
    ensures Clean(Shifted(op))[i] == if i < 11 then ' ' else Shifted(op)[i]
  {
    hide Clean, ModeAt, HEAD, IsPlain, Shifted;
    Chars(op);
    Modes(op, i);
    ShownAt(Shifted(op), i);
  }

  lemma CleanChars(op: string)
    requires IsPlain(op)
    ensures |Clean(Shifted(op))| == |Shifted(op)|
    ensures forall i: nat | i < |Shifted(op)| :: Clean(Shifted(op))[i] == if i < 11 then ' ' else Shifted(op)[i]
  {
    hide Clean, HEAD, IsPlain, Shifted;
    Chars(op);
    CleanChar(op, 0);
    forall i: nat | i < |Shifted(op)|
      ensures Clean(Shifted(op))[i] == if i < 11 then ' ' else Shifted(op)[i]
    {
      CleanChar(op, i);
    }
  }

  lemma {:induction false} StartsSkip(s: string, m: nat, n: nat)
    requires m <= n <= |s| && forall i: nat | m <= i < n :: !StartsLine(s, i)
    ensures StartsTo(s, n) == StartsTo(s, m)
  {
    if m < n { StartsSkip(s, m, n - 1); }
  }

  lemma TextStarts(op: string)
    requires IsPlain(op)
    ensures Starts(Shifted(op)) == [0, 2, 12, 14]
  {
    hide HEAD, IsPlain, Shifted;
    Chars(op);
    var s := Shifted(op);
    assert forall i: nat | i < |s| :: StartsLine(s, i) <==> i == 0 || i == 2 || i == 12 || i == 14;
    hide StartsLine;
    assert StartsTo(s, 1) == [0];
    StartsSkip(s, 1, 2);
    assert StartsTo(s, 3) == [0, 2];
    StartsSkip(s, 3, 12);
    assert StartsTo(s, 13) == [0, 2, 12];
    StartsSkip(s, 13, 14);
    StartsSkip(s, 15, |s|);
  }

  lemma CodeStarts(op: string)
    requires IsPlain(op)
    ensures Starts(Clean(Shifted(op))) == [0, 12, 14]
  {
    hide Clean, HEAD, IsPlain, Shifted;
    Chars(op);
    CleanChars(op);
    var t := Clean(Shifted(op));
    assert forall i: nat | i < |t| :: StartsLine(t, i) <==> i == 0 || i == 12 || i == 14;
    hide StartsLine;
    assert StartsTo(t, 1) == [0];
    StartsSkip(t, 1, 12);
    assert StartsTo(t, 13) == [0, 12];
    StartsSkip(t, 13, 14);
    StartsSkip(t, 15, |t|);
  }

  // ----- What its lines are -----

  lemma TextLinesAre(op: string)
    requires IsPlain(op)
    ensures LineCount(Shifted(op)) == 4 && LineOf(Shifted(op), 1) == "#SAFETY:x" && LineOf(Shifted(op), 2) == "s"
  {
    hide HEAD, IsPlain, Shifted, Starts, LineEnd;
    Chars(op);
    TextStarts(op);
    var s := Shifted(op);
    assert LineEnd(s, 2) == 11;
    assert LineEnd(s, 12) == 13;
  }

  lemma CodeLinesAre(op: string)
    requires IsPlain(op)
    ensures LineCount(Clean(Shifted(op))) == 3 && LineOf(Clean(Shifted(op)), 0) == BLANKED
    ensures LineOf(Clean(Shifted(op)), 1) == "s" && LineOf(Clean(Shifted(op)), 2) == op
  {
    hide HEAD, IsPlain, Shifted, Starts, LineEnd, Clean;
    Chars(op);
    CleanChars(op);
    CodeStarts(op);
    var t := Clean(Shifted(op));
    assert LineEnd(t, 0) == 11;
    assert LineEnd(t, 12) == 13;
    assert LineEnd(t, 14) == |t|;
    assert t[..11] == BLANKED;
    assert t[14..] == Shifted(op)[14..];
  }

  lemma {:induction false} AllSpaces(t: string)
    requires forall c | c in t :: IsSpace(c)
    ensures IsBlank(t)
  {
    if t != [] { AllSpaces(t[1..]); }
  }

  /** The reader sees a blank line, then a step, then the operation with a SAFETY comment on the line above. */
  lemma ShiftedRecords(op: string, candidate: string -> bool)
    requires IsPlain(op) && Singles(candidate, op)
    ensures var lines := Records(Shifted(op), candidate);
            && |lines| == 3
            && lines[0].codeBlank && !lines[0].candidate
            && !lines[1].codeBlank && lines[1].delta == 0 && !lines[1].candidate && lines[1].safety
            && !lines[2].codeBlank && lines[2].candidate
  {
    hide *;
    TextLinesAre(op);
    CodeLinesAre(op);
    WhatTheyAre(op, candidate);
    RecordsAt(Shifted(op), candidate, 0);
    RecordsAt(Shifted(op), candidate, 1);
    RecordsAt(Shifted(op), candidate, 2);
  }

  lemma WhatTheyAre(op: string, candidate: string -> bool)
    requires IsPlain(op) && Singles(candidate, op)
    ensures IsSafety("#SAFETY:x") && IsBlank(BLANKED) && !IsBlank("s") && !IsBlank(op) && Delta("s") == 0
    ensures !candidate(BLANKED) && !candidate("s") && candidate(op)
  {
    hide BLANKED, IsSafety;
    BlankedIsSpace();
    AllSpaces(BLANKED);
    SafetyLine();
  }

  lemma BlankedIsSpace()
    ensures forall c | c in BLANKED :: IsSpace(c)
  {
    assert forall i | 0 <= i < |BLANKED| :: BLANKED[i] == ' ';
  }

  lemma SafetyLine()
    ensures IsSafety("#SAFETY:x")
  {
    assert SkipSpace("#SAFETY:x") == "#SAFETY:x" && "#SAFETY:x"[1..] == "SAFETY:x";
    assert SkipSpace("SAFETY:x") == "SAFETY:x" && "SAFETY:x"[7..] == "x";
    assert SkipSpace("x") == "x";
  }

  // ----- What the gate makes of it -----

  /** Only one statement holds the unsafe line, and it is that line alone. */
  lemma LastStatement(lines: seq<Line>, st: seq<Statement>, p: nat)
    requires Grouped(lines, st, 3) && |lines| == 3 && p < |st| && st[p].candidate
    requires lines[0].codeBlank && !lines[0].candidate
    requires !lines[1].codeBlank && lines[1].delta == 0 && !lines[1].candidate && !lines[2].codeBlank
    ensures st[p] == Statement(2, 2, true)
  {
    assert IsStatement(lines, st[p]);
    hide Grouped;
    UnsafeStatement(lines, st[p]);
  }

  lemma UnsafeStatement(lines: seq<Line>, s: Statement)
    requires IsStatement(lines, s) && |lines| == 3 && s.candidate
    requires lines[0].codeBlank && !lines[0].candidate
    requires !lines[1].codeBlank && lines[1].delta == 0 && !lines[1].candidate && !lines[2].codeBlank
    ensures s == Statement(2, 2, true)
  {
    assert Depth(lines, 1, 1) == 0;
    hide Depth;
    if s.start == 1 {
      assert s.end < 2;
      var k :| s.start <= k <= s.end && lines[k].candidate;
    }
  }

  lemma SomeStatement(lines: seq<Line>, st: seq<Statement>) returns (p: nat)
    requires Grouped(lines, st, 3) && |lines| == 3 && !lines[2].codeBlank && lines[2].candidate
    ensures p < |st| && st[p].candidate
  {
    var s :| s in st && Holds(s, 2);
    p :| p < |st| && st[p] == s;
    assert IsStatement(lines, st[p]);
  }

  lemma OneLost(op: string)
    requires IsPlain(op)
    ensures LineCount(Clean(Shifted(op))) == 3 && LineCount(Shifted(op)) == 4 && TextIndex(Shifted(op), 2) == 3
  {
    hide HEAD, IsPlain, Shifted, Clean, StartsTo;
    Chars(op);
    CleanChars(op);
    TextStarts(op);
    CodeStarts(op);
    var s := Shifted(op);
    CodeLineInText(s, 2);
    StartsRise(s, |s|);
    assert Starts(s)[3] == 14 && Starts(Clean(s))[2] == 14;
  }

  /** The step stands directly above the operation in the text, and the SAFETY comment is above that. */
  lemma NotDocumented(op: string)
    requires IsPlain(op)
    ensures 2 < LineCount(Clean(Shifted(op))) && TextIndex(Shifted(op), 2) == 3 && !DocumentedLine(Shifted(op), 2)
  {
    OneLost(op);
    TextLinesAre(op);
    hide HEAD, Shifted, Clean, LineOf, LineCount, TextIndex, IsSafety;
    assert !IsComment("s");
  }

  /** However the lines are grouped, the operation is covered for the gate and not in the text. */
  lemma CoveredWithoutComment(op: string, candidate: string -> bool, st: seq<Statement>)
    requires IsPlain(op) && Singles(candidate, op)
    requires Grouped(Records(Shifted(op), candidate), st, LineCount(Clean(Shifted(op))))
    ensures LineCount(Clean(Shifted(op))) == 3 && LineOf(Clean(Shifted(op)), 2) == op
    ensures Covered(Records(Shifted(op), candidate), st, 3)
    ensures Fits(Shifted(op), st) && !CoveredInText(Shifted(op), st, 3)
  {
    hide *;
    var lines := Records(Shifted(op), candidate);
    ShiftedRecords(op, candidate);
    CodeLinesAre(op);
    var p := SomeStatement(lines, st);
    LastStatement(lines, st, p);
    CoveredByLast(lines, st, p);
    GroupedFits(Shifted(op), candidate, st);
    NotDocumented(op);
    forall p: nat, q: nat | p <= q < |st|
      ensures !CoveredInTextVia(Shifted(op), st, p, q, 3)
    {
      if st[p].candidate { LastStatement(lines, st, p); }
      NotVia(Shifted(op), st, p, q);
    }
    NotAny(Shifted(op), st);
  }

  lemma CoveredByLast(lines: seq<Line>, st: seq<Statement>, p: nat)
    requires |lines| == 3 && p < |st| && st[p] == Statement(2, 2, true) && lines[1].safety && lines[1].comment
    ensures Covered(lines, st, 3)
  {
    assert Documented(lines, 2);
    assert CoveredVia(lines, st, p, p, 3);
  }

  lemma NotVia(s: string, st: seq<Statement>, p: nat, q: nat)
    requires Fits(s, st) && p <= q < |st| && (st[p].candidate ==> st[p] == Statement(2, 2, true))
    requires 2 < LineCount(Clean(s)) && !DocumentedLine(s, 2)
    ensures !CoveredInTextVia(s, st, p, q, 3)
  {
    hide Fits, DocumentedLine, Clean;
  }

  lemma NotAny(s: string, st: seq<Statement>)
    requires Fits(s, st)
    requires forall p: nat, q: nat | p <= q < |st| :: !CoveredInTextVia(s, st, p, q, 3)
    ensures !CoveredInText(s, st, 3)
  {
    hide CoveredInTextVia, Clean;
  }

  /** So the gate reports nothing, whatever the operation is. */
  method ScanShifted(op: string, candidate: string -> bool) returns (findings: seq<int>)
    requires IsPlain(op) && Singles(candidate, op)
    ensures forall n :: n !in findings
  {
    hide *;
    var st;
    findings, st := ScanText(Shifted(op), candidate);
    CoveredWithoutComment(op, candidate, st);
    ShiftedRecords(op, candidate);
    RecordsAt(Shifted(op), candidate, 0);
    RecordsAt(Shifted(op), candidate, 1);
  }

  // ----- With the ten patterns -----

  /** The patterns take any operation they match for unsafe, and never the step or the blanked comment. */
  lemma PatternsSingle(op: string, word: char -> bool)
    requires HasCandidate(op, word)
    ensures Singles(line => HasCandidate(line, word), op) && !IsBlank(op)
  {
    hide HasCandidate;
    if HasCandidate("s", word) { CandidateOpens("s", word); }
    if HasCandidate(BLANKED, word) { CandidateOpens(BLANKED, word); }
    CandidateOpens(op, word);
    NotBlank(op, if '(' in op then '(' else if '[' in op then '[' else '=');
  }

  lemma {:induction false} NotBlank(t: string, c: char)
    requires c in t && !IsSpace(c)
    ensures !IsBlank(t)
  {
    if IsSpace(t[0]) { NotBlank(t[1..], c); }
  }

  /** A freed pointer, the comment of which is one step too far up, goes unreported. */
  method ScanFree(word: char -> bool) returns (findings: seq<int>)
    ensures forall n :: n !in findings
  {
    FreeIsCandidate(word);
    hide HasCandidate;
    PatternsSingle("p.free()", word);
    assert forall c | c in "p.free()" :: !IsBreak(c) && c != '#' && !IsQuote(c);
    findings := ScanShifted("p.free()", line => HasCandidate(line, word));
  }
}

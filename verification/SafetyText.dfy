/** From a text to the facts about its lines: the reader splits the text and its stripped form into lines
    separately and takes line k of the one for line k of the other. */
module SafetyText {
  import opened TextLines
  import opened SafetyLexer
  import opened SafetyCoverage

  // ----- What a line looks like -----

  function SkipSpace(t: string): string {
    if t != [] && IsSpace(t[0]) then SkipSpace(t[1..]) else t
  }

  predicate IsBlank(t: string) { SkipSpace(t) == [] }

  predicate IsComment(t: string) { "#" <= SkipSpace(t) }

  /** A comment that begins with SAFETY: and says something. */
  predicate IsSafety(t: string) {
    IsComment(t) && var text := SkipSpace(SkipSpace(t)[1..]); "SAFETY:" <= text && !IsBlank(text[|"SAFETY:"|..])
  }

  /** How far a line opens brackets. */
  function Delta(t: string): int {
    if t == [] then 0
    else (if t[0] in "([{" then 1 else if t[0] in ")]}" then -1 else 0) + Delta(t[1..])
  }

  /** The facts about line k of the stripped text, next to those about line k of the original. */
  function RecordOf(s: string, code: string, candidate: string -> bool, k: nat): Line
    requires k < LineCount(code) && k < LineCount(s)
  {
    var stripped, original := LineOf(code, k), LineOf(s, k);
    Line(IsBlank(stripped), Delta(stripped), candidate(stripped), IsComment(original), IsSafety(original),
         IsBlank(original))
  }

  function RecordsOf(s: string, code: string, candidate: string -> bool): (lines: seq<Line>)
    requires LineCount(code) <= LineCount(s)
    ensures |lines| == LineCount(code) && forall l | l in lines :: l.safety ==> l.comment
  {
    seq(LineCount(code), k requires 0 <= k < LineCount(code) => RecordOf(s, code, candidate, k))
  }

  function Records(s: string, candidate: string -> bool): (lines: seq<Line>)
    ensures |lines| == LineCount(Clean(s)) <= LineCount(s) && forall l | l in lines :: l.safety ==> l.comment
  {
    LostStarts(s, |s|);
    RecordsOf(s, Clean(s), candidate)
  }

  // ----- Lines lost in stripping -----

  /** A line of the text that starts where no line of the stripped text does. */
  predicate LostStart(s: string, i: nat)
    requires i < |s|
  {
    StartsLine(s, i) && !StartsLine(Clean(s), i)
  }

  /** How many of the first n characters start a line that stripping loses. */
  function Lost(s: string, n: nat): nat
    requires n <= |s|
  {
    if n == 0 then 0 else Lost(s, n - 1) + if LostStart(s, n - 1) then 1 else 0
  }

  /** A line starts in the stripped text exactly where one starts in the text behind a line end that was kept. */
  lemma StartsOfClean(s: string, i: nat)
    requires i < |s|
    ensures StartsLine(Clean(s), i) <==> StartsLine(s, i) && (i == 0 || Clean(s)[i - 1] == s[i - 1])
  {
    if i > 0 {
      CleanKeepsLayout(s, i - 1);
      CleanKeepsLayout(s, i);
      hide Clean;
    }
  }

  /** Stripping loses lines and never makes one. */
  lemma {:induction false} LostStarts(s: string, n: nat)
    requires n <= |s|
    ensures |StartsTo(Clean(s), n)| + Lost(s, n) == |StartsTo(s, n)|
    ensures Lost(s, n) == 0 ==> StartsTo(Clean(s), n) == StartsTo(s, n)
  {
    if n > 0 {
      LostStarts(s, n - 1);
      StartsOfClean(s, n - 1);
    }
  }

  lemma {:induction false} NothingLost(s: string, n: nat)
    requires n <= |s|
    ensures Lost(s, n) == 0 <==> forall i: nat | i < n :: !LostStart(s, i)
  {
    if n > 0 { NothingLost(s, n - 1); }
  }

  lemma {:induction false} LostGrows(s: string, m: nat, n: nat)
    requires m <= n <= |s|
    ensures Lost(s, m) <= Lost(s, n)
  {
    if m < n { LostGrows(s, m, n - 1); }
  }

  /** The lines of a text and of its stripped form are the same lines exactly if no line end but the last one's was
      blanked; a newline never is, but a form feed, a lone carriage return or a Unicode separator in a literal or a
      comment is. Otherwise the text has more lines than its stripped form. */
  lemma SameLines(s: string)
    ensures Starts(Clean(s)) == Starts(s) <==>
              forall i: nat | i + 1 < |s| && EndsLine(s, i) :: Clean(s)[i] == s[i]
    ensures Starts(Clean(s)) == Starts(s) <==> LineCount(Clean(s)) == LineCount(s)
    ensures LineCount(Clean(s)) <= LineCount(s)
  {
    LostStarts(s, |s|);
    NothingLost(s, |s|);
    hide Clean, EndsLine, StartsTo, Lost;
    assert |Clean(s)| == |s|;
    forall j: nat | j < |s|
      ensures LostStart(s, j) <==> j > 0 && EndsLine(s, j - 1) && Clean(s)[j - 1] != s[j - 1]
    {
      StartsOfClean(s, j);
    }
    forall i: nat | i + 1 < |s| && EndsLine(s, i)
      ensures LostStart(s, i + 1) <==> Clean(s)[i] != s[i]
    {
    }
  }

  /** The line of the text that starts where line k of the stripped text does. */
  function TextIndex(s: string, k: nat): nat
    requires k < LineCount(Clean(s))
  {
    k + Lost(s, StartOf(Clean(s), k) + 1)
  }

  /** Line k of the stripped text comes from a line of the text that is as many lines further down as lines were lost
      above it. The reader looks at line k of the text instead, which is the same line exactly if none was. */
  lemma CodeLineInText(s: string, k: nat)
    requires k < LineCount(Clean(s))
    ensures TextIndex(s, k) < LineCount(s) && StartOf(s, TextIndex(s, k)) == StartOf(Clean(s), k)
    ensures k < LineCount(s) && (StartOf(s, k) == StartOf(Clean(s), k) <==> TextIndex(s, k) == k)
  {
    var at := StartOf(Clean(s), k);
    StartsPrefix(Clean(s), |s|, k);
    LostStarts(s, at + 1);
    LostStarts(s, |s|);
    StartsGrow(s, at + 1, |s|);
    StartsRise(s, |s|);
    StartsRise(Clean(s), at + 1);
    StartsOfClean(s, at);
    var m := TextIndex(s, k);
    assert |StartsTo(s, at + 1)| == m + 1;
    assert StartsTo(s, at + 1)[m] == at;
    assert Starts(s)[m] == at;
  }

  // ----- Coverage in the text -----

  /** The contiguous comment lines directly above line m of the text hold a SAFETY comment. */
  ghost predicate DocumentedAbove(s: string, m: nat)
    requires m <= LineCount(s)
  {
    exists k :: 0 <= k < m && IsSafety(LineOf(s, k)) && forall j | k <= j < m :: IsComment(LineOf(s, j))
  }

  /** The line of the text that line k of the stripped text comes from is documented. */
  ghost predicate DocumentedLine(s: string, k: nat)
    requires k < LineCount(Clean(s))
  {
    TextIndex(s, k) <= LineCount(s) && DocumentedAbove(s, TextIndex(s, k))
  }

  /** No line of the text strictly between the two is blank. */
  ghost predicate AdjoinsInText(s: string, a: nat, b: nat)
    requires a < LineCount(Clean(s)) && b < LineCount(Clean(s))
  {
    forall m | TextIndex(s, a) < m < TextIndex(s, b) && m < LineCount(s) :: !IsBlank(LineOf(s, m))
  }

  /** No line is lost above line k. */
  ghost predicate Straight(s: string, k: nat)
    requires k < LineCount(Clean(s))
  {
    Lost(s, StartOf(Clean(s), k) + 1) == 0
  }

  lemma StraightUpTo(s: string, j: nat, k: nat)
    requires j <= k < LineCount(Clean(s)) && Straight(s, k)
    ensures Straight(s, j) && TextIndex(s, j) == j
  {
    StartsRise(Clean(s), |s|);
    LostGrows(s, StartOf(Clean(s), j) + 1, StartOf(Clean(s), k) + 1);
  }

  /** What the reader finds above a line is what stands above it in the text, if no line was lost further up. */
  lemma DocumentedInText(s: string, candidate: string -> bool, k: nat)
    requires k < LineCount(Clean(s)) && Straight(s, k)
    ensures Documented(Records(s, candidate), k) <==> DocumentedLine(s, k)
  {
    hide *;
    StraightUpTo(s, k, k);
    SameLines(s);
    ReaderLooksAbove(s, candidate, k);
    assert DocumentedAbove(s, k) <==> DocumentedLine(s, k) by { Unshifted(s, k); }
  }

  lemma Unshifted(s: string, k: nat)
    requires k < LineCount(Clean(s)) <= LineCount(s) && TextIndex(s, k) == k
    ensures DocumentedAbove(s, k) <==> DocumentedLine(s, k)
  {
  }

  lemma ReaderLooksAbove(s: string, candidate: string -> bool, k: nat)
    requires k < LineCount(Clean(s)) <= LineCount(s)
    ensures Documented(Records(s, candidate), k) <==> DocumentedAbove(s, k)
  {
    hide LineOf, IsSafety, IsComment, LineCount, Clean, Delta, IsBlank;
    var lines := Records(s, candidate);
    assert forall j | 0 <= j < k ::
        lines[j].safety == IsSafety(LineOf(s, j)) && lines[j].comment == IsComment(LineOf(s, j));
  }

  lemma AdjoinsAlike(s: string, candidate: string -> bool, a: Statement, b: Statement)
    requires a.end < b.start < LineCount(Clean(s)) && Straight(s, b.start)
    ensures Adjoins(Records(s, candidate), a, b) <==> AdjoinsInText(s, a.end, b.start)
  {
    StraightUpTo(s, a.end, b.start);
    StraightUpTo(s, b.start, b.start);
    SameLines(s);
    hide LineOf, IsSafety, IsComment, LineCount, Clean, Delta, IsBlank, TextIndex, Straight;
    var lines := Records(s, candidate);
    assert forall k | 0 <= k < |lines| :: lines[k].blank == IsBlank(LineOf(s, k));
  }

  /** The statements lie in order within the lines of the stripped text. */
  ghost predicate Fits(s: string, st: seq<Statement>) {
    InOrder(st) && forall i | 0 <= i < |st| :: st[i].start <= st[i].end < LineCount(Clean(s))
  }

  /** Line n of the stripped text, counted from one, is covered in the text itself: it lies in the q-th statement,
      fewer than eight lines below the first line of the p-th, which has a SAFETY comment directly above it in the
      text, with only unsafe statements and no blank line of the text between them. */
  ghost predicate CoveredInTextVia(s: string, st: seq<Statement>, p: nat, q: nat, n: int)
    requires Fits(s, st) && p <= q < |st|
  {
    && (forall i | p <= i <= q :: st[i].candidate && st[i].start - st[p].start < 8)
    && (forall i | p < i <= q :: AdjoinsInText(s, st[i - 1].end, st[i].start))
    && DocumentedLine(s, st[p].start)
    && st[q].start < n <= st[q].end + 1
    && n <= st[p].start + 8
  }

  ghost predicate CoveredInText(s: string, st: seq<Statement>, n: int)
    requires Fits(s, st)
  {
    exists p: nat, q: nat :: p <= q < |st| && CoveredInTextVia(s, st, p, q, n)
  }

  lemma GroupedFits(s: string, candidate: string -> bool, st: seq<Statement>)
    requires Grouped(Records(s, candidate), st, LineCount(Clean(s)))
    ensures Fits(s, st)
  {
    var lines := Records(s, candidate);
    hide Records, Clean, LineCount;
    forall i | 0 <= i < |st|
      ensures st[i].start <= st[i].end < LineCount(Clean(s))
    {
      assert IsStatement(lines, st[i]);
    }
  }

  lemma ViaAlike(s: string, candidate: string -> bool, st: seq<Statement>, p: nat, q: nat, n: int)
    requires Fits(s, st) && p <= q < |st| && Straight(s, st[q].start)
    ensures CoveredVia(Records(s, candidate), st, p, q, n) <==> CoveredInTextVia(s, st, p, q, n)
  {
    var lines := Records(s, candidate);
    assert forall i | p <= i < q :: st[i].start <= st[i].end < st[i + 1].start;
    hide Clean, LineCount, TextIndex, Straight, Records, Adjoins, AdjoinsInText, Documented, DocumentedLine;
    forall i | p <= i <= q
      ensures st[i].start <= st[q].start && Straight(s, st[i].start)
    {
      assert i < q ==> st[i].end < st[q].start;
      StraightUpTo(s, st[i].start, st[q].start);
    }
    DocumentedInText(s, candidate, st[p].start);
    forall i | p < i <= q
      ensures Adjoins(lines, st[i - 1], st[i]) <==> AdjoinsInText(s, st[i - 1].end, st[i].start)
    {
      assert st[i - 1].end < st[i].start;
      AdjoinsAlike(s, candidate, st[i - 1], st[i]);
    }
  }

  /** Nothing is lost above a line exactly if every line end above it was kept. */
  lemma StraightMeans(s: string, k: nat)
    requires k < LineCount(Clean(s))
    ensures Straight(s, k) <==>
              forall i: nat | i < StartOf(Clean(s), k) && EndsLine(s, i) :: Clean(s)[i] == s[i]
  {
    var at := StartOf(Clean(s), k);
    NothingLost(s, at + 1);
    hide Clean, EndsLine, StartsTo, Lost;
    forall j: nat | j < |s|
      ensures LostStart(s, j) <==> j > 0 && EndsLine(s, j - 1) && Clean(s)[j - 1] != s[j - 1]
    {
      StartsOfClean(s, j);
    }
    forall i: nat | i < at && EndsLine(s, i)
      ensures LostStart(s, i + 1) <==> Clean(s)[i] != s[i]
    {
    }
  }

  /** As long as no line was lost above it, a line is covered exactly if it is covered in the text. */
  lemma CoverageInText(s: string, candidate: string -> bool, st: seq<Statement>, n: int)
    requires Grouped(Records(s, candidate), st, LineCount(Clean(s)))
    requires 1 <= n <= LineCount(Clean(s)) && Straight(s, n - 1)
    ensures Fits(s, st)
    ensures Covered(Records(s, candidate), st, n) <==> CoveredInText(s, st, n)
  {
    hide *;
    GroupedFits(s, candidate, st);
    forall p: nat, q: nat | p <= q < |st|
      ensures CoveredVia(Records(s, candidate), st, p, q, n) <==> CoveredInTextVia(s, st, p, q, n)
    {
      OneWay(s, candidate, st, p, q, n);
    }
    CoveredAlike(s, candidate, st, n);
  }

  lemma OneWay(s: string, candidate: string -> bool, st: seq<Statement>, p: nat, q: nat, n: int)
    requires Fits(s, st) && p <= q < |st| && 1 <= n <= LineCount(Clean(s)) && Straight(s, n - 1)
    ensures CoveredVia(Records(s, candidate), st, p, q, n) <==> CoveredInTextVia(s, st, p, q, n)
  {
    if st[q].start <= n - 1 {
      StraightUpTo(s, st[q].start, n - 1);
      hide *;
      ViaAlike(s, candidate, st, p, q, n);
    }
  }

  lemma CoveredAlike(s: string, candidate: string -> bool, st: seq<Statement>, n: int)
    requires Fits(s, st)
    requires forall p: nat, q: nat | p <= q < |st| ::
               CoveredVia(Records(s, candidate), st, p, q, n) <==> CoveredInTextVia(s, st, p, q, n)
    ensures Covered(Records(s, candidate), st, n) <==> CoveredInText(s, st, n)
  {
    hide Fits, Records, Adjoins, AdjoinsInText, Documented, DocumentedLine;
    var lines := Records(s, candidate);
    assert forall p: nat, q: nat | q < |st| && CoveredVia(lines, st, p, q, n) :: p <= q;
  }

  /** The whole scan of a text: strip, split, group, cover, report. */
  method ScanText(source: string, candidate: string -> bool) returns (findings: seq<int>, st: seq<Statement>)
    ensures Grouped(Records(source, candidate), st, LineCount(Clean(source))) && Fits(source, st)
    ensures forall n :: n in findings ==> 1 <= n <= LineCount(Clean(source))
    ensures forall n: nat | 1 <= n <= LineCount(Clean(source)) ::
              n in findings <==> candidate(LineOf(Clean(source), n - 1)) && !Covered(Records(source, candidate), st, n)
    ensures forall n: nat | 1 <= n <= LineCount(Clean(source)) && Straight(source, n - 1) ::
              n in findings <==> candidate(LineOf(Clean(source), n - 1)) && !CoveredInText(source, st, n)
  {
    hide *;
    SameLines(source);
    var sanitized := Sanitize(source);
    var lines := RecordsOf(source, sanitized, candidate);
    assert lines == Records(source, candidate) by { RecordsAre(source, candidate); }
    findings, st := Scan(lines);
    GroupedFits(source, candidate, st);
    forall n: nat | 1 <= n <= LineCount(Clean(source))
      ensures lines[n - 1].candidate == candidate(LineOf(Clean(source), n - 1))
      ensures Straight(source, n - 1) ==> (Covered(lines, st, n) <==> CoveredInText(source, st, n))
    {
      RecordsAt(source, candidate, n - 1);
      if Straight(source, n - 1) { CoverageInText(source, candidate, st, n); }
    }
  }

  lemma RecordsAre(s: string, candidate: string -> bool)
    requires LineCount(Clean(s)) <= LineCount(s)
    ensures Records(s, candidate) == RecordsOf(s, Clean(s), candidate)
  {
  }

  lemma RecordsAt(s: string, candidate: string -> bool, k: nat)
    requires k < LineCount(Clean(s))
    ensures |Records(s, candidate)| == LineCount(Clean(s)) <= LineCount(s)
    ensures var l, code, text := Records(s, candidate)[k], LineOf(Clean(s), k), LineOf(s, k);
            l == Line(IsBlank(code), Delta(code), candidate(code), IsComment(text), IsSafety(text), IsBlank(text))
  {
  }
}

/** Which lines a SAFETY comment covers, as the reader works it out. A text and its stripped form are split into lines
    separately, and record k pairs line k of the one with line k of the other: whether the stripped line is blank, how
    far it opens brackets, whether it holds an unsafe candidate, and whether the original line is a comment, a SAFETY
    comment, or blank. `SafetyText` makes the records from a text and says when the two lines are the same line. */
module SafetyCoverage {

  datatype Line = Line(codeBlank: bool, delta: int, candidate: bool, comment: bool, safety: bool, blank: bool)

  const MAX_COVERAGE_LINES := 8

  datatype Statement = Statement(start: nat, end: nat, candidate: bool)

  // ----- Statements -----

  /** Brackets left open over lines start..end, both included. */
  function Depth(lines: seq<Line>, start: nat, end: nat): int
    requires start <= end < |lines|
    decreases end
  {
    (if start == end then 0 else Depth(lines, start, end - 1)) + lines[end].delta
  }

  /** A statement starts at a line with code and runs until its brackets are closed or the text ends. */
  ghost predicate IsStatement(lines: seq<Line>, s: Statement) {
    && s.start <= s.end < |lines|
    && !lines[s.start].codeBlank
    && (forall k | s.start <= k < s.end :: Depth(lines, s.start, k) > 0)
    && (s.end == |lines| - 1 || Depth(lines, s.start, s.end) <= 0)
    && (s.candidate <==> exists k :: s.start <= k <= s.end && lines[k].candidate)
  }

  ghost predicate InOrder(statements: seq<Statement>) {
    forall i, j | 0 <= i < j < |statements| :: statements[i].end < statements[j].start
  }

  ghost predicate AllStatements(lines: seq<Line>, statements: seq<Statement>, n: nat) {
    forall i | 0 <= i < |statements| :: IsStatement(lines, statements[i]) && statements[i].end < n
  }

  ghost predicate Holds(s: Statement, k: int) { s.start <= k <= s.end }

  ghost predicate AllCode(lines: seq<Line>, statements: seq<Statement>, n: nat)
    requires n <= |lines|
  {
    forall k | 0 <= k < n && !lines[k].codeBlank :: exists s :: s in statements && Holds(s, k)
  }

  /** The statements of the first n lines: in order, apart, and with nothing but blank code between them. */
  ghost predicate Grouped(lines: seq<Line>, statements: seq<Statement>, n: nat) {
    n <= |lines| && InOrder(statements) && AllStatements(lines, statements, n) && AllCode(lines, statements, n)
  }

  method ReadStatement(lines: seq<Line>, start: nat) returns (s: Statement)
    requires start < |lines| && !lines[start].codeBlank
    ensures IsStatement(lines, s) && s.start == start
  {
    var index, depth, candidate := start, lines[start].delta, lines[start].candidate;
    while depth > 0 && index + 1 < |lines|
      invariant start <= index < |lines| && depth == Depth(lines, start, index)
      invariant forall k | start <= k < index :: Depth(lines, start, k) > 0
      invariant candidate <==> exists k :: start <= k <= index && lines[k].candidate
      decreases |lines| - index
    {
      index := index + 1;
      depth := depth + lines[index].delta;
      candidate := candidate || lines[index].candidate;
    }
    s := Statement(start, index, candidate);
  }

  method Group(lines: seq<Line>) returns (statements: seq<Statement>)
    ensures Grouped(lines, statements, |lines|)
  {
    statements := [];
    var index := 0;
    while index < |lines|
      invariant Grouped(lines, statements, index)
    {
      if lines[index].codeBlank {
        index := index + 1;
      } else {
        var s := ReadStatement(lines, index);
        GroupedNext(lines, statements, index, s);
        statements := statements + [s];
        index := s.end + 1;
      }
    }
  }

  lemma InOrderNext(lines: seq<Line>, statements: seq<Statement>, n: nat, s: Statement)
    requires InOrder(statements) && AllStatements(lines, statements, n)
    requires IsStatement(lines, s) && s.start == n <= s.end
    ensures InOrder(statements + [s]) && AllStatements(lines, statements + [s], s.end + 1)
  {
    hide IsStatement;
  }

  lemma GroupedNext(lines: seq<Line>, statements: seq<Statement>, n: nat, s: Statement)
    requires Grouped(lines, statements, n) && IsStatement(lines, s) && s.start == n
    ensures Grouped(lines, statements + [s], s.end + 1)
  {
    var more := statements + [s];
    assert s.start <= s.end < |lines|;
    hide IsStatement;
    InOrderNext(lines, statements, n, s);
    hide InOrder, AllStatements;
    forall k | 0 <= k < s.end + 1 && !lines[k].codeBlank
      ensures exists t :: t in more && Holds(t, k)
    {
      if k < n {
        var t :| t in statements && Holds(t, k);
        assert t in more;
      } else {
        assert s in more && Holds(s, k);
      }
    }
  }

  // ----- Coverage -----

  /** The contiguous comment lines with the indices right below `start` hold a SAFETY comment. */
  ghost predicate Documented(lines: seq<Line>, start: nat)
    requires start <= |lines|
  {
    exists k :: 0 <= k < start && lines[k].safety && forall j | k <= j < start :: lines[j].comment
  }

  /** No original line strictly between two statements is blank. */
  ghost predicate Adjoins(lines: seq<Line>, a: Statement, b: Statement) {
    forall k | a.end < k < b.start && k < |lines| :: !lines[k].blank
  }

  /** Coverage starting at statement p reaches statement q: every statement from p to q is a candidate starting
      within the window, and no blank line separates them. */
  ghost predicate Reaches(lines: seq<Line>, st: seq<Statement>, p: nat, q: nat)
    requires q < |st|
  {
    && p <= q
    && (forall i | p <= i <= q :: st[i].candidate && st[i].start - st[p].start < MAX_COVERAGE_LINES)
    && (forall i | p < i <= q :: Adjoins(lines, st[i - 1], st[i]))
  }

  /** Line number n, counted from one, is covered from statement p by way of statement q. */
  ghost predicate CoveredVia(lines: seq<Line>, st: seq<Statement>, p: nat, q: nat, n: int)
    requires q < |st|
  {
    && Reaches(lines, st, p, q)
    && st[p].start <= |lines| && Documented(lines, st[p].start)
    && st[q].start < n <= st[q].end + 1
    && n <= st[p].start + MAX_COVERAGE_LINES
  }

  ghost predicate Covered(lines: seq<Line>, st: seq<Statement>, n: int) {
    exists p: nat, q: nat :: q < |st| && CoveredVia(lines, st, p, q, n)
  }

  /** Every covered line lies in an unsafe statement, fewer than eight lines below the first line of an unsafe
      statement for which the reader finds a SAFETY comment, with only unsafe statements from there to here. */
  lemma CoverageIsLocal(lines: seq<Line>, st: seq<Statement>, n: int)
    requires Grouped(lines, st, |lines|) && Covered(lines, st, n)
    ensures exists p: nat, q: nat :: p <= q < |st|
              && st[p].candidate && st[q].candidate
              && Documented(lines, st[p].start)
              && st[q].start <= n - 1 <= st[q].end
              && 0 <= n - 1 - st[p].start < MAX_COVERAGE_LINES
              && forall i | p <= i <= q :: st[i].candidate
  {
    var p: nat, q: nat :| q < |st| && CoveredVia(lines, st, p, q, n);
    assert st[p].candidate && st[q].candidate;
    StartsInOrder(lines, st, p, q);
  }

  lemma StartsInOrder(lines: seq<Line>, st: seq<Statement>, p: nat, q: nat)
    requires Grouped(lines, st, |lines|) && p <= q < |st|
    ensures st[p].start <= st[q].start < |lines|
  {
    assert IsStatement(lines, st[p]) && IsStatement(lines, st[q]);
  }

  /** Looks for a SAFETY comment in the comment block right above a line. */
  method HasSafety(lines: seq<Line>, start: nat) returns (found: bool)
    requires start <= |lines| && forall l | l in lines :: l.safety ==> l.comment
    ensures found <==> Documented(lines, start)
  {
    found := false;
    var cursor: int := start - 1;
    while cursor >= 0 && lines[cursor].comment
      invariant -1 <= cursor < start
      invariant forall j | cursor < j < start :: lines[j].comment
      invariant found <==> exists k :: cursor < k < start && lines[k].safety
    {
      if lines[cursor].safety { found := true; }
      cursor := cursor - 1;
    }
    if found {
      var k :| cursor < k < start && lines[k].safety;
      assert forall j | k <= j < start :: lines[j].comment;
    }
    if Documented(lines, start) {
      var k :| 0 <= k < start && lines[k].safety && forall j | k <= j < start :: lines[j].comment;
      assert cursor < k;
    }
  }

  method AnyBlank(lines: seq<Line>, a: Statement, b: Statement) returns (found: bool)
    requires b.start <= |lines|
    ensures found <==> !Adjoins(lines, a, b)
  {
    var k := a.end + 1;
    while k < b.start
      invariant a.end < k
      invariant forall j | a.end < j < k && j < b.start :: !lines[j].blank
    {
      if lines[k].blank { return true; }
      k := k + 1;
    }
    return false;
  }

  function Range(a: int, b: int): (r: set<int>)
    ensures forall n :: n in r <==> a <= n < b
    decreases b - a
  {
    if a >= b then {} else Range(a, b - 1) + {b - 1}
  }

  /** Some statement before the q-th passes coverage from p on to line n. */
  ghost predicate CoveredBefore(lines: seq<Line>, st: seq<Statement>, p: nat, q: nat, n: int) {
    exists r: nat :: r < q && r < |st| && CoveredVia(lines, st, p, r, n)
  }

  /** The set holds exactly the lines that some statement before the q-th passes coverage from p on to. */
  ghost predicate Collects(covered: set<int>, lines: seq<Line>, st: seq<Statement>, p: nat, q: nat) {
    forall n :: n in covered <==> CoveredBefore(lines, st, p, q, n)
  }

  lemma CoveredNext(lines: seq<Line>, st: seq<Statement>, p: nat, q: nat, n: int)
    requires q < |st|
    ensures CoveredBefore(lines, st, p, q + 1, n)
       <==> CoveredBefore(lines, st, p, q, n) || CoveredVia(lines, st, p, q, n)
  {
  }

  /** The lines covered from one documented statement on. */
  method CoverFrom(lines: seq<Line>, st: seq<Statement>, p: nat) returns (covered: set<int>)
    requires Grouped(lines, st, |lines|) && p < |st| && Documented(lines, st[p].start)
    ensures Collects(covered, lines, st, p, |st|)
  {
    hide *;
    covered := {};
    var first := st[p].start;
    var q := p;
    NothingBefore(lines, st, p);
    while q < |st|
      invariant p <= q <= |st|
      invariant q > p ==> Reaches(lines, st, p, q - 1)
      invariant Collects(covered, lines, st, p, q)
    {
      StartsInOrder(lines, st, p, q);
      var block := st[q];
      var apart := false;
      if q > p { apart := AnyBlank(lines, st[q - 1], block); }
      if !block.candidate || block.start - first >= MAX_COVERAGE_LINES || apart {
        NoFurther(covered, lines, st, p, q);
        break;
      }
      ReachesOn(lines, st, p, q);
      var stop := if block.end + 2 <= first + MAX_COVERAGE_LINES + 1 then block.end + 2
                  else first + MAX_COVERAGE_LINES + 1;
      RoundCovers(lines, st, p, q, covered, stop);
      covered := covered + Range(block.start + 1, stop);
      q := q + 1;
    }
  }

  lemma RoundCovers(lines: seq<Line>, st: seq<Statement>, p: nat, q: nat, covered: set<int>, stop: int)
    requires Grouped(lines, st, |lines|) && p <= q < |st| && Reaches(lines, st, p, q) && Documented(lines, st[p].start)
    requires Collects(covered, lines, st, p, q)
    requires stop == if st[q].end + 2 <= st[p].start + MAX_COVERAGE_LINES + 1 then st[q].end + 2
                     else st[p].start + MAX_COVERAGE_LINES + 1
    ensures Collects(covered + Range(st[q].start + 1, stop), lines, st, p, q + 1)
  {
    hide Documented, Grouped, Reaches, CoveredVia, CoveredBefore, Range;
    StartsInOrder(lines, st, p, p);
    var more := covered + Range(st[q].start + 1, stop);
    forall n
      ensures n in more <==> CoveredBefore(lines, st, p, q + 1, n)
    {
      CoveredNext(lines, st, p, q, n);
      ViaMeans(lines, st, p, q, n);
    }
  }

  lemma NothingBefore(lines: seq<Line>, st: seq<Statement>, p: nat)
    requires p < |st|
    ensures Collects({}, lines, st, p, p)
  {
  }

  lemma ViaMeans(lines: seq<Line>, st: seq<Statement>, p: nat, q: nat, n: int)
    requires p <= q < |st| && st[p].start <= |lines|
    requires Reaches(lines, st, p, q) && Documented(lines, st[p].start)
    ensures CoveredVia(lines, st, p, q, n) <==>
              st[q].start < n <= st[q].end + 1 && n <= st[p].start + MAX_COVERAGE_LINES
  {
  }

  lemma ReachesOn(lines: seq<Line>, st: seq<Statement>, p: nat, q: nat)
    requires p <= q < |st| && st[q].candidate && st[q].start - st[p].start < MAX_COVERAGE_LINES
    requires q > p ==> Reaches(lines, st, p, q - 1) && Adjoins(lines, st[q - 1], st[q])
    ensures Reaches(lines, st, p, q)
  {
  }

  lemma NoFurther(covered: set<int>, lines: seq<Line>, st: seq<Statement>, p: nat, q: nat)
    requires p <= q < |st| && Collects(covered, lines, st, p, q)
    requires !st[q].candidate || st[q].start - st[p].start >= MAX_COVERAGE_LINES
             || (q > p && !Adjoins(lines, st[q - 1], st[q]))
    ensures Collects(covered, lines, st, p, |st|)
  {
  }

  /** The covered line numbers are exactly those that some documented statement covers. */
  method CoveredLines(lines: seq<Line>) returns (covered: set<int>, st: seq<Statement>)
    requires forall l | l in lines :: l.safety ==> l.comment
    ensures Grouped(lines, st, |lines|)
    ensures forall n :: n in covered <==> Covered(lines, st, n)
  {
    st := Group(lines);
    covered := {};
    for p := 0 to |st|
      invariant forall n :: n in covered <==> CoveredUpTo(lines, st, p, n)
    {
      StartsInOrder(lines, st, p, p);
      var documented := HasSafety(lines, st[p].start);
      var more := {};
      if st[p].candidate && documented {
        more := CoverFrom(lines, st, p);
      } else {
        NothingCovered(lines, st, p);
      }
      forall n
        ensures CoveredUpTo(lines, st, p + 1, n) <==> n in covered || n in more
      {
        UpToNext(lines, st, p, n);
      }
      covered := covered + more;
    }
    AllStarts(lines, st);
  }

  /** Some statement before the p-th covers line n. */
  ghost predicate CoveredUpTo(lines: seq<Line>, st: seq<Statement>, p: nat, n: int) {
    exists r: nat :: r < p && CoveredBefore(lines, st, r, |st|, n)
  }

  lemma UpToNext(lines: seq<Line>, st: seq<Statement>, p: nat, n: int)
    ensures CoveredUpTo(lines, st, p + 1, n) <==> CoveredUpTo(lines, st, p, n) || CoveredBefore(lines, st, p, |st|, n)
  {
  }

  lemma NothingCovered(lines: seq<Line>, st: seq<Statement>, p: nat)
    requires p < |st| && st[p].start <= |lines| && !(st[p].candidate && Documented(lines, st[p].start))
    ensures forall n :: !CoveredBefore(lines, st, p, |st|, n)
  {
  }

  lemma AllStarts(lines: seq<Line>, st: seq<Statement>)
    ensures forall n :: CoveredUpTo(lines, st, |st|, n) <==> Covered(lines, st, n)
  {
    forall n | Covered(lines, st, n)
      ensures CoveredUpTo(lines, st, |st|, n)
    {
      var p: nat, q: nat :| q < |st| && CoveredVia(lines, st, p, q, n);
      assert CoveredBefore(lines, st, p, |st|, n);
    }
  }

  /** The lines reported: unsafe candidates that nothing covers. */
  method Scan(lines: seq<Line>) returns (findings: seq<int>, st: seq<Statement>)
    requires forall l | l in lines :: l.safety ==> l.comment
    ensures Grouped(lines, st, |lines|)
    ensures forall n :: n in findings <==> 1 <= n <= |lines| && lines[n - 1].candidate && !Covered(lines, st, n)
  {
    hide *;
    var covered;
    covered, st := CoveredLines(lines);
    findings := [];
    for index := 0 to |lines|
      invariant forall n :: n in findings <==> 1 <= n <= index && lines[n - 1].candidate && n !in covered
    {
      if lines[index].candidate && index + 1 !in covered { findings := findings + [index + 1]; }
    }
  }
}

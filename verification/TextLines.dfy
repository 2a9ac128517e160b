/** Lines of a text as Python's `str.splitlines` finds them, and white space as `str.isspace` and `\s` know it. */
module TextLines {

  predicate IsSpace(c: char) {
    var n := c as int;
    || 0x09 <= n <= 0x0D || 0x1C <= n <= 0x20 || n == 0x85 || n == 0xA0 || n == 0x1680
    || 0x2000 <= n <= 0x200A || n == 0x2028 || n == 0x2029 || n == 0x202F || n == 0x205F || n == 0x3000
  }

  /** What ends a line. CR LF is one end. */
  predicate IsBreak(c: char) {
    var n := c as int;
    0x0A <= n <= 0x0D || 0x1C <= n <= 0x1E || n == 0x85 || n == 0x2028 || n == 0x2029
  }

  /** Character i is the last one of a line end. */
  predicate EndsLine(s: string, i: nat)
    requires i < |s|
  {
    IsBreak(s[i]) && !(s[i] == '\r' && i + 1 < |s| && s[i + 1] == '\n')
  }

  predicate StartsLine(s: string, i: nat)
    requires i < |s|
  {
    i == 0 || EndsLine(s, i - 1)
  }

  /** The positions before the n-th at which a line starts. */
  function StartsTo(s: string, n: nat): seq<nat>
    requires n <= |s|
  {
    if n == 0 then [] else StartsTo(s, n - 1) + if StartsLine(s, n - 1) then [n - 1] else []
  }

  /** Where the lines of a text start. A line end at the end of the text starts no line. */
  function Starts(s: string): seq<nat> { StartsTo(s, |s|) }

  lemma {:induction false} StartsRise(s: string, n: nat)
    requires n <= |s|
    ensures forall k | 0 <= k < |StartsTo(s, n)| :: StartsTo(s, n)[k] < n && StartsLine(s, StartsTo(s, n)[k])
    ensures forall j, k | 0 <= j < k < |StartsTo(s, n)| :: StartsTo(s, n)[j] < StartsTo(s, n)[k]
    ensures forall i: nat | i < n && StartsLine(s, i) :: i in StartsTo(s, n)
  {
    if n > 0 { StartsRise(s, n - 1); }
  }

  /** The list up to its k-th entry is the list of the starts up to there. */
  lemma {:induction false} StartsPrefix(s: string, n: nat, k: nat)
    requires n <= |s| && k < |StartsTo(s, n)|
    ensures StartsTo(s, n)[k] < n && StartsTo(s, StartsTo(s, n)[k] + 1) == StartsTo(s, n)[..k + 1]
  {
    if k < |StartsTo(s, n - 1)| { StartsPrefix(s, n - 1, k); }
  }

  lemma {:induction false} StartsGrow(s: string, m: nat, n: nat)
    requires m <= n <= |s|
    ensures StartsTo(s, m) <= StartsTo(s, n)
  {
    if m < n { StartsGrow(s, m, n - 1); }
  }

  /** The first line end at or after a position. */
  function LineEnd(s: string, from: nat): (end: nat)
    requires from <= |s|
    ensures from <= end <= |s| && (end == |s| || IsBreak(s[end]))
    ensures forall i | from <= i < end :: !IsBreak(s[i])
    decreases |s| - from
  {
    if from == |s| || IsBreak(s[from]) then from else LineEnd(s, from + 1)
  }

  function LineFrom(s: string, start: nat): string
    requires start <= |s|
  {
    s[start..LineEnd(s, start)]
  }

  function LineCount(s: string): nat { |Starts(s)| }

  function StartOf(s: string, k: nat): (start: nat)
    requires k < LineCount(s)
    ensures start < |s|
  {
    StartsRise(s, |s|);
    Starts(s)[k]
  }

  /** Line k, without its line end. */
  function LineOf(s: string, k: nat): string
    requires k < LineCount(s)
  {
    LineFrom(s, StartOf(s, k))
  }

  /** Where the next line starts, or the end of the text. */
  function NextStart(s: string, k: nat): nat
    requires k < LineCount(s)
  {
    if k + 1 < LineCount(s) then StartOf(s, k + 1) else |s|
  }

  /** Between two starts that follow one another there is no other. */
  lemma NextStartIs(s: string, k: nat, next: nat)
    requires k < LineCount(s) && StartOf(s, k) < next <= |s|
    requires forall i: nat | StartOf(s, k) < i < next :: !StartsLine(s, i)
    requires next < |s| ==> StartsLine(s, next)
    ensures NextStart(s, k) == next && (next == |s| <==> k + 1 == LineCount(s))
  {
    StartsRise(s, |s|);
    hide StartsLine, StartsTo;
    if next < |s| {
      var m :| 0 <= m < |Starts(s)| && Starts(s)[m] == next;
      assert m > k;
    }
  }

  /** The line end behind line k starts at the first break character, and the next line right behind it. */
  lemma LineEndsAt(s: string, k: nat)
    requires k < LineCount(s)
    ensures var start, end := StartOf(s, k), LineEnd(s, StartOf(s, k));
            && NextStart(s, k) == (if end == |s| then |s| else if EndsLine(s, end) then end + 1 else end + 2)
            && (k + 1 == LineCount(s) <==> NextStart(s, k) == |s|)
  {
    hide StartsTo, Starts, LineEnd, StartOf, NextStart, LineCount;
    var start, end := StartOf(s, k), LineEnd(s, StartOf(s, k));
    forall i: nat | start < i <= end && i < |s|
      ensures !StartsLine(s, i)
    {
      assert !IsBreak(s[i - 1]);
    }
    if end == |s| {
      NextStartIs(s, k, |s|);
    } else if EndsLine(s, end) {
      NextStartIs(s, k, end + 1);
    } else {
      assert EndsLine(s, end + 1);
      NextStartIs(s, k, end + 2);
    }
  }

  /** A text is its lines, each followed by one line end, which is a single character or CR LF and which only the
      last line may lack; no line holds a line end. */
  lemma LinesMakeTheText(s: string, k: nat)
    requires k < LineCount(s)
    ensures StartOf(s, 0) == 0 && StartOf(s, k) + |LineOf(s, k)| <= NextStart(s, k) <= |s|
    ensures LineOf(s, k) == s[StartOf(s, k)..StartOf(s, k) + |LineOf(s, k)|]
    ensures forall c | c in LineOf(s, k) :: !IsBreak(c)
    ensures var end := s[StartOf(s, k) + |LineOf(s, k)|..NextStart(s, k)];
            if end == [] then k + 1 == LineCount(s) else end == "\r\n" || (|end| == 1 && IsBreak(end[0]))
    ensures k + 1 == LineCount(s) <==> NextStart(s, k) == |s|
  {
    FirstStart(s);
    LineEndsAt(s, k);
    hide StartsTo, Starts;
  }

  lemma FirstStart(s: string)
    requires LineCount(s) > 0
    ensures StartOf(s, 0) == 0
  {
    StartsRise(s, |s|);
    assert StartsLine(s, 0);
  }
}

/** What stripping does to a text, said of the text alone: where literals and comments end, and that nothing else
    changes. */
module SafetyLiterals {
  import opened SafetyLexer

  // ----- Literals -----

  /** n quotes stand at position j. */
  predicate QuotesAt(s: string, j: nat, q: char, n: nat) {
    j + n <= |s| && forall k | j <= k < j + n :: s[k] == q
  }

  /** The backslashes in a row right before position j, none of them before `from`. */
  function Backslashes(s: string, from: nat, j: nat): nat
    requires from <= j <= |s|
    decreases j
  {
    if j == from || s[j - 1] != '\\' then 0 else 1 + Backslashes(s, from, j - 1)
  }

  /** A literal opens the text: with three quotes if there are three, otherwise with one. */
  predicate OpensWith(s: string, q: char, n: nat) {
    IsQuote(q) && n == (if QuotesAt(s, 0, q, 3) then 3 else 1) && QuotesAt(s, 0, q, n)
  }

  /** As many quotes close it at j, with an even number of backslashes in a row before them. */
  predicate ClosesAt(s: string, q: char, n: nat, j: nat) {
    n <= j <= |s| && QuotesAt(s, j, q, n) && Backslashes(s, n, j) % 2 == 0
  }

  /** The literal that opens the text ends before position e. */
  ghost predicate LiteralEnds(s: string, q: char, n: nat, e: nat) {
    OpensWith(s, q, n) && n <= e && ClosesAt(s, q, n, e - n) && forall j: nat | j < e - n :: !ClosesAt(s, q, n, j)
  }

  /** It is never closed. */
  ghost predicate NeverEnds(s: string, q: char, n: nat) {
    OpensWith(s, q, n) && forall j: nat :: !ClosesAt(s, q, n, j)
  }

  /** A comment opens the text and its line ends at e. */
  ghost predicate CommentEnds(s: string, e: nat) {
    0 < e <= |s| && s[0] == '#' && (forall k | 0 < k < e :: s[k] != '\n') && (e == |s| || s[e] == '\n')
  }

  function Blanked(s: string): (r: string)
    ensures |r| == |s| && forall k | 0 <= k < |s| :: r[k] == if s[k] == '\n' then '\n' else ' '
  {
    seq(|s|, k requires 0 <= k < |s| => if s[k] == '\n' then '\n' else ' ')
  }

  // ----- The laws -----

  /** A stripper blanks a literal up to the quotes that close it, a comment up to its line end, and a literal that is
      never closed to the end of the text. It keeps every other character, and strips what follows any of these as if
      that stood alone. */
  ghost predicate Strips(f: string -> string) {
    && f([]) == []
    && (forall s | s != [] && s[0] != '#' && !IsQuote(s[0]) :: f(s) == [s[0]] + f(s[1..]))
    && (forall s, e: nat | CommentEnds(s, e) :: f(s) == Blanked(s[..e]) + f(s[e..]))
    && (forall s, q, n: nat, e: nat | LiteralEnds(s, q, n, e) :: f(s) == Blanked(s[..e]) + f(s[e..]))
    && (forall s, q, n: nat | NeverEnds(s, q, n) :: f(s) == Blanked(s))
  }

  // ----- Stripping is one -----

  lemma {:induction false} ModesMove(s: string, i: nat, k: nat)
    requires i + k <= |s| && ModeAt(s, i) == Code
    ensures ModeAt(s, i + k) == ModeAt(s[i..], k)
  {
    if k > 0 {
      ModesMove(s, i, k - 1);
      assert s[i..][k - 1] == s[i + k - 1];
      assert TripleAt(s[i..], k - 1) == TripleAt(s, i + k - 1);
    }
  }

  lemma ShownAlone(s: string, i: nat, k: nat)
    requires i <= k < |s| && ModeAt(s, i) == Code
    ensures |Clean(s)| == |s| && |Clean(s[i..])| == |s| - i && Clean(s)[k] == Clean(s[i..])[k - i]
  {
    ShownAt(s, k);
    ShownAt(s[i..], k - i);
    ModesMove(s, i, k - i);
    hide ModeAt, CleanTo, Clean;
  }

  lemma ShownBefore(s: string, i: nat, k: nat)
    requires k < i <= |s|
    ensures |Clean(s)| == |s| && Clean(s)[k] == CleanTo(s, i)[k]
  {
    ShownAt(s, k);
    CleanAt(s, i, k);
  }

  lemma InTwoParts(whole: string, first: string, rest: string)
    requires |whole| == |first| + |rest|
    requires forall k | 0 <= k < |first| :: whole[k] == first[k]
    requires forall k | |first| <= k < |whole| :: whole[k] == rest[k - |first|]
    ensures whole == first + rest
  {
  }

  lemma CleanLength(s: string)
    ensures |Clean(s)| == |s|
  {
  }

  /** What follows a place in code is stripped as if it stood alone. */
  lemma StrippedAlone(s: string, i: nat)
    requires i <= |s| && ModeAt(s, i) == Code
    ensures Clean(s) == CleanTo(s, i) + Clean(s[i..])
  {
    hide ModeAt, Clean, CleanTo;
    CleanLength(s);
    CleanLength(s[i..]);
    forall k: nat | k < i
      ensures Clean(s)[k] == CleanTo(s, i)[k]
    {
      ShownBefore(s, i, k);
    }
    forall k: nat | i <= k < |s|
      ensures Clean(s)[k] == Clean(s[i..])[k - i]
    {
      ShownAlone(s, i, k);
    }
    InTwoParts(Clean(s), CleanTo(s, i), Clean(s[i..]));
  }

  /** Up to where it is closed, the reader is inside the literal, escaped exactly behind an odd number of
      backslashes. */
  lemma {:induction false} InsideLiteral(s: string, q: char, n: nat, k: nat)
    requires OpensWith(s, q, n) && n <= k <= |s| && forall j: nat | j < k :: !ClosesAt(s, q, n, j)
    ensures ModeAt(s, k) == Quoted(q, n == 3, Backslashes(s, n, k) % 2 == 1)
  {
    if k == n {
      Opened(s, q, n);
    } else {
      InsideLiteral(s, q, n, k - 1);
      assert !ClosesAt(s, q, n, k - 1);
      assert ModeAt(s, k) == Next(ModeAt(s, k - 1), s, k - 1);
      assert s[k - 1] == q ==> (QuotesAt(s, k - 1, q, 3) <==> TripleAt(s, k - 1));
    }
  }

  lemma Opened(s: string, q: char, n: nat)
    requires OpensWith(s, q, n)
    ensures forall k: nat | k < n :: ModeAt(s, k) != Code || s[k] == q
    ensures ModeAt(s, n) == Quoted(q, n == 3, false)
  {
    assert s[0] == q && (QuotesAt(s, 0, q, 3) <==> TripleAt(s, 0));
    assert ModeAt(s, 0) == Code && ModeAt(s, 1) == Next(Code, s, 0);
    if n == 3 {
      assert ModeAt(s, 2) == Next(ModeAt(s, 1), s, 1);
      assert ModeAt(s, 3) == Next(ModeAt(s, 2), s, 2);
    }
  }

  lemma Closed(s: string, q: char, n: nat, j: nat)
    requires (n == 1 || n == 3) && IsQuote(q) && QuotesAt(s, j, q, n) && ModeAt(s, j) == Quoted(q, n == 3, false)
    ensures forall k: nat | j <= k < j + n :: ModeAt(s, k) != Code
    ensures ModeAt(s, j + n) == Code
  {
    assert s[j] == q && (n == 3 ==> TripleAt(s, j));
    assert ModeAt(s, j + 1) == Next(ModeAt(s, j), s, j);
    if n == 3 {
      assert ModeAt(s, j + 2) == Next(ModeAt(s, j + 1), s, j + 1);
      assert ModeAt(s, j + 3) == Next(ModeAt(s, j + 2), s, j + 2);
    }
  }

  /** Characters met outside code, and quotes and comment signs, are blanked. */
  lemma BlankedTo(s: string, e: nat)
    requires e <= |s| && forall k: nat | k < e :: ModeAt(s, k) != Code || s[k] == '#' || IsQuote(s[k])
    ensures CleanTo(s, e) == Blanked(s[..e])
  {
    forall k: nat | k < e
      ensures CleanTo(s, e)[k] == Blanked(s[..e])[k]
    {
      CleanAt(s, e, k);
    }
  }

  lemma LiteralIsBlanked(s: string, q: char, n: nat, e: nat)
    requires LiteralEnds(s, q, n, e)
    ensures e <= |s| && Clean(s) == Blanked(s[..e]) + Clean(s[e..])
  {
    Opened(s, q, n);
    forall k: nat | n <= k <= e - n
      ensures ModeAt(s, k) == Quoted(q, n == 3, Backslashes(s, n, k) % 2 == 1)
    {
      InsideLiteral(s, q, n, k);
    }
    Closed(s, q, n, e - n);
    hide ModeAt;
    BlankedTo(s, e);
    StrippedAlone(s, e);
  }

  lemma OpenLiteralIsBlanked(s: string, q: char, n: nat)
    requires NeverEnds(s, q, n)
    ensures Clean(s) == Blanked(s)
  {
    Opened(s, q, n);
    forall k: nat | n <= k <= |s|
      ensures ModeAt(s, k) == Quoted(q, n == 3, Backslashes(s, n, k) % 2 == 1)
    {
      InsideLiteral(s, q, n, k);
    }
    hide ModeAt;
    BlankedTo(s, |s|);
    assert s[..|s|] == s;
  }

  lemma {:induction false} InsideComment(s: string, e: nat, k: nat)
    requires CommentEnds(s, e) && 0 < k <= e
    ensures ModeAt(s, k) == Comment
  {
    assert ModeAt(s, k) == Next(ModeAt(s, k - 1), s, k - 1);
    if k > 1 { InsideComment(s, e, k - 1); }
  }

  lemma CommentIsBlanked(s: string, e: nat)
    requires CommentEnds(s, e)
    ensures Clean(s) == Blanked(s[..e]) + Clean(s[e..])
  {
    CommentModes(s, e);
    hide ModeAt, CleanTo, Clean;
    BlankedTo(s, e);
    if e == |s| {
      assert s[..e] == s && s[e..] == [];
      NothingLeft(s);
    } else {
      OneStep(s, e);
      StrippedAlone(s, e + 1);
      PlainIsKept(s[e..]);
      assert s[e..][1..] == s[e + 1..];
    }
  }

  lemma CommentModes(s: string, e: nat)
    requires CommentEnds(s, e)
    ensures forall k: nat | 0 < k <= e :: ModeAt(s, k) == Comment
  {
    forall k: nat | 0 < k <= e
      ensures ModeAt(s, k) == Comment
    {
      InsideComment(s, e, k);
    }
  }

  lemma NothingLeft(s: string)
    ensures Clean(s) == CleanTo(s, |s|) && Clean([]) == []
  {
  }

  lemma PlainIsKept(s: string)
    requires s != [] && s[0] != '#' && !IsQuote(s[0])
    ensures Clean(s) == [s[0]] + Clean(s[1..])
  {
    assert ModeAt(s, 1) == Next(ModeAt(s, 0), s, 0) == Code;
    StrippedAlone(s, 1);
    assert CleanTo(s, 1) == CleanTo(s, 0) + [s[0]];
  }

  /** Stripping obeys the laws. */
  lemma CleanStrips()
    ensures Strips(Clean)
  {
    forall s | s != [] && s[0] != '#' && !IsQuote(s[0])
      ensures Clean(s) == [s[0]] + Clean(s[1..])
    {
      PlainIsKept(s);
    }
    forall s, e: nat | CommentEnds(s, e)
      ensures Clean(s) == Blanked(s[..e]) + Clean(s[e..])
    {
      CommentIsBlanked(s, e);
    }
    forall s, q, n: nat, e: nat | LiteralEnds(s, q, n, e)
      ensures Clean(s) == Blanked(s[..e]) + Clean(s[e..])
    {
      LiteralIsBlanked(s, q, n, e);
    }
    forall s, q, n: nat | NeverEnds(s, q, n)
      ensures Clean(s) == Blanked(s)
    {
      OpenLiteralIsBlanked(s, q, n);
    }
  }

  // ----- And there is no other -----

  /** Every literal that opens a text ends somewhere or never. */
  lemma {:induction false} FirstClosing(s: string, q: char, n: nat, from: nat)
    requires OpensWith(s, q, n) && from <= |s| + 1 && forall j: nat | j < from :: !ClosesAt(s, q, n, j)
    ensures NeverEnds(s, q, n) || exists e: nat :: LiteralEnds(s, q, n, e)
    decreases |s| + 1 - from
  {
    if from <= |s| {
      if ClosesAt(s, q, n, from) {
        assert LiteralEnds(s, q, n, from + n);
      } else {
        FirstClosing(s, q, n, from + 1);
      }
    }
  }

  function NewlineFrom(s: string, from: nat): (e: nat)
    requires from <= |s|
    ensures from <= e <= |s| && (e == |s| || s[e] == '\n') && forall k | from <= k < e :: s[k] != '\n'
    decreases |s| - from
  {
    if from == |s| || s[from] == '\n' then from else NewlineFrom(s, from + 1)
  }

  /** The laws leave nothing open: whatever obeys them strips exactly as the reader does. */
  lemma {:induction false} OneStripper(f: string -> string, s: string)
    requires Strips(f)
    ensures f(s) == Clean(s)
    decreases |s|
  {
    CleanStrips();
    if s == [] {
      assert Clean([]) == [];
    } else if s[0] == '#' {
      var e := NewlineFrom(s, 1);
      assert CommentEnds(s, e);
      OneStripper(f, s[e..]);
    } else if IsQuote(s[0]) {
      var n := if QuotesAt(s, 0, s[0], 3) then 3 else 1;
      assert OpensWith(s, s[0], n);
      FirstClosing(s, s[0], n, 0);
      if e: nat :| LiteralEnds(s, s[0], n, e) {
        OneStripper(f, s[e..]);
      }
    } else {
      OneStripper(f, s[1..]);
    }
  }
}

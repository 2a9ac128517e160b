/** Stripping comments and string literals from source text before it is searched for unsafe operations. */
module SafetyLexer {

  // ----- Stripping -----

  /** Where the reader stands before a character: in code, in a comment, inside a literal, or in the rest of an
      opening or closing triple quote. */
  datatype Mode =
    | Code
    | Comment
    | Quoted(quote: char, triple: bool, escaped: bool)
    | Opening(quote: char, left: nat)
    | Closing(left: nat)

  predicate IsQuote(c: char) { c == '\'' || c == '"' }

  function Blank(c: char): char { if c == '\n' then c else ' ' }

  predicate TripleAt(s: string, i: nat) {
    i + 3 <= |s| && s[i] == s[i + 1] == s[i + 2]
  }

  /** One character, read with two more in sight. */
  function Next(mode: Mode, s: string, i: nat): Mode
    requires i < |s|
  {
    var c := s[i];
    match mode
    case Code =>
      if c == '#' then Comment
      else if IsQuote(c) then (if TripleAt(s, i) then Opening(c, 2) else Quoted(c, false, false))
      else Code
    case Comment => if c == '\n' then Code else Comment
    case Quoted(quote, triple, escaped) =>
      if c == '\n' || escaped then Quoted(quote, triple, false)
      else if c == '\\' then Quoted(quote, triple, true)
      else if c == quote && !triple then Code
      else if c == quote && TripleAt(s, i) then Closing(2)
      else mode
    case Opening(quote, left) => if left <= 1 then Quoted(quote, true, false) else Opening(quote, left - 1)
    case Closing(left) => if left <= 1 then Code else Closing(left - 1)
  }

  /** What that character becomes. */
  function Shown(mode: Mode, c: char): char {
    if mode == Code && c != '#' && !IsQuote(c) then c else Blank(c)
  }

  /** The mode character i is met in. */
  function ModeAt(s: string, i: nat): Mode
    requires i <= |s|
  {
    if i == 0 then Code else Next(ModeAt(s, i - 1), s, i - 1)
  }

  /** The first n characters, stripped. */
  function CleanTo(s: string, n: nat): (r: string)
    requires n <= |s|
    ensures |r| == n
  {
    if n == 0 then [] else CleanTo(s, n - 1) + [Shown(ModeAt(s, n - 1), s[n - 1])]
  }

  function Clean(s: string): string { CleanTo(s, |s|) }

  /** Every character is kept or blanked according to the mode it is met in. */
  lemma {:induction false} CleanAt(s: string, n: nat, k: nat)
    requires k < n <= |s|
    ensures CleanTo(s, n)[k] == Shown(ModeAt(s, k), s[k])
    decreases n
  {
    if k < n - 1 { CleanAt(s, n - 1, k); }
  }

  lemma ShownAt(s: string, k: nat)
    requires k < |s|
    ensures |Clean(s)| == |s| && Clean(s)[k] == Shown(ModeAt(s, k), s[k])
  {
    CleanAt(s, |s|, k);
  }

  /** Lines and columns stay put, newlines included, and no quote and no comment sign is left. */
  lemma CleanKeepsLayout(s: string, k: nat)
    requires k < |s|
    ensures Clean(s)[k] == '\n' <==> s[k] == '\n'
    ensures Clean(s)[k] == s[k] || Clean(s)[k] == ' '
    ensures Clean(s)[k] != '#' && !IsQuote(Clean(s)[k])
  {
    ShownAt(s, k);
  }

  lemma {:induction false} PlainIsUnchanged(s: string, n: nat)
    requires n <= |s| && forall k | 0 <= k < |s| :: s[k] != '#' && !IsQuote(s[k])
    ensures ModeAt(s, n) == Code && CleanTo(s, n) == s[..n]
  {
    if n > 0 { PlainIsUnchanged(s, n - 1); }
  }

  /** Stripping again changes nothing. */
  lemma CleanIdempotent(s: string)
    ensures Clean(Clean(s)) == Clean(s)
  {
    var t := Clean(s);
    forall k: nat | k < |t|
      ensures t[k] != '#' && !IsQuote(t[k])
    {
      CleanKeepsLayout(s, k);
    }
    PlainIsUnchanged(t, |t|);
  }

  /** In code, or in a comment that is about to end. */
  ghost predicate Between(s: string, i: nat)
    requires i <= |s|
  {
    ModeAt(s, i) == Code || (ModeAt(s, i) == Comment && (i == |s| || s[i] == '\n'))
  }

  /** A triple quote is read at one go. */
  lemma TripleSteps(s: string, i: nat)
    requires i < |s| && TripleAt(s, i) && IsQuote(s[i])
    ensures CleanTo(s, i + 3) == CleanTo(s, i) + "   "
    ensures ModeAt(s, i) == Code ==> ModeAt(s, i + 3) == Quoted(s[i], true, false)
    ensures ModeAt(s, i) == Quoted(s[i], true, false) ==> ModeAt(s, i + 3) == Code
  {
    assert ModeAt(s, i + 1) == Next(ModeAt(s, i), s, i);
    assert ModeAt(s, i + 2) == Next(ModeAt(s, i + 1), s, i + 1);
    assert ModeAt(s, i + 3) == Next(ModeAt(s, i + 2), s, i + 2);
    assert CleanTo(s, i + 1) == CleanTo(s, i) + " ";
    assert CleanTo(s, i + 2) == CleanTo(s, i + 1) + " ";
    assert CleanTo(s, i + 3) == CleanTo(s, i + 2) + " ";
  }

  lemma OneStep(s: string, i: nat)
    requires i < |s|
    ensures CleanTo(s, i + 1) == CleanTo(s, i) + [Shown(ModeAt(s, i), s[i])]
    ensures ModeAt(s, i + 1) == Next(ModeAt(s, i), s, i)
  {
  }

  /** The reader's loop, which takes a triple quote and the rest of a comment at one go. */
  method Sanitize(source: string) returns (out: string)
    ensures out == Clean(source)
  {
    out := [];
    var i, quote, triple, escaped, inside := 0, ' ', false, false, false;
    while i < |source|
      invariant i <= |source| && out == CleanTo(source, i)
      invariant inside ==> IsQuote(quote) && ModeAt(source, i) == Quoted(quote, triple, escaped)
      invariant !inside ==> Between(source, i)
      decreases |source| - i
    {
      if inside {
        var blanks;
        i, blanks, inside, escaped := ReadQuoted(source, i, quote, triple, escaped);
        out := out + blanks;
      } else {
        var more;
        i, more, inside, quote, triple := ReadCode(source, i);
        out, escaped := out + more, false;
      }
    }
  }

  /** One round of the loop inside a literal. */
  method ReadQuoted(source: string, i: nat, quote: char, triple: bool, escaped: bool)
    returns (next: nat, blanks: string, inside: bool, escapes: bool)
    requires i < |source| && IsQuote(quote) && ModeAt(source, i) == Quoted(quote, triple, escaped)
    ensures i < next <= |source| && CleanTo(source, next) == CleanTo(source, i) + blanks
    ensures inside ==> ModeAt(source, next) == Quoted(quote, triple, escapes)
    ensures !inside ==> Between(source, next)
  {
    OneStep(source, i);
    hide CleanTo, ModeAt;
    var ch := source[i];
    next, inside, escapes := i + 1, true, false;
    if ch == '\n' {
      blanks := "\n";
    } else if escaped {
      blanks := " ";
    } else if ch == '\\' {
      blanks, escapes := " ", true;
    } else if ch == quote && !triple {
      blanks, inside := " ", false;
    } else if ch == quote && TripleAt(source, i) {
      TripleSteps(source, i);
      next, blanks, inside := i + 3, "   ", false;
    } else {
      blanks := " ";
    }
  }

  /** One round of the loop outside. */
  method ReadCode(source: string, i: nat) returns (next: nat, more: string, inside: bool, quote: char, triple: bool)
    requires i < |source| && Between(source, i)
    ensures i < next <= |source| && CleanTo(source, next) == CleanTo(source, i) + more
    ensures inside ==> IsQuote(quote) && ModeAt(source, next) == Quoted(quote, triple, false)
    ensures !inside ==> Between(source, next)
  {
    OneStep(source, i);
    hide CleanTo, ModeAt;
    var ch := source[i];
    inside, quote, triple := false, ' ', false;
    if ch == '#' {
      next, more := SkipComment(source, i);
    } else if IsQuote(ch) {
      triple, quote, inside := TripleAt(source, i), ch, true;
      if triple {
        TripleSteps(source, i);
        next, more := i + 3, "   ";
      } else {
        next, more := i + 1, " ";
      }
    } else {
      next, more := i + 1, [ch];
    }
  }

  /** Blanks a comment up to its line end. */
  method SkipComment(source: string, start: nat) returns (i: nat, blanks: string)
    requires start < |source| && source[start] == '#' && ModeAt(source, start) == Code
    ensures start < i <= |source| && Between(source, i)
    ensures CleanTo(source, i) == CleanTo(source, start) + blanks
  {
    i, blanks := start, [];
    while i < |source| && source[i] != '\n'
      invariant start <= i <= |source| && CleanTo(source, i) == CleanTo(source, start) + blanks
      invariant ModeAt(source, i) == if i == start then Code else Comment
    {
      hide CleanTo;
      OneStep(source, i);
      i, blanks := i + 1, blanks + " ";
    }
  }
}

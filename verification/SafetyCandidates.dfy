/** The ten patterns of unsafe operations, as tests on a line. `word` says which characters are word characters. */
module SafetyCandidates {
  import opened TextLines
  import opened SafetyText

  predicate IsNameChar(c: char) {
    'A' <= c <= 'Z' || 'a' <= c <= 'z' || '0' <= c <= '9' || c == '_'
  }

  /** White space and then the given character. */
  predicate Opens(rest: string, c: char) { [c] <= SkipSpace(rest) }

  /** `name` stands at position k. */
  predicate NameAt(line: string, k: nat, name: string) {
    k <= |line| && name <= line[k..]
  }

  /** And no longer word ends with it on the left. */
  predicate WordAt(line: string, k: nat, name: string, word: char -> bool) {
    NameAt(line, k, name) && (k == 0 || !word(line[k - 1]))
  }

  /** `name`, white space and the given character, somewhere in the line. */
  predicate Calls(line: string, name: string, c: char) {
    exists k: nat | k <= |line| :: NameAt(line, k, name) && Opens(line[k + |name|..], c)
  }

  predicate CallsWord(line: string, name: string, c: char, word: char -> bool) {
    exists k: nat | k <= |line| :: WordAt(line, k, name, word) && Opens(line[k + |name|..], c)
  }

  /** The same with at least `least` more name characters after `name`. */
  predicate CallsPrefixed(line: string, name: string, least: nat, c: char, word: char -> bool) {
    exists k: nat, m: nat | k <= |line| && m <= |line| :: PrefixedAt(line, k, m, name, least, c, word)
  }

  predicate PrefixedAt(line: string, k: nat, m: nat, name: string, least: nat, c: char, word: char -> bool) {
    && WordAt(line, k, name, word) && k + |name| + least <= m <= |line|
    && (forall i | k + |name| <= i < m :: IsNameChar(line[i])) && Opens(line[m..], c)
  }

  /** A construction may name its parameters in brackets first; the last closing bracket that fits is as good as any
      other. */
  predicate Constructs(line: string, word: char -> bool) {
    exists k: nat | k <= |line| :: ConstructsAt(line, k, word)
  }

  const CONSTRUCTOR := "UnsafePointer"

  predicate ConstructsAt(line: string, k: nat, word: char -> bool) {
    && WordAt(line, k, CONSTRUCTOR, word)
    && var rest := line[k + |CONSTRUCTOR|..];
       Opens(rest, '(') || (Opens(rest, '[') && exists j: nat | j < |SkipSpace(rest)| :: ClosesAt(SkipSpace(rest), j))
  }

  predicate ClosesAt(rest: string, j: nat) {
    0 < j < |rest| && rest[j] == ']' && Opens(rest[j + 1..], '(') && forall i | 0 < i < j :: rest[i] != '\n'
  }

  predicate HasCandidate(line: string, word: char -> bool) {
    || Constructs(line, word)
    || CallsWord(line, "alloc", '[', word)
    || Calls(line, ".free", '(') || Calls(line, ".unsafe_free", '(')
    || CallsPrefixed(line, "unsafe_from_", 1, '=', word) || CallsPrefixed(line, "unsafe_from_", 1, '(', word)
    || Calls(line, ".unsafe_ptr", '(')
    || CallsPrefixed(line, "memset_", 0, '(', word)
    || Calls(line, ".bitcast", '[') || Calls(line, ".unsafe_bitcast", '[')
    || CallsWord(line, "unsafe_offset", '=', word)
    || Calls(line, ".as_unsafe_any_origin", '(')
    || CallsWord(line, "external_call", '[', word)
  }

  lemma {:induction false} SkipSpaceIn(t: string)
    ensures forall c | c in SkipSpace(t) :: c in t
  {
    if t != [] && IsSpace(t[0]) { SkipSpaceIn(t[1..]); }
  }

  lemma OpensIn(line: string, from: nat, c: char)
    requires from <= |line| && Opens(line[from..], c)
    ensures c in line
  {
    var rest := line[from..];
    SkipSpaceIn(rest);
    assert SkipSpace(rest)[0] == c && c in SkipSpace(rest);
    var i :| 0 <= i < |rest| && rest[i] == c;
    assert line[from + i] == c;
  }

  lemma CallsIn(line: string, name: string, c: char)
    requires Calls(line, name, c)
    ensures c in line
  {
    var k: nat :| k <= |line| && NameAt(line, k, name) && Opens(line[k + |name|..], c);
    OpensIn(line, k + |name|, c);
  }

  lemma CallsWordIn(line: string, name: string, c: char, word: char -> bool)
    requires CallsWord(line, name, c, word)
    ensures c in line
  {
    var k: nat :| k <= |line| && WordAt(line, k, name, word) && Opens(line[k + |name|..], c);
    OpensIn(line, k + |name|, c);
  }

  lemma CallsPrefixedIn(line: string, name: string, least: nat, c: char, word: char -> bool)
    requires CallsPrefixed(line, name, least, c, word)
    ensures c in line
  {
    var k: nat, m: nat :| k <= |line| && m <= |line| && PrefixedAt(line, k, m, name, least, c, word);
    OpensIn(line, m, c);
  }

  lemma ConstructsIn(line: string, word: char -> bool)
    requires Constructs(line, word)
    ensures '(' in line || '[' in line
  {
    var k: nat :| k <= |line| && ConstructsAt(line, k, word);
    OpensIn(line, k + |CONSTRUCTOR|, if Opens(line[k + |CONSTRUCTOR|..], '(') then '(' else '[');
  }

  /** Every pattern needs a character that opens a list or an assignment. */
  lemma CandidateOpens(line: string, word: char -> bool)
    requires HasCandidate(line, word)
    ensures '(' in line || '[' in line || '=' in line
  {
    hide Constructs, Calls, CallsWord, CallsPrefixed;
    if Constructs(line, word) {
      ConstructsIn(line, word);
    } else if name :|
        name in [".free", ".unsafe_free", ".unsafe_ptr", ".as_unsafe_any_origin"] && Calls(line, name, '(') {
      CallsIn(line, name, '(');
    } else if name :| name in [".bitcast", ".unsafe_bitcast"] && Calls(line, name, '[') {
      CallsIn(line, name, '[');
    } else if name :| name in ["alloc", "external_call"] && CallsWord(line, name, '[', word) {
      CallsWordIn(line, name, '[', word);
    } else if CallsWord(line, "unsafe_offset", '=', word) {
      CallsWordIn(line, "unsafe_offset", '=', word);
    } else if CallsPrefixed(line, "unsafe_from_", 1, '=', word) {
      CallsPrefixedIn(line, "unsafe_from_", 1, '=', word);
    } else if CallsPrefixed(line, "unsafe_from_", 1, '(', word) {
      CallsPrefixedIn(line, "unsafe_from_", 1, '(', word);
    } else {
      CallsPrefixedIn(line, "memset_", 0, '(', word);
    }
  }

  /** A pointer is freed. */
  lemma FreeIsCandidate(word: char -> bool)
    ensures HasCandidate("p.free()", word)
  {
    var line := "p.free()";
    assert line[1..] == ".free()" && line[6..] == "()";
    assert NameAt(line, 1, ".free") && Opens(line[1 + |".free"|..], '(');
  }
}

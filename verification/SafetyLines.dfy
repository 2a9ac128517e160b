/** What single lines of a text come to, by their characters: blank lines, comments, brackets and calls. */
module SafetyLines {
  import opened TextLines
  import opened SafetyLexer
  import opened SafetyCoverage
  import opened SafetyText
  import opened SafetyCandidates

  predicate AllSpace(t: string) { forall i | 0 <= i < |t| :: IsSpace(t[i]) }

  /** White space `gap`, and behind it `rest`, which does not begin with any. */
  predicate Trims(t: string, gap: string, rest: string) {
    t == gap + rest && AllSpace(gap) && (rest == "" || !IsSpace(rest[0]))
  }

  lemma {:induction false} SkipMeans(t: string) returns (gap: string)
    ensures Trims(t, gap, SkipSpace(t))
  {
    hide IsSpace;
    gap := "";
    if t != "" && IsSpace(t[0]) {
      var more := SkipMeans(t[1..]);
      gap := [t[0]] + more;
      assert t == [t[0]] + t[1..];
      assert forall i | 0 < i < |gap| :: gap[i] == more[i - 1];
    }
  }

  lemma {:induction false} TrimsOnce(t: string, gap: string, rest: string)
    requires Trims(t, gap, rest)
    ensures SkipSpace(t) == rest
  {
    if gap != "" {
      assert t[0] == gap[0] && t[1..] == gap[1..] + rest;
      TrimsOnce(t[1..], gap[1..], rest);
    } else {
      assert t == rest;
    }
  }

  lemma BlankMeans(t: string)
    ensures IsBlank(t) <==> AllSpace(t)
  {
    if IsBlank(t) {
      var gap := SkipMeans(t);
      assert t == gap;
    }
    if AllSpace(t) {
      assert t == t + "";
      TrimsOnce(t, t, "");
    }
  }

  /** White space, the sign and the rest. */
  predicate CommentOf(t: string, gap: string, rest: string) {
    t == gap + "#" + rest && AllSpace(gap)
  }

  lemma SpaceIsNotHash()
    ensures !IsSpace('#') && !IsSpace('S')
  {
  }

  lemma CommentSkips(t: string, gap: string, rest: string)
    requires CommentOf(t, gap, rest)
    ensures SkipSpace(t) == "#" + rest
  {
    SpaceIsNotHash();
    assert t == gap + ("#" + rest);
    TrimsOnce(t, gap, "#" + rest);
  }

  lemma CommentParts(t: string) returns (gap: string, rest: string)
    requires IsComment(t)
    ensures CommentOf(t, gap, rest)
  {
    hide SkipSpace, IsSpace, AllSpace;
    gap := SkipMeans(t);
    rest := SkipSpace(t)[1..];
    assert SkipSpace(t) == "#" + rest;
  }

  /** A comment line begins with its sign, white space aside. */
  lemma CommentMeans(t: string)
    ensures IsComment(t) <==> exists gap: string, rest: string :: CommentOf(t, gap, rest)
  {
    hide SkipSpace, CommentOf, IsSpace;
    if IsComment(t) { var gap, rest := CommentParts(t); }
    if gap: string, rest: string :| CommentOf(t, gap, rest) { CommentSkips(t, gap, rest); }
  }

  /** The comment's sign, the word SAFETY with a colon, and something that is said. */
  predicate SafetyOf(t: string, gap: string, more: string, said: string) {
    t == gap + "#" + more + "SAFETY:" + said && AllSpace(gap) && AllSpace(more) && !AllSpace(said)
  }

  lemma SafetyMeans(t: string)
    ensures IsSafety(t) <==> exists gap: string, more: string, said: string :: SafetyOf(t, gap, more, said)
  {
    if IsSafety(t) { SafetyParts(t); }
    if gap: string, more: string, said: string :| SafetyOf(t, gap, more, said) {
      SafetyFound(t, gap, more, said);
    }
  }

  lemma SafetyParts(t: string)
    requires IsSafety(t)
    ensures exists gap: string, more: string, said: string :: SafetyOf(t, gap, more, said)
  {
    var gap := SkipMeans(t);
    var rest := SkipSpace(t)[1..];
    var more := SkipMeans(rest);
    var text := SkipSpace(rest);
    var said := text[7..];
    BlankMeans(said);
    hide SkipSpace, IsSpace, AllSpace;
    assert text == "SAFETY:" + said && rest == more + text && SkipSpace(t) == "#" + rest;
    InOneLine(t, gap, rest, more, text, said);
    assert SafetyOf(t, gap, more, said);
  }

  lemma InOneLine(t: string, gap: string, rest: string, more: string, text: string, said: string)
    requires t == gap + ("#" + rest) && rest == more + text && text == "SAFETY:" + said
    ensures t == gap + "#" + more + "SAFETY:" + said
  {
  }

  lemma SafetyFound(t: string, gap: string, more: string, said: string)
    requires SafetyOf(t, gap, more, said)
    ensures IsSafety(t)
  {
    var text := "SAFETY:" + said;
    SpaceIsNotHash();
    BlankMeans(said);
    hide IsSpace, AllSpace;
    assert t == gap + "#" + (more + text);
    assert CommentOf(t, gap, more + text) by { }
    CommentSkips(t, gap, more + text);
    assert text[0] == 'S' && text[7..] == said && "SAFETY:" <= text;
    TrimsOnce(more + text, more, text);
  }

  // ----- Brackets -----

  /** How far a line opens brackets is how many it opens more than it closes. */
  lemma {:induction false} DeltaCounts(t: string)
    ensures var m := multiset(t); Delta(t) + m[')'] + m[']'] + m['}'] == m['('] + m['['] + m['{']
  {
    if t != "" {
      DeltaCounts(t[1..]);
      assert t == [t[0]] + t[1..];
      assert multiset(t) == multiset{t[0]} + multiset(t[1..]);
    }
  }

  /** A statement that opens more brackets than it closes, up to one of its lines, goes on with the next line. */
  lemma OpenBracketsGoOn(lines: seq<Line>, s: Statement, k: nat)
    requires IsStatement(lines, s) && Holds(s, k) && k + 1 < |lines| && Depth(lines, s.start, k) > 0
    ensures Holds(s, k + 1)
  {
  }

  /** The line that opens a statement keeps the next one in it exactly if more brackets are opened than closed on
      it. */
  lemma OpeningLineGoesOn(text: string, candidate: string -> bool, s: Statement)
    requires IsStatement(Records(text, candidate), s) && s.start + 1 < LineCount(Clean(text))
    ensures var m := multiset(LineOf(Clean(text), s.start));
            Holds(s, s.start + 1) <==> m['('] + m['['] + m['{'] > m[')'] + m[']'] + m['}']
  {
    var lines := Records(text, candidate);
    RecordsAt(text, candidate, s.start);
    DeltaCounts(LineOf(Clean(text), s.start));
    hide Clean, LineOf, LineCount, Delta, Records;
    assert Depth(lines, s.start, s.start) == lines[s.start].delta;
  }

  // ----- Calls -----

  /** Something, the name with the characters that may follow it, white space, the sign, and something. */
  predicate CallOf(line: string, before: string, name: string, gap: string, c: char, after: string) {
    line == before + name + gap + [c] + after && AllSpace(gap)
  }

  predicate Bounded(before: string, word: char -> bool) {
    before == "" || !word(before[|before| - 1])
  }

  ghost predicate HasCall(line: string, name: string, c: char) {
    exists before: string, gap: string, after: string :: CallOf(line, before, name, gap, c, after)
  }

  ghost predicate HasWordCall(line: string, name: string, c: char, word: char -> bool) {
    exists before: string, gap: string, after: string ::
      CallOf(line, before, name, gap, c, after) && Bounded(before, word)
  }

  lemma OpeningParts(line: string, m: nat, c: char) returns (gap: string, after: string)
    requires m <= |line| && SafetyCandidates.Opens(line[m..], c)
    ensures line == line[..m] + gap + [c] + after && AllSpace(gap)
  {
    gap := SkipMeans(line[m..]);
    after := SkipSpace(line[m..])[1..];
    assert SkipSpace(line[m..]) == [c] + after;
    assert line == line[..m] + line[m..];
  }

  lemma OpensBehind(line: string, head: string, gap: string, c: char, after: string)
    requires line == head + gap + [c] + after && AllSpace(gap) && !IsSpace(c)
    ensures |head| <= |line| && line[|head|..] == gap + ([c] + after) && SafetyCandidates.Opens(line[|head|..], c)
  {
    assert line[|head|..] == gap + ([c] + after);
    TrimsOnce(line[|head|..], gap, [c] + after);
  }

  /** The name, white space and the sign, somewhere in the line. */
  lemma CallsMeans(line: string, name: string, c: char)
    requires !IsSpace(c)
    ensures Calls(line, name, c) <==> HasCall(line, name, c)
  {
    hide SafetyCandidates.Opens, CallOf;
    if Calls(line, name, c) {
      var k: nat :| k <= |line| && NameAt(line, k, name) && SafetyCandidates.Opens(line[k + |name|..], c);
      var gap, after := CallParts(line, k, name, c);
    }
    if before: string, gap: string, after: string :| CallOf(line, before, name, gap, c, after) {
      CallThere(line, before, name, gap, c, after);
    }
  }

  lemma NamedHead(line: string, k: nat, name: string)
    requires NameAt(line, k, name)
    ensures k + |name| <= |line| && line[..k + |name|] == line[..k] + name
  {
    assert line[k..][..|name|] == name;
  }

  lemma NamedThere(line: string, before: string, name: string, rest: string)
    requires line == before + name + rest
    ensures |before| <= |line| && NameAt(line, |before|, name)
    ensures before == "" || line[|before| - 1] == before[|before| - 1]
  {
    assert line[|before|..] == name + rest;
  }

  /** The same where no word character stands before the name. */
  lemma CallsWordMeans(line: string, name: string, c: char, word: char -> bool)
    requires !IsSpace(c)
    ensures CallsWord(line, name, c, word) <==> HasWordCall(line, name, c, word)
  {
    hide SafetyCandidates.Opens, CallOf;
    if CallsWord(line, name, c, word) {
      var k: nat :| k <= |line| && WordAt(line, k, name, word) && SafetyCandidates.Opens(line[k + |name|..], c);
      var gap, after := CallParts(line, k, name, c);
      assert Bounded(line[..k], word);
    }
    if before: string, gap: string, after: string :|
      CallOf(line, before, name, gap, c, after) && Bounded(before, word) {
      CallThere(line, before, name, gap, c, after);
      assert WordAt(line, |before|, name, word);
    }
  }

  lemma CallParts(line: string, k: nat, name: string, c: char) returns (gap: string, after: string)
    requires NameAt(line, k, name) && SafetyCandidates.Opens(line[k + |name|..], c)
    ensures CallOf(line, line[..k], name, gap, c, after)
  {
    gap, after := OpeningParts(line, k + |name|, c);
    NamedHead(line, k, name);
  }

  lemma CallThere(line: string, before: string, name: string, gap: string, c: char, after: string)
    requires CallOf(line, before, name, gap, c, after) && !IsSpace(c)
    ensures |before| <= |line| && NameAt(line, |before|, name)
    ensures before == "" || line[|before| - 1] == before[|before| - 1]
    ensures SafetyCandidates.Opens(line[|before| + |name|..], c)
  {
    hide IsSpace;
    OpensBehind(line, before + name, gap, c, after);
    NamedThere(line, before, name, gap + [c] + after);
  }

  ghost predicate HasPrefixCall(line: string, name: string, least: nat, c: char, word: char -> bool) {
    exists before: string, tail: string, gap: string, after: string ::
      && CallOf(line, before, name + tail, gap, c, after) && Bounded(before, word)
      && |tail| >= least && AllName(tail)
  }

  predicate AllName(t: string) { forall i | 0 <= i < |t| :: IsNameChar(t[i]) }

  /** And the same with at least `least` name characters behind the name. */
  lemma CallsPrefixedMeans(line: string, name: string, least: nat, c: char, word: char -> bool)
    requires !IsSpace(c)
    ensures CallsPrefixed(line, name, least, c, word) <==> HasPrefixCall(line, name, least, c, word)
  {
    if CallsPrefixed(line, name, least, c, word) {
      var k: nat, m: nat :| k <= |line| && m <= |line| && PrefixedAt(line, k, m, name, least, c, word);
      var gap, after := OpeningParts(line, m, c);
      NamedHead(line, k, name);
      var tail := line[k + |name|..m];
      assert line[..m] == line[..k] + (name + tail);
      assert CallOf(line, line[..k], name + tail, gap, c, after) && Bounded(line[..k], word) && AllName(tail);
    }
    if before: string, tail: string, gap: string, after: string :|
      && CallOf(line, before, name + tail, gap, c, after) && Bounded(before, word)
      && |tail| >= least && AllName(tail) {
      PrefixedThere(line, before, name, tail, least, gap, c, after, word);
    }
  }

  lemma PrefixedThere(line: string, before: string, name: string, tail: string, least: nat, gap: string, c: char,
                      after: string, word: char -> bool)
    requires CallOf(line, before, name + tail, gap, c, after) && Bounded(before, word) && !IsSpace(c)
    requires |tail| >= least && AllName(tail)
    ensures CallsPrefixed(line, name, least, c, word)
  {
    var k, m := |before|, |before| + |name| + |tail|;
    OpensBehind(line, before + (name + tail), gap, c, after);
    hide IsNameChar, IsSpace, AllSpace, SafetyCandidates.Opens;
    assert line == before + name + (tail + gap + [c] + after);
    NamedThere(line, before, name, tail + gap + [c] + after);
    assert forall i | k + |name| <= i < m :: line[i] == tail[i - k - |name|];
    assert PrefixedAt(line, k, m, name, least, c, word);
  }

  /** A construction with its parameters in brackets: any on the same line. */
  predicate ConstructionOf(line: string, before: string, gap: string, params: string, more: string, after: string) {
    && CallOf(line, before, "UnsafePointer", gap, '[', params + "]" + more + "(" + after)
    && AllSpace(more) && '\n' !in params
  }

  ghost predicate HasConstruction(line: string, word: char -> bool) {
    exists before: string, gap: string, params: string, more: string, after: string ::
      ConstructionOf(line, before, gap, params, more, after) && Bounded(before, word)
  }

  lemma ConstructsMeans(line: string, word: char -> bool)
    ensures Constructs(line, word) <==> HasWordCall(line, "UnsafePointer", '(', word) || HasConstruction(line, word)
  {
    hide *;
    CallsWordMeans(line, "UnsafePointer", '(', word) by { SpaceIsNot('('); }
    if Constructs(line, word) { ConstructedSomehow(line, word); }
    if CallsWord(line, "UnsafePointer", '(', word) { WordConstructs(line, word); }
    if HasConstruction(line, word) { ConstructionConstructs(line, word); }
  }

  lemma SpaceIsNot(c: char)
    requires c in "([="
    ensures !IsSpace(c)
  {
  }

  lemma ConstructionConstructs(line: string, word: char -> bool)
    requires HasConstruction(line, word)
    ensures Constructs(line, word)
  {
    hide ConstructionOf, Bounded, Constructs;
    var before: string, gap: string, params: string, more: string, after: string :|
      ConstructionOf(line, before, gap, params, more, after) && Bounded(before, word);
    ConstructionThere(line, before, gap, params, more, after, word);
  }

  lemma ConstructedSomehow(line: string, word: char -> bool)
    requires Constructs(line, word)
    ensures CallsWord(line, "UnsafePointer", '(', word) || HasConstruction(line, word)
  {
    hide SafetyCandidates.Opens, WordAt, HasConstruction, ClosesAt;
    var k: nat :| k <= |line| && ConstructsAt(line, k, word);
    NamedWord(line, k, word);
    if !SafetyCandidates.Opens(line[k + 13..], '(') { ConstructionParts(line, k, word); }
  }

  lemma NamedWord(line: string, k: nat, word: char -> bool)
    requires WordAt(line, k, CONSTRUCTOR, word)
    ensures k + 13 <= |line|
  {
    NamedHead(line, k, CONSTRUCTOR);
  }

  lemma WordConstructs(line: string, word: char -> bool)
    requires CallsWord(line, "UnsafePointer", '(', word)
    ensures Constructs(line, word)
  {
    hide SafetyCandidates.Opens;
    var k: nat :| k <= |line| && WordAt(line, k, CONSTRUCTOR, word)
                  && SafetyCandidates.Opens(line[k + |CONSTRUCTOR|..], '(');
    assert ConstructsAt(line, k, word);
  }

  lemma ConstructionParts(line: string, k: nat, word: char -> bool)
    requires k <= |line| && ConstructsAt(line, k, word) && !SafetyCandidates.Opens(line[k + 13..], '(')
    ensures HasConstruction(line, word)
  {
    hide SafetyCandidates.Opens, CallOf, SkipSpace;
    var rest := line[k + 13..];
    var gap, after := CallParts(line, k, "UnsafePointer", '[');
    CallEnds(line, k, "UnsafePointer", gap, '[', after);
    var j: nat :| j < |SkipSpace(rest)| && ClosesAt(SkipSpace(rest), j);
    assert SkipSpace(rest)[1..] == after;
    var more, last := OpeningParts(after, j, '(');
    var params := after[..j - 1];
    assert after[..j] == params + "]";
    assert after == params + "]" + more + "(" + last;
    assert forall i | 0 <= i < |params| :: params[i] == SkipSpace(rest)[i + 1];
    assert ConstructionOf(line, line[..k], gap, params, more, last) && Bounded(line[..k], word);
  }

  lemma CallEnds(line: string, k: nat, name: string, gap: string, c: char, after: string)
    requires k + |name| <= |line| && CallOf(line, line[..k], name, gap, c, after) && !IsSpace(c)
    ensures SkipSpace(line[k + |name|..]) == [c] + after
  {
    assert line[k + |name|..] == gap + ([c] + after);
    TrimsOnce(line[k + |name|..], gap, [c] + after);
  }

  lemma ConstructionThere(line: string, before: string, gap: string, params: string, more: string, after: string,
                          word: char -> bool)
    requires ConstructionOf(line, before, gap, params, more, after) && Bounded(before, word)
    ensures Constructs(line, word)
  {
    var inner := params + "]" + more + "(" + after;
    CallThere(line, before, "UnsafePointer", gap, '[', inner);
    assert line[..|before|] == before;
    CallEnds(line, |before|, "UnsafePointer", gap, '[', inner);
    OpensBehind(inner, params + "]", more, '(', after);
    hide CallOf, SafetyCandidates.Opens, AllSpace, SkipSpace;
    var rest, j := SkipSpace(line[|before| + 13..]), |params| + 1;
    assert rest[j + 1..] == inner[|params| + 1..] && rest[j] == ']';
    assert forall i | 0 < i < j :: rest[i] == params[i - 1];
    assert ClosesAt(rest, j);
    assert ConstructsAt(line, |before|, word);
  }

  /** The ten patterns, each by the characters of the line. */
  lemma PatternsMean(line: string, word: char -> bool)
    ensures HasCandidate(line, word) <==>
              || HasWordCall(line, "UnsafePointer", '(', word) || HasConstruction(line, word)
              || HasWordCall(line, "alloc", '[', word)
              || HasCall(line, ".free", '(') || HasCall(line, ".unsafe_free", '(')
              || HasPrefixCall(line, "unsafe_from_", 1, '=', word) || HasPrefixCall(line, "unsafe_from_", 1, '(', word)
              || HasCall(line, ".unsafe_ptr", '(')
              || HasPrefixCall(line, "memset_", 0, '(', word)
              || HasCall(line, ".bitcast", '[') || HasCall(line, ".unsafe_bitcast", '[')
              || HasWordCall(line, "unsafe_offset", '=', word)
              || HasCall(line, ".as_unsafe_any_origin", '(')
              || HasWordCall(line, "external_call", '[', word)
  {
    hide Constructs, Calls, CallsWord, CallsPrefixed, HasCall, HasWordCall, HasPrefixCall, HasConstruction;
    ConstructsMeans(line, word);
    CallsWordMeans(line, "alloc", '[', word);
    CallsMeans(line, ".free", '(');
    CallsMeans(line, ".unsafe_free", '(');
    CallsPrefixedMeans(line, "unsafe_from_", 1, '=', word);
    CallsPrefixedMeans(line, "unsafe_from_", 1, '(', word);
    CallsMeans(line, ".unsafe_ptr", '(');
    CallsPrefixedMeans(line, "memset_", 0, '(', word);
    CallsMeans(line, ".bitcast", '[');
    CallsMeans(line, ".unsafe_bitcast", '[');
    CallsWordMeans(line, "unsafe_offset", '=', word);
    CallsMeans(line, ".as_unsafe_any_origin", '(');
    CallsWordMeans(line, "external_call", '[', word);
  }
}

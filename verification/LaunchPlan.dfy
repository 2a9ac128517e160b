/** What the parent prepares before a fork: the validated environment overrides, the merged environment, and
    the program candidates. Texts are C strings without their terminating NUL; a missing override buffer
    is an empty one. */
module LaunchPlan {
  import opened Wrappers

  type Text = string

  const NUL := '\0'
  const SLASH := '/'
  const COLON := ':'
  const EQUALS := '='
  const PATH: Text := "PATH"

  // ----- Keys -----

  /** Length up to the first '=', or the whole length without one. */
  function KeyLength(e: Text): (n: nat)
    ensures n <= |e| && EQUALS !in e[..n] && (n < |e| ==> e[n] == EQUALS)
  {
    if e == [] || e[0] == EQUALS then 0
    else
      var n := 1 + KeyLength(e[1..]);
      assert e[..n] == [e[0]] + e[1..][..n - 1];
      n
  }

  function Key(e: Text): (k: Text)
    ensures EQUALS !in k
  {
    e[..KeyLength(e)]
  }

  /** `e` sets `key` to something. */
  predicate Sets(e: Text, key: Text) {
    key + [EQUALS] <= e
  }

  lemma KeyLengthIs(e: Text, n: nat)
    requires n <= |e| && EQUALS !in e[..n] && (n < |e| ==> e[n] == EQUALS)
    ensures KeyLength(e) == n
    decreases n
  {
  }

  lemma SetAt(e: Text, key: Text)
    requires EQUALS !in key && Sets(e, key)
    ensures KeyLength(e) == |key| < |e| && e[..|key|] == key
  {
    hide KeyLength;
    assert e == key + [EQUALS] + e[|key| + 1..];
    assert e[..|key|] == key && e[|key|] == EQUALS;
    KeyLengthIs(e, |key|);
  }

  lemma SetsItsKey(e: Text, key: Text)
    requires EQUALS !in key
    ensures Sets(e, key) <==> Key(e) == key && KeyLength(e) < |e|
  {
    hide KeyLength;
    if Sets(e, key) { SetAt(e, key); }
    if Key(e) == key && KeyLength(e) < |e| {
      assert e[..|key| + 1] == key + [EQUALS];
    }
  }

  /** What a proper assignment assigns. */
  function Assigned(e: Text): Text {
    if KeyLength(e) < |e| then e[KeyLength(e) + 1..] else []
  }

  // ----- Overrides -----

  predicate Proper(e: Text) {
    NUL !in e && 0 < KeyLength(e) < |e|
  }

  /** A proper assignment is a name, an equals sign and a value; the name is not empty and has no equals sign in it. */
  lemma ProperMeans(e: Text)
    ensures Proper(e) <==> '\0' !in e && exists name: Text, value: Text :: Assigns(e, name, value)
  {
    hide KeyLength;
    var n := KeyLength(e);
    if 0 < n < |e| {
      assert e == e[..n] + "=" + e[n + 1..];
      assert Assigns(e, e[..n], e[n + 1..]);
    }
    if name: Text, value: Text :| Assigns(e, name, value) {
      assert e[..|name|] == name && e[|name|] == '=';
      KeyLengthIs(e, |name|);
    }
  }

  predicate Assigns(e: Text, name: Text, value: Text) {
    e == name + "=" + value && name != "" && '=' !in name
  }

  /** Override i is malformed or repeats the key of an earlier one. */
  ghost predicate Offends(extra: seq<Text>, i: nat)
    requires i < |extra|
  {
    !Proper(extra[i]) || exists j :: 0 <= j < i && Key(extra[j]) == Key(extra[i])
  }

  ghost predicate Acceptable(extra: seq<Text>) {
    forall i: nat | i < |extra| :: !Offends(extra, i)
  }

  /** Acceptance in plain terms: every override is a proper assignment, and no key is set twice. */
  lemma AcceptableMeans(extra: seq<Text>)
    ensures Acceptable(extra) <==>
              && (forall e | e in extra :: Proper(e))
              && (forall i, j | 0 <= i < j < |extra| :: Key(extra[i]) != Key(extra[j]))
  {
    if forall i, j | 0 <= i < j < |extra| :: Key(extra[i]) != Key(extra[j]) {
      if forall e | e in extra :: Proper(e) {
        forall i: nat | i < |extra|
          ensures !Offends(extra, i)
        {
          assert extra[i] in extra;
        }
      }
    }
    if Acceptable(extra) {
      forall e | e in extra
        ensures Proper(e)
      {
        var i: nat :| i < |extra| && extra[i] == e;
        assert !Offends(extra, i);
      }
      forall i, j | 0 <= i < j < |extra|
        ensures Key(extra[i]) != Key(extra[j])
      {
        assert !Offends(extra, j);
      }
    }
  }

  /** One override: its separator, if the entry is proper. */
  method Separator(e: Text) returns (proper: bool, separator: nat)
    ensures proper <==> Proper(e)
    ensures proper ==> separator == KeyLength(e)
  {
    separator := |e|;
    if |e| == 0 { return false, separator; }
    for index := 0 to |e|
      invariant NUL !in e[..index] && separator <= |e|
      invariant separator == |e| ==> EQUALS !in e[..index]
      invariant separator < |e| ==> separator < index && e[separator] == EQUALS && EQUALS !in e[..separator]
    {
      if e[index] == NUL { return false, separator; }
      if e[index] == EQUALS && separator == |e| { separator := index; }
      assert e[..index + 1] == e[..index] + [e[index]];
    }
    assert e[..|e|] == e;
    KeyLengthIs(e, separator);
    proper := separator != |e| && separator != 0;
  }

  /** Accepts exactly the acceptable overrides and otherwise names the first offender. */
  method Validate(extra: seq<Text>) returns (rc: int, index: nat)
    ensures rc == 0 || rc == -1
    ensures rc == 0 <==> Acceptable(extra)
    ensures rc == -1 ==> index < |extra| && Offends(extra, index) && Acceptable(extra[..index])
  {
    index := 0;
    while index < |extra|
      invariant index <= |extra|
      invariant forall i: nat | i < index :: !Offends(extra, i)
    {
      AcceptablePrefix(extra, index);
      var proper, separator := Separator(extra[index]);
      if !proper {
        assert Offends(extra, index);
        return -1, index;
      }
      var key := extra[index][..separator];
      for earlier := 0 to index
        invariant forall j | 0 <= j < earlier :: Key(extra[j]) != Key(extra[index])
      {
        if Key(extra[earlier]) == key {
          assert Offends(extra, index);
          return -1, index;
        }
      }
      index := index + 1;
    }
    rc := 0;
  }

  lemma AcceptablePrefix(extra: seq<Text>, n: nat)
    requires n <= |extra| && forall i: nat | i < n :: !Offends(extra, i)
    ensures Acceptable(extra[..n])
  {
    forall i: nat | i < n
      ensures !Offends(extra[..n], i)
    {
      assert !Offends(extra, i);
    }
  }

  // ----- The merged environment -----

  predicate Overridden(extra: seq<Text>, e: Text) {
    exists x | x in extra :: Key(x) == Key(e)
  }

  /** The inherited entries no override replaces, in order. */
  function Kept(inherited: seq<Text>, extra: seq<Text>): seq<Text> {
    if inherited == [] then []
    else (if Overridden(extra, inherited[0]) then [] else [inherited[0]]) + Kept(inherited[1..], extra)
  }

  function Merged(inherited: seq<Text>, extra: seq<Text>): seq<Text> {
    Kept(inherited, extra) + extra
  }

  /** How many of the first i inherited entries have a key that no override has. */
  ghost function KeptBefore(inherited: seq<Text>, extra: seq<Text>, i: nat): nat
    requires i <= |inherited|
  {
    if i == 0 then 0
    else
      KeptBefore(inherited, extra, i - 1)
      + if exists j :: 0 <= j < |extra| && Key(extra[j]) == Key(inherited[i - 1]) then 0 else 1
  }

  lemma {:induction false} KeptAt(inherited: seq<Text>, extra: seq<Text>, n: nat)
    requires n <= |inherited|
    ensures |Kept(inherited[..n], extra)| == KeptBefore(inherited, extra, n)
    ensures forall i | 0 <= i < n && (forall x | x in extra :: Key(x) != Key(inherited[i])) ::
              && KeptBefore(inherited, extra, i) < KeptBefore(inherited, extra, n)
              && Kept(inherited[..n], extra)[KeptBefore(inherited, extra, i)] == inherited[i]
  {
    hide Key;
    if n > 0 {
      KeptAt(inherited, extra, n - 1);
      assert inherited[..n] == inherited[..n - 1] + [inherited[n - 1]];
      KeptSnoc(inherited[..n - 1], inherited[n - 1], extra);
    }
  }

  /** The merged environment, place by place: the inherited entries with a key of their own, in their order, and behind
      them the overrides. */
  lemma MergedInOrder(inherited: seq<Text>, extra: seq<Text>)
    ensures var kept := KeptBefore(inherited, extra, |inherited|);
            && |Merged(inherited, extra)| == kept + |extra|
            && (forall j | 0 <= j < |extra| :: Merged(inherited, extra)[kept + j] == extra[j])
            && (forall i | 0 <= i < |inherited| && (forall x | x in extra :: Key(x) != Key(inherited[i])) ::
                  && KeptBefore(inherited, extra, i) < kept
                  && Merged(inherited, extra)[KeptBefore(inherited, extra, i)] == inherited[i])
  {
    KeptAt(inherited, extra, |inherited|);
    assert inherited[..|inherited|] == inherited;
    hide Kept, KeptBefore, Key;
  }

  lemma {:induction false} KeptSnoc(inherited: seq<Text>, e: Text, extra: seq<Text>)
    ensures Kept(inherited + [e], extra) == Kept(inherited, extra) + if Overridden(extra, e) then [] else [e]
  {
    hide Overridden, Key;
    if inherited == [] {
      assert [] + [e] == [e] && [e][1..] == [];
    } else {
      assert (inherited + [e])[1..] == inherited[1..] + [e];
      KeptSnoc(inherited[1..], e, extra);
    }
  }

  lemma {:induction false} KeptEntries(inherited: seq<Text>, extra: seq<Text>, e: Text)
    ensures multiset(Kept(inherited, extra))[e] == if Overridden(extra, e) then 0 else multiset(inherited)[e]
  {
    if inherited != [] {
      assert inherited == [inherited[0]] + inherited[1..];
      KeptEntries(inherited[1..], extra, e);
    }
  }

  lemma {:induction false} KeptWithout(inherited: seq<Text>)
    ensures Kept(inherited, []) == inherited
  {
    if inherited != [] { KeptWithout(inherited[1..]); }
  }

  lemma {:induction false} KeptSize(inherited: seq<Text>, extra: seq<Text>)
    ensures |Kept(inherited, extra)| <= |inherited|
  {
    if inherited != [] { KeptSize(inherited[1..], extra); }
  }

  /** Fills the plan's environment buffer. */
  method Merge(inherited: seq<Text>, extra: seq<Text>) returns (environment: array<Text>, n: nat)
    ensures fresh(environment) && n <= environment.Length && environment[..n] == Merged(inherited, extra)
  {
    environment := new Text[|inherited| + |extra| + 1];
    n := 0;
    for index := 0 to |inherited|
      invariant n <= index && environment[..n] == Kept(inherited[..index], extra)
    {
      KeptSnoc(inherited[..index], inherited[index], extra);
      assert inherited[..index + 1] == inherited[..index] + [inherited[index]];
      if |extra| == 0 || !Overridden(extra, inherited[index]) {
        environment[n] := inherited[index];
        n := n + 1;
      }
    }
    assert inherited[..|inherited|] == inherited;
    ghost var kept := environment[..n];
    for index := 0 to |extra|
      invariant n == |kept| + index <= |inherited| + index && environment[..n] == kept + extra[..index]
    {
      environment[n] := extra[index];
      n := n + 1;
      assert extra[..index + 1] == extra[..index] + [extra[index]];
    }
    assert extra[..|extra|] == extra;
  }

  /** What an environment says about a key: the rest of the first entry that sets it. */
  function Value(environment: seq<Text>, key: Text): Option<Text> {
    if environment == [] then None
    else if Sets(environment[0], key) then Some(environment[0][|key| + 1..])
    else Value(environment[1..], key)
  }

  /** The value of a key is what the first entry that begins with it and an equals sign goes on with. */
  lemma {:induction false} ValueMeans(environment: seq<Text>, key: Text)
    ensures match Value(environment, key)
            case None => forall i | 0 <= i < |environment| :: !(key + "=" <= environment[i])
            case Some(value) =>
              exists i: nat :: FirstSetting(environment, key, i) && environment[i] == key + "=" + value
  {
    if environment != [] {
      if Sets(environment[0], key) {
        assert environment[0] == key + "=" + environment[0][|key| + 1..];
        assert FirstSetting(environment, key, 0);
      } else {
        ValueMeans(environment[1..], key);
        if Value(environment, key).Some? {
          var i: nat :| FirstSetting(environment[1..], key, i)
                        && environment[1..][i] == key + "=" + Value(environment, key).value;
          assert environment[i + 1] == environment[1..][i];
          assert forall j | 0 < j < i + 1 :: environment[j] == environment[1..][j - 1];
          assert FirstSetting(environment, key, i + 1);
        } else {
          assert forall j | 0 < j < |environment| :: environment[j] == environment[1..][j - 1];
        }
      }
    }
  }

  ghost predicate FirstSetting(environment: seq<Text>, key: Text, i: nat) {
    i < |environment| && key + "=" <= environment[i] && forall j | 0 <= j < i :: !(key + "=" <= environment[j])
  }

  lemma {:induction false} ValueConcat(a: seq<Text>, b: seq<Text>, key: Text)
    ensures Value(a + b, key) == if Value(a, key).Some? then Value(a, key) else Value(b, key)
  {
    if a == [] {
      assert a + b == b;
    } else {
      assert (a + b)[1..] == a[1..] + b;
      ValueConcat(a[1..], b, key);
    }
  }

  lemma {:induction false} ValueKept(inherited: seq<Text>, extra: seq<Text>, key: Text)
    requires EQUALS !in key
    ensures Value(Kept(inherited, extra), key)
            == if exists x | x in extra :: Key(x) == key then None else Value(inherited, key)
  {
    if inherited != [] {
      var e := inherited[0];
      ValueKept(inherited[1..], extra, key);
      SetsItsKey(e, key);
      var first := if Overridden(extra, e) then [] else [e];
      ValueConcat(first, Kept(inherited[1..], extra), key);
      assert first == [e] ==> first[1..] == [];
    }
  }

  lemma {:induction false} ValueOf(extra: seq<Text>, i: nat)
    requires i < |extra| && Acceptable(extra)
    ensures Value(extra, Key(extra[i])) == Some(Assigned(extra[i]))
    decreases i
  {
    AcceptableMeans(extra);
    assert extra[i] in extra && extra[0] in extra;
    var key := Key(extra[i]);
    SetsItsKey(extra[0], key);
    if i > 0 {
      AcceptableMeans(extra[1..]);
      ValueOf(extra[1..], i - 1);
    }
  }

  /** An override governs its key, every other key keeps the meaning it had, and no overrides change nothing. */
  lemma MergeMeans(inherited: seq<Text>, extra: seq<Text>, key: Text)
    requires Acceptable(extra) && EQUALS !in key
    ensures forall i | 0 <= i < |extra| && Key(extra[i]) == key ::
              Value(Merged(inherited, extra), key) == Some(Assigned(extra[i]))
    ensures (forall x | x in extra :: Key(x) != key) ==> Value(Merged(inherited, extra), key) == Value(inherited, key)
    ensures extra == [] ==> Merged(inherited, extra) == inherited
  {
    hide Kept, Value, Acceptable;
    ValueConcat(Kept(inherited, extra), extra, key);
    ValueKept(inherited, extra, key);
    forall i | 0 <= i < |extra| && Key(extra[i]) == key
      ensures Value(Merged(inherited, extra), key) == Some(Assigned(extra[i]))
    {
      assert extra[i] in extra;
      ValueOf(extra, i);
    }
    if forall x | x in extra :: Key(x) != key {
      ValueAbsent(extra, key);
    }
    KeptWithout(inherited);
  }

  lemma {:induction false} ValueAbsent(environment: seq<Text>, key: Text)
    requires EQUALS !in key && forall x | x in environment :: Key(x) != key
    ensures Value(environment, key) == None
  {
    if environment != [] {
      SetsItsKey(environment[0], key);
      ValueAbsent(environment[1..], key);
    }
  }

  /** Each overridden key occurs exactly once in the merged environment, and every other inherited entry as
      often as it did. */
  lemma MergeCounts(inherited: seq<Text>, extra: seq<Text>, e: Text)
    requires Acceptable(extra)
    ensures !Overridden(extra, e) ==> multiset(Merged(inherited, extra))[e] == multiset(inherited)[e]
    ensures Overridden(extra, e) ==> multiset(Merged(inherited, extra))[e] == if e in extra then 1 else 0
  {
    KeptEntries(inherited, extra, e);
    AcceptableMeans(extra);
    CountOnce(extra, e);
  }

  /** No overridden key is set twice. */
  lemma OverriddenKeysOnce(inherited: seq<Text>, extra: seq<Text>, i: nat, j: nat)
    requires Acceptable(extra)
    requires i < j < |Merged(inherited, extra)| && Overridden(extra, Merged(inherited, extra)[i])
    ensures Key(Merged(inherited, extra)[i]) != Key(Merged(inherited, extra)[j])
  {
    var m, kept := Merged(inherited, extra), Kept(inherited, extra);
    if i < |kept| {
      assert m[i] == kept[i] && m[i] in kept;
      KeptEntries(inherited, extra, m[i]);
    } else {
      AcceptableMeans(extra);
      assert m[i] == extra[i - |kept|] && m[j] == extra[j - |kept|];
    }
  }

  lemma {:induction false} CountOnce(extra: seq<Text>, e: Text)
    requires forall i, j | 0 <= i < j < |extra| :: Key(extra[i]) != Key(extra[j])
    ensures multiset(extra)[e] == if e in extra then 1 else 0
  {
    if extra != [] {
      CountOnce(extra[1..], e);
      assert extra == [extra[0]] + extra[1..];
    }
  }

  /** Applying the same overrides again changes nothing. */
  lemma MergeIdempotent(inherited: seq<Text>, extra: seq<Text>)
    ensures Merged(Merged(inherited, extra), extra) == Merged(inherited, extra)
  {
    KeptTwice(inherited, extra);
    KeptOverridden(extra, extra);
    KeptConcat(Kept(inherited, extra), extra, extra);
  }

  lemma {:induction false} KeptConcat(a: seq<Text>, b: seq<Text>, extra: seq<Text>)
    ensures Kept(a + b, extra) == Kept(a, extra) + Kept(b, extra)
  {
    if a == [] {
      assert a + b == b;
    } else {
      assert (a + b)[1..] == a[1..] + b;
      KeptConcat(a[1..], b, extra);
    }
  }

  lemma {:induction false} KeptTwice(inherited: seq<Text>, extra: seq<Text>)
    ensures Kept(Kept(inherited, extra), extra) == Kept(inherited, extra)
  {
    if inherited != [] {
      KeptTwice(inherited[1..], extra);
      var first := if Overridden(extra, inherited[0]) then [] else [inherited[0]];
      KeptConcat(first, Kept(inherited[1..], extra), extra);
      assert first != [] ==> first[1..] == [];
    }
  }

  lemma {:induction false} KeptOverridden(entries: seq<Text>, extra: seq<Text>)
    requires forall e | e in entries :: e in extra
    ensures Kept(entries, extra) == []
  {
    if entries != [] {
      assert entries[0] in extra && Overridden(extra, entries[0]);
      KeptOverridden(entries[1..], extra);
    }
  }

  // ----- Candidates -----

  /** Components separated by colons. */
  function Join(parts: seq<Text>): Text {
    if parts == [] then []
    else if |parts| == 1 then parts[0]
    else parts[0] + [COLON] + Join(parts[1..])
  }

  ghost predicate SplitsInto(path: Text, parts: seq<Text>) {
    parts != [] && Join(parts) == path && forall p | p in parts :: COLON !in p
  }

  /** Candidate for one component; the empty one means the working directory. */
  function Candidate(part: Text, program: Text): Text {
    if part == [] then program else part + [SLASH] + program
  }

  function CandidatesFor(parts: seq<Text>, program: Text): (c: seq<Text>)
    ensures |c| == |parts|
  {
    if parts == [] then [] else [Candidate(parts[0], program)] + CandidatesFor(parts[1..], program)
  }

  /** The candidate of a component by its characters: the component, a slash and the program, or the program alone where
      the component is empty. */
  lemma {:induction false} CandidateMeans(parts: seq<Text>, program: Text, k: nat)
    requires k < |parts|
    ensures var c, n := CandidatesFor(parts, program)[k], |parts[k]|;
            if n == 0 then c == program
            else |c| == n + 1 + |program| && c[..n] == parts[k] && c[n] == '/' && c[n + 1..] == program
  {
    if k > 0 { CandidateMeans(parts[1..], program, k - 1); }
  }

  lemma {:induction false} CandidatesSnoc(parts: seq<Text>, last: Text, program: Text)
    ensures CandidatesFor(parts + [last], program) == CandidatesFor(parts, program) + [Candidate(last, program)]
  {
    if parts == [] {
      assert parts + [last] == [last];
    } else {
      assert (parts + [last])[1..] == parts[1..] + [last];
      CandidatesSnoc(parts[1..], last, program);
    }
  }

  lemma {:induction false} JoinSnoc(parts: seq<Text>, last: Text)
    requires parts != []
    ensures Join(parts + [last]) == Join(parts) + [COLON] + last
    decreases |parts|
  {
    if |parts| == 1 {
      assert parts + [last] == [parts[0], last];
    } else {
      assert (parts + [last])[1..] == parts[1..] + [last];
      JoinSnoc(parts[1..], last);
    }
  }

  /** A path splits at its colons in one way only. */
  lemma {:induction false} SplitUnique(path: Text, a: seq<Text>, b: seq<Text>)
    requires SplitsInto(path, a) && SplitsInto(path, b)
    ensures a == b
    decreases |a|
  {
    FirstPart(path, a);
    FirstPart(path, b);
    FirstColon(path, |a[0]|, |b[0]|);
    assert a[0] == b[0];
    if |a| > 1 {
      assert a[1..] != [] && b[1..] != [];
      SplitUnique(path[|a[0]| + 1..], a[1..], b[1..]);
    }
    assert a == [a[0]] + a[1..] && b == [b[0]] + b[1..];
  }

  lemma FirstColon(path: Text, m: nat, n: nat)
    requires m <= |path| && COLON !in path[..m] && (m < |path| ==> path[m] == COLON)
    requires n <= |path| && COLON !in path[..n] && (n < |path| ==> path[n] == COLON)
    ensures m == n
  {
  }

  lemma FirstPart(path: Text, parts: seq<Text>)
    requires SplitsInto(path, parts)
    ensures |parts[0]| <= |path| && path[..|parts[0]|] == parts[0] && COLON !in path[..|parts[0]|]
    ensures |parts| == 1 <==> |parts[0]| == |path|
    ensures |parts| > 1 ==> path[|parts[0]|] == COLON && SplitsInto(path[|parts[0]| + 1..], parts[1..])
  {
  }

  function Colons(path: Text): nat { multiset(path)[COLON] }

  /** The component starting at `from` ends at `end`. */
  ghost predicate EndsAt(path: Text, from: nat, end: nat) {
    from <= end <= |path| && COLON !in path[from..end] && (end < |path| ==> path[end] == COLON)
  }

  /** Where the component starting at `from` ends. */
  method NextColon(path: Text, from: nat) returns (end: nat)
    requires from <= |path|
    ensures from <= end <= |path| && EndsAt(path, from, end)
  {
    end := from;
    while end < |path| && path[end] != COLON
      invariant from <= end <= |path| && COLON !in path[from..end]
    {
      assert path[from..end + 1] == path[from..end] + [path[end]];
      end := end + 1;
    }
  }

  method CountColons(path: Text) returns (n: nat)
    ensures n == Colons(path)
  {
    n := 0;
    for cursor := 0 to |path|
      invariant n == Colons(path[..cursor])
    {
      assert path[..cursor + 1] == path[..cursor] + [path[cursor]];
      if path[cursor] == COLON { n := n + 1; }
    }
    assert path[..|path|] == path;
  }

  /** Takes one more component off the path. */
  method NextComponent(path: Text, colons: nat, ghost parts: seq<Text>, component: nat) returns (part: Text, next: nat)
    requires Splitting(path, colons, parts, component) && |parts| <= colons
    ensures Splitting(path, colons, parts + [part], next)
  {
    var end := NextColon(path, component);
    SplittingOn(path, colons, parts, component, end);
    part := path[component..end];
    next := if end == |path| then end else end + 1;
  }

  /** One candidate per component of the path. */
  method SearchPath(path: Text, program: Text) returns (candidates: array<Text>, ghost parts: seq<Text>)
    ensures fresh(candidates) && SplitsInto(path, parts) && candidates[..] == CandidatesFor(parts, program)
  {
    var colons := CountColons(path);
    candidates := new Text[colons + 1];
    parts := [];
    var component := 0;
    hide Splitting, Join, Colons, CandidatesFor, SplitsInto, EndsAt;
    SplittingStarts(path);
    for index := 0 to colons + 1
      invariant |parts| == index && Splitting(path, colons, parts, component)
      invariant candidates[..index] == CandidatesFor(parts, program)
    {
      var part;
      part, component := NextComponent(path, colons, parts, component);
      CandidatesSnoc(parts, part, program);
      candidates[index] := Candidate(part, program);
      parts := parts + [part];
    }
    SplittingDone(path, colons, parts, component);
  }

  /** The components found, each with the colon behind it. */
  function Lead(parts: seq<Text>): Text {
    if parts == [] then [] else Join(parts) + [COLON]
  }

  /** The components found so far are what the cursor has passed, and the colons still ahead are one
      fewer than the components still to come. */
  ghost predicate Splitting(path: Text, colons: nat, parts: seq<Text>, component: nat) {
    && component <= |path|
    && (forall p | p in parts :: COLON !in p)
    && (|parts| <= colons ==> Lead(parts) == path[..component])
    && (|parts| <= colons ==> Colons(path[component..]) == colons - |parts|)
    && (|parts| > colons ==> Join(parts) == path)
  }

  lemma SplittingStarts(path: Text)
    ensures Splitting(path, Colons(path), [], 0)
  {
  }

  lemma SplittingDone(path: Text, colons: nat, parts: seq<Text>, component: nat)
    requires Splitting(path, colons, parts, component) && |parts| > colons
    ensures SplitsInto(path, parts)
  {
  }

  lemma SplittingOn(path: Text, colons: nat, parts: seq<Text>, component: nat, end: nat)
    requires Splitting(path, colons, parts, component) && |parts| <= colons
    requires EndsAt(path, component, end)
    ensures Splitting(path, colons, parts + [path[component..end]], if end == |path| then end else end + 1)
  {
    var part := path[component..end];
    ColonsAhead(path, component, end);
    hide Colons;
    LeadSnoc(parts, part);
    hide Lead, Join;
    assert path[..component] + part == path[..end];
    assert end < |path| ==> path[..end] + [COLON] == path[..end + 1];
    assert path[..|path|] == path;
  }

  lemma LeadSnoc(parts: seq<Text>, part: Text)
    ensures Join(parts + [part]) == Lead(parts) + part
    ensures Lead(parts + [part]) == Lead(parts) + part + [COLON]
  {
    if parts == [] {
      assert parts + [part] == [part];
    } else {
      JoinSnoc(parts, part);
    }
  }

  lemma ColonsAhead(path: Text, from: nat, end: nat)
    requires EndsAt(path, from, end)
    ensures Colons(path[from..]) == if end < |path| then 1 + Colons(path[end + 1..]) else 0
  {
    if end < |path| {
      assert path[from..] == path[from..end] + [COLON] + path[end + 1..];
    } else {
      assert path[from..] == path[from..end];
    }
  }

  /** Length up to the first colon. */
  function ToColon(path: Text): (n: nat)
    ensures n <= |path| && COLON !in path[..n] && (n < |path| ==> path[n] == COLON)
  {
    if path == [] || path[0] == COLON then 0
    else
      var n := 1 + ToColon(path[1..]);
      assert path[..n] == [path[0]] + path[1..][..n - 1];
      n
  }

  /** The components of a path. */
  function Components(path: Text): (parts: seq<Text>)
    ensures SplitsInto(path, parts)
    decreases |path|
  {
    var n := ToColon(path);
    if n == |path| then
      assert path[..n] == path;
      [path]
    else
      var rest := Components(path[n + 1..]);
      assert path == path[..n] + [COLON] + path[n + 1..];
      assert ([path[..n]] + rest)[1..] == rest;
      [path[..n]] + rest
  }

  /** The candidates of a launch: the program itself if it names a path, else one per component of the PATH the
      merged environment sets or of the system's default one. */
  method Candidates(environment: seq<Text>, program: Text, systemPath: Option<Text>)
    returns (candidates: Option<array<Text>>)
    ensures var path := if Value(environment, PATH).Some? then Value(environment, PATH) else systemPath;
            if SLASH in program then candidates.Some? && candidates.value[..] == [program]
            else if path == None then candidates == None
            else candidates.Some? && candidates.value[..] == CandidatesFor(Components(path.value), program)
  {
    if SLASH in program {
      var only := new Text[1](_ => program);
      return Some(only);
    }
    var path := EnvironmentPath(environment);
    if path == None { path := systemPath; }
    if path == None { return None; }
    var found, parts := SearchPath(path.value, program);
    SplitUnique(path.value, parts, Components(path.value));
    candidates := Some(found);
  }

  method EnvironmentPath(environment: seq<Text>) returns (path: Option<Text>)
    ensures path == Value(environment, PATH)
  {
    for index := 0 to |environment|
      invariant Value(environment, PATH) == Value(environment[index..], PATH)
    {
      assert environment[index..][1..] == environment[index + 1..];
      if PATH + [EQUALS] <= environment[index] {
        return Some(environment[index][|PATH| + 1..]);
      }
    }
    return None;
  }

  /** A PATH set by an override is the one searched, and joining the components searched rebuilds it. */
  lemma OverrideGovernsSearch(inherited: seq<Text>, extra: seq<Text>, i: nat)
    requires Acceptable(extra) && i < |extra| && Key(extra[i]) == PATH
    ensures Value(Merged(inherited, extra), PATH) == Some(Assigned(extra[i]))
    ensures extra[i] == PATH + [EQUALS] + Join(Components(Assigned(extra[i])))
  {
    MergeMeans(inherited, extra, PATH);
    SetsItsKey(extra[i], PATH);
    AcceptableMeans(extra);
    assert extra[i] in extra;
  }
}

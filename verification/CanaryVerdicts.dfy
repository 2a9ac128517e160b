/** What the canary reads out of the answers of its commands: version lists, failure rosters and the verdicts on
    them. Each command's captured output is given by what its reader finds in it. */
module CanaryVerdicts {
  import opened Wrappers

  type Version = string

  const TIMEOUT_RETURNCODE := 124
  const GENERATOR_PIN_EXIT := 2
  const CONTRACT_FAILURE_EXIT := 1
  const EXPECTED_CONTRACT_CHECKS := 127

  const TOLERATED_SCENARIOS: seq<string> := ["doctor-healthy", "doctor-config-free"]

  const PIPE_CHECK := "pipe: every direct-output command survives a closed stdout"
  const NO_CACHE_CHECK := "served: doctor --no-cache accepted, inert (not exit 4)"
  const CACHE_CLEAR_CHECK := "served: doctor --cache-clear accepted, inert (not exit 4)"

  const TOLERATED_FAILURES: seq<(string, string)> := [
    (PIPE_CHECK, "doctor: exit 1, want 0"),
    (NO_CACHE_CHECK, "exit 1, want 0"),
    (CACHE_CLEAR_CHECK, "exit 1, want 0")]

  datatype Classification =
    | Pass
    | NoNewerCandidate
    | ProtocolDrift
    | SourceIncompatible
    | PackageFailed
    | StageTimeout
    | CanaryBroken
    | InfraFailure

  datatype ContractReport = ContractReport(passed: nat, failed: nat, skipped: nat, failures: seq<(string, string)>)

  /** One finished command. `listing` is the per-platform version lists of a readable search answer, `report` the
      roster of a contract run with one summary line, `scenarios` the end-to-end roll-call, `identity` the
      version a readable identity names, `pinMarked` the generator's own marker. */
  datatype CommandResult = CommandResult(
    returncode: int,
    listing: Option<seq<seq<Version>>>,
    report: Option<ContractReport>,
    scenarios: seq<string>,
    identity: Option<Version>,
    pinMarked: bool)
  {
    predicate TimedOut() { returncode == TIMEOUT_RETURNCODE }
  }

  // ----- Version lists -----

  function Flat(lists: seq<seq<Version>>): seq<Version> {
    if lists == [] then [] else Flat(lists[..|lists| - 1]) + lists[|lists| - 1]
  }

  /** First occurrences, in order. */
  function Distinct(s: seq<Version>): seq<Version> {
    if s == [] then []
    else
      var d := Distinct(s[..|s| - 1]);
      if s[|s| - 1] in d then d else d + [s[|s| - 1]]
  }

  /** Position of the first mention. */
  function IndexOf(list: seq<Version>, v: Version): (i: nat)
    requires v in list
    ensures i < |list| && list[i] == v && v !in list[..i]
  {
    if list[0] == v then 0
    else
      var i := 1 + IndexOf(list[1..], v);
      assert list[..i] == [list[0]] + list[1..][..i - 1];
      i
  }

  /** The entries a list names before the first mention of `pin`; none if it never mentions it. */
  function Above(list: seq<Version>, pin: Version): seq<Version> {
    if pin !in list then [] else list[..IndexOf(list, pin)]
  }

  function EachAbove(lists: seq<seq<Version>>, pin: Version): (r: seq<seq<Version>>)
    ensures |r| == |lists| && forall i | 0 <= i < |r| :: r[i] == Above(lists[i], pin)
  {
    if lists == [] then [] else EachAbove(lists[..|lists| - 1], pin) + [Above(lists[|lists| - 1], pin)]
  }

  /** Adds what is new in `list`, in order. */
  method Merge(known: seq<Version>, list: seq<Version>, ghost seen: seq<Version>) returns (more: seq<Version>)
    requires known == Distinct(seen)
    ensures more == Distinct(seen + list)
  {
    more := known;
    assert seen + list[..0] == seen;
    for i := 0 to |list|
      invariant more == Distinct(seen + list[..i])
    {
      assert (seen + list[..i + 1])[..|seen| + i] == seen + list[..i];
      if list[i] !in more { more := more + [list[i]]; }
    }
    assert list[..|list|] == list;
  }

  method SearchVersions(lists: seq<seq<Version>>) returns (versions: seq<Version>)
    ensures versions == Distinct(Flat(lists))
  {
    versions := [];
    for i := 0 to |lists|
      invariant versions == Distinct(Flat(lists[..i]))
    {
      assert lists[..i + 1][..i] == lists[..i];
      versions := Merge(versions, lists[i], Flat(lists[..i]));
    }
    assert lists[..|lists|] == lists;
  }

  method VersionsNewerThan(lists: seq<seq<Version>>, pin: Version) returns (newer: seq<Version>)
    ensures newer == Distinct(Flat(EachAbove(lists, pin)))
  {
    newer := [];
    for i := 0 to |lists|
      invariant newer == Distinct(Flat(EachAbove(lists[..i], pin)))
    {
      ghost var above := EachAbove(lists[..i], pin);
      assert lists[..i + 1][..i] == lists[..i];
      assert EachAbove(lists[..i + 1], pin) == above + [Above(lists[i], pin)];
      assert (above + [Above(lists[i], pin)])[..i] == above;
      if pin in lists[i] {
        newer := Merge(newer, lists[i][..IndexOf(lists[i], pin)], Flat(above));
      } else {
        assert Flat(above) + [] == Flat(above);
      }
    }
    assert lists[..|lists|] == lists;
  }

  lemma {:induction false} DistinctSame(s: seq<Version>, v: Version)
    ensures v in Distinct(s) <==> v in s
  {
    if s != [] {
      DistinctSame(s[..|s| - 1], v);
      DistinctSame(s[..|s| - 1], s[|s| - 1]);
      assert s == s[..|s| - 1] + [s[|s| - 1]];
    }
  }

  lemma {:induction false} DistinctOnce(s: seq<Version>)
    ensures forall i, j | 0 <= i < j < |Distinct(s)| :: Distinct(s)[i] != Distinct(s)[j]
  {
    if s != [] { DistinctOnce(s[..|s| - 1]); }
  }

  lemma {:induction false} FlatSame(lists: seq<seq<Version>>, v: Version)
    ensures v in Flat(lists) <==> exists i :: 0 <= i < |lists| && v in lists[i]
  {
    if lists != [] {
      var n := |lists| - 1;
      FlatSame(lists[..n], v);
      if v in Flat(lists[..n]) {
        var i :| 0 <= i < n && v in lists[..n][i];
        assert v in lists[i];
      }
      if i :| 0 <= i < |lists| && v in lists[i] {
        if i < n { assert v in lists[..n][i]; }
      }
    }
  }

  /** The versions a search offers: those of any platform, each once. */
  lemma OfferedVersions(lists: seq<seq<Version>>, v: Version)
    ensures v in Distinct(Flat(lists)) <==> exists i :: 0 <= i < |lists| && v in lists[i]
    ensures forall i, j | 0 <= i < j < |Distinct(Flat(lists))| :: Distinct(Flat(lists))[i] != Distinct(Flat(lists))[j]
  {
    DistinctSame(Flat(lists), v);
    FlatSame(lists, v);
    DistinctOnce(Flat(lists));
  }

  /** Newer than the pin is whatever some platform lists before its first mention of the pin; a platform that
      never mentions it says nothing. */
  lemma NewerVersions(lists: seq<seq<Version>>, pin: Version, v: Version)
    ensures v in Distinct(Flat(EachAbove(lists, pin))) <==>
            exists s, i :: 0 <= s < |lists| && pin in lists[s] && 0 <= i < IndexOf(lists[s], pin) && lists[s][i] == v
  {
    var above := EachAbove(lists, pin);
    OfferedVersions(above, v);
    if s, i :| 0 <= s < |lists| && pin in lists[s] && 0 <= i < IndexOf(lists[s], pin) && lists[s][i] == v {
      assert above[s][i] == v;
    }
  }

  // ----- Verdicts -----

  predicate Unique<T(==)>(s: seq<T>) {
    forall i, j | 0 <= i < j < |s| :: s[i] != s[j]
  }

  datatype E2eFinding = Unexpected | Repeated | Absent | NotMoved

  /** Whether an end-to-end roster condemns the candidate. */
  function E2eVerdict(failed: seq<string>, moved: bool): Option<E2eFinding> {
    if exists f :: f in failed && f !in TOLERATED_SCENARIOS then Some(Unexpected)
    else if !Unique(failed) then Some(Repeated)
    else if exists t :: t in TOLERATED_SCENARIOS && t !in failed then Some(Absent)
    else if !moved then Some(NotMoved)
    else None
  }

  datatype ContractFinding =
    NoRoster | Skipped | WrongRoster | Miscounted | NamedTwice | Outside | Missing | WrongExit | AgainstPin

  function Names(failures: seq<(string, string)>): (n: seq<string>)
    ensures |n| == |failures| && forall i | 0 <= i < |n| :: n[i] == failures[i].0
  {
    seq(|failures|, i requires 0 <= i < |failures| => failures[i].0)
  }

  /** Whether a strict contract run condemns the candidate. */
  function ContractVerdict(r: CommandResult, moved: bool): Option<ContractFinding> {
    match r.report
    case None => Some(NoRoster)
    case Some(report) =>
      if report.skipped != 0 then Some(Skipped)
      else if report.passed + report.failed + report.skipped != EXPECTED_CONTRACT_CHECKS then Some(WrongRoster)
      else if report.failed != |report.failures| then Some(Miscounted)
      else if !Unique(Names(report.failures)) then Some(NamedTwice)
      else if exists f :: f in report.failures && f !in TOLERATED_FAILURES then Some(Outside)
      else if exists t :: t in TOLERATED_FAILURES && t.0 !in Names(report.failures) then Some(Missing)
      else if r.returncode != CONTRACT_FAILURE_EXIT then Some(WrongExit)
      else if !moved then Some(AgainstPin)
      else None
  }

  lemma {:induction false} UniqueCounts<T>(s: seq<T>)
    ensures Unique(s) <==> forall x :: multiset(s)[x] <= 1
  {
    if s != [] {
      var n := |s| - 1;
      UniqueCounts(s[..n]);
      assert s == s[..n] + [s[n]];
      if Unique(s) {
        assert s[n] !in s[..n];
        assert multiset(s[..n])[s[n]] == 0;
      }
      if forall x :: multiset(s)[x] <= 1 {
        assert forall x :: multiset(s[..n])[x] <= multiset(s)[x];
        assert multiset(s)[s[n]] == multiset(s[..n])[s[n]] + 1;
        assert s[n] !in multiset(s[..n]);
      }
    }
  }

  /** Two duplicate-free sequences over the same elements are permutations of each other. */
  lemma SameElements<T>(a: seq<T>, b: seq<T>)
    requires Unique(b)
    ensures multiset(a) == multiset(b) <==> Unique(a) && forall x :: x in a <==> x in b
  {
    UniqueCounts(a);
    UniqueCounts(b);
    if multiset(a) == multiset(b) {
      assert forall x :: x in a <==> x in multiset(a);
    }
    if Unique(a) && forall x :: x in a <==> x in b {
      forall x
        ensures multiset(a)[x] == multiset(b)[x]
      {
        assert x in a <==> x in multiset(a);
        assert x in b <==> x in multiset(b);
      }
    }
  }

  /** The roster names the tolerated scenarios, each once, in any order. */
  predicate ToleratedSuite(failed: seq<string>) {
    multiset(failed) == multiset(TOLERATED_SCENARIOS)
  }

  /** The run names the tolerated failures, each once, in any order; it skips nothing, accounts for all 127
      checks, and exits 1. */
  predicate ToleratedContract(r: CommandResult) {
    && r.report.Some?
    && multiset(r.report.value.failures) == multiset(TOLERATED_FAILURES)
    && r.report.value.failed == 3
    && r.report.value.skipped == 0
    && r.report.value.passed == EXPECTED_CONTRACT_CHECKS - 3
    && r.returncode == CONTRACT_FAILURE_EXIT
  }

  /** An end-to-end roster is tolerated exactly if it is a permutation of the tolerated scenarios on a moved
      toolchain. */
  lemma E2eToleratesExactly(failed: seq<string>, moved: bool)
    ensures E2eVerdict(failed, moved) == None <==> ToleratedSuite(failed) && moved
  {
    SameElements(failed, TOLERATED_SCENARIOS);
  }

  /** A contract run is tolerated exactly if it names a permutation of the tolerated failures, skips nothing,
      accounts for all 127 checks, exits 1, and ran on a moved toolchain. */
  lemma ContractToleratesExactly(r: CommandResult, moved: bool)
    ensures ContractVerdict(r, moved) == None <==> ToleratedContract(r) && moved
  {
    if r.report.Some? {
      var failures := r.report.value.failures;
      ToleratedNames();
      RosterMeans(failures, TOLERATED_FAILURES);
      if multiset(failures) == multiset(TOLERATED_FAILURES) {
        assert |failures| == |multiset(failures)| == |multiset(TOLERATED_FAILURES)| == 3;
      }
    }
  }

  /** A roster is a permutation of one whose names are distinct exactly if it repeats no name, names nothing
      else and misses nothing. */
  lemma RosterMeans(failures: seq<(string, string)>, tolerated: seq<(string, string)>)
    requires Unique(Names(tolerated))
    ensures multiset(failures) == multiset(tolerated) <==>
            && Unique(Names(failures))
            && (forall f | f in failures :: f in tolerated)
            && (forall t | t in tolerated :: t.0 in Names(failures))
  {
    NamesUnique(tolerated);
    NamesUnique(failures);
    SameElements(failures, tolerated);
    NamesDetermine(tolerated);
    hide Unique;
    if Unique(Names(failures)) && (forall f | f in failures :: f in tolerated)
       && (forall t | t in tolerated :: t.0 in Names(failures)) {
      forall t | t in tolerated
        ensures t in failures
      {
        var i :| 0 <= i < |Names(failures)| && Names(failures)[i] == t.0;
        assert failures[i] in failures;
      }
    }
    if multiset(failures) == multiset(tolerated) {
      forall t | t in tolerated
        ensures t.0 in Names(failures)
      {
        var i :| 0 <= i < |failures| && failures[i] == t;
        assert Names(failures)[i] == t.0;
      }
    }
  }

  lemma NamesDetermine(failures: seq<(string, string)>)
    requires Unique(Names(failures))
    ensures forall f, g | f in failures && g in failures && f.0 == g.0 :: f == g
  {
  }

  /** Failures that share no name are distinct, and the other way round if a name determines its failure. */
  lemma NamesUnique(failures: seq<(string, string)>)
    ensures Unique(Names(failures)) ==> Unique(failures)
    ensures Unique(failures) && (forall f, g | f in failures && g in failures && f.0 == g.0 :: f == g)
            ==> Unique(Names(failures))
  {
  }

  lemma ToleratedNames()
    ensures Unique(Names(TOLERATED_FAILURES))
  {
  }
}

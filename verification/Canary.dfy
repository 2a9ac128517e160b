/** One day's probe of a candidate toolchain: ask the channels, install, run the gates, and name the outcome. Every
    outward step is a command whose answer is arbitrary. */
module Canary {
  import opened Wrappers
  import opened CanaryVerdicts

  datatype Command =
    | SearchAll
    | SearchNewer
    | SearchFloor
    | Install
    | ReadIdentity
    | Task(name: string)
    | Contract
    | Generate
    | CrossCompile
    | EndToEnd
    | PackageCheck(version: Version)

  datatype Step = Step(command: Command, result: CommandResult)

  /** A fault of the canary itself is raised rather than classified. */
  datatype Outcome = Classified(what: Classification, tested: Option<Version>) | Raised

  /** How the regenerated transcripts compare with the committed ones. */
  datatype Comparison = Same | Drifted | BrokenBaseline

  // ----- Timeouts -----

  /** The end-to-end roster is read whatever the suite exits, and this one is the tolerated one. */
  predicate Excused(s: Step) {
    s.command == EndToEnd && ToleratedSuite(s.result.scenarios)
  }

  /** The command was killed and its silence counts. */
  predicate Silenced(s: Step) {
    s.result.TimedOut() && !Excused(s)
  }

  ghost predicate Quiet(trace: seq<Step>) {
    forall s | s in trace :: !Silenced(s)
  }

  /** No command but the last was silenced, and the last one exactly if the day ended as a timeout. */
  ghost predicate Timely(trace: seq<Step>, outcome: Option<Outcome>) {
    if outcome == None then Quiet(trace)
    else
      && trace != []
      && Quiet(trace[..|trace| - 1])
      && (Silenced(trace[|trace| - 1]) <==> Ends(outcome, StageTimeout))
  }

  predicate Ends(outcome: Option<Outcome>, c: Classification) {
    outcome.Some? && outcome.value.Classified? && outcome.value.what == c
  }

  // ----- The channels -----

  /** A readable answer to the unbounded search that names the pin. */
  ghost predicate Inventory(s: Step, pin: Version) {
    && s.command == SearchAll && s.result.returncode == 0 && s.result.listing.Some?
    && exists i :: 0 <= i < |s.result.listing.value| && pin in s.result.listing.value[i]
  }

  /** Some platform of the inventory lists something before the pin. */
  ghost predicate ListsNewer(s: Step, pin: Version)
    requires s.result.listing.Some?
  {
    exists list :: list in s.result.listing.value && pin in list && list[0] != pin
  }

  ghost predicate OffersNothing(s: Step)
    requires s.result.listing.Some?
  {
    forall i | 0 <= i < |s.result.listing.value| :: s.result.listing.value[i] == []
  }

  predicate Confirms(r: CommandResult, pin: Version) {
    r.returncode == 0 && r.listing.Some? && pin in Distinct(Flat(r.listing.value))
  }

  /** A search that offers something. */
  predicate Offers(r: CommandResult) {
    r.returncode == 0 && r.listing.Some? && Distinct(Flat(r.listing.value)) != []
  }

  /** The bounded search named nothing: it answered so, or it failed and the control answered. */
  ghost predicate NothingFound(trace: seq<Step>, pin: Version) {
    && |trace| >= 2
    && trace[1].command == SearchNewer
    && (|| (|trace| == 2 && trace[1].result.returncode == 0 && trace[1].result.listing.Some? && OffersNothing(trace[1]))
        || (|trace| == 3 && trace[1].result.returncode !in {0, TIMEOUT_RETURNCODE}
            && trace[2].command == SearchFloor && Confirms(trace[2].result, pin)))
  }

  /** An idle day. */
  ghost predicate Idle(trace: seq<Step>, pin: Version) {
    && NothingFound(trace, pin)
    && Inventory(trace[0], pin)
    && !ListsNewer(trace[0], pin)
  }

  /** Some command failed without being killed. */
  ghost predicate SomethingFailed(trace: seq<Step>) {
    exists s :: s in trace && s.result.returncode !in {0, TIMEOUT_RETURNCODE}
  }

  // ----- Installing -----

  /** The steps of an installation and what they amount to. A failed attempt is repeated once, a killed one never;
      after a failed last attempt the channels are asked whether they can still be questioned. */
  ghost predicate Installs(steps: seq<Step>, pin: Version, done: Option<Outcome>) {
    && |steps| > 0
    && var n := if steps[0].result.returncode in {0, TIMEOUT_RETURNCODE} then 1 else 2;
       && n <= |steps| && (forall i | 0 <= i < n :: steps[i].command == Install)
       && var last := steps[n - 1].result;
          if last.returncode == 0 then |steps| == n && done == None
          else if last.TimedOut() then |steps| == n && done == Some(Classified(StageTimeout, None))
          else
            && |steps| == n + 1 && steps[n].command == SearchFloor
            && done == Some(Classified(Unreached(steps[n].result, pin), None))
  }

  /** The attempts made so far, the last of which is not to be repeated. */
  ghost predicate Installing(steps: seq<Step>) {
    && 0 < |steps| <= 2
    && (forall s | s in steps :: s.command == Install)
    && (|steps| == 1 <==> steps[0].result.returncode in {0, TIMEOUT_RETURNCODE})
  }

  lemma FirstAttempt(s: Step)
    requires s.command == Install
    ensures s.result.returncode == 0 || s.result.TimedOut() ==> Installing([s])
  {
  }

  lemma SecondAttempt(s: Step, t: Step)
    requires s.command == Install && t.command == Install && s.result.returncode != 0 && !s.result.TimedOut()
    ensures Installing([s] + [t])
  {
  }

  lemma AttemptsMean(steps: seq<Step>, pin: Version)
    requires Installing(steps)
    ensures steps[|steps| - 1].result.returncode == 0 ==> Installs(steps, pin, None)
    ensures steps[|steps| - 1].result.TimedOut() ==> Installs(steps, pin, Some(Classified(StageTimeout, None)))
  {
  }

  lemma ControlMeans(steps: seq<Step>, control: Step, pin: Version)
    requires Installing(steps) && control.command == SearchFloor
    requires steps[|steps| - 1].result.returncode != 0 && !steps[|steps| - 1].result.TimedOut()
    ensures Installs(steps + [control], pin, Some(Classified(Unreached(control.result, pin), None)))
  {
    hide Unreached;
  }

  /** What the control search says about an installation that failed. */
  function Unreached(control: CommandResult, pin: Version): Classification {
    if control.TimedOut() then StageTimeout
    else if Confirms(control, pin) then SourceIncompatible
    else if control.returncode != 0 then InfraFailure
    else CanaryBroken
  }

  /** What the installed toolchain says about itself. */
  function Identified(r: CommandResult, candidates: seq<Version>): Option<Outcome> {
    if r.TimedOut() then Some(Classified(StageTimeout, None))
    else if r.returncode != 0 then Some(Classified(CanaryBroken, None))
    else if r.identity == None then Some(Raised)
    else if r.identity.value !in candidates then Some(Classified(CanaryBroken, Some(r.identity.value)))
    else None
  }

  // ----- The gates -----

  /** What a resolved candidate goes through, packaging last. */
  function Gates(stable: bool, version: Version): seq<Command> {
    [Task("build-bin"), Task("test"), Contract, Generate]
    + (if stable then [CrossCompile] else [])
    + [EndToEnd]
    + (if stable then [PackageCheck(version)] else [])
  }

  predicate Holds(s: Step, moved: bool, comparison: Comparison) {
    match s.command
    case Contract => ContractVerdict(s.result, moved) == None
    case Generate => s.result.returncode == 0 && comparison == Same
    case EndToEnd => E2eVerdict(s.result.scenarios, moved) == None
    case _ => s.result.returncode == 0
  }

  /** What a gate that does not hold says about the candidate. */
  function Blame(s: Step, version: Version, comparison: Comparison): Outcome {
    var tested := Some(version);
    if s.result.TimedOut() then Classified(StageTimeout, tested)
    else if s.command == Generate then
      if s.result.returncode == 0 then
        (if comparison == BrokenBaseline then Raised else Classified(ProtocolDrift, tested))
      else if s.result.returncode == GENERATOR_PIN_EXIT && s.result.pinMarked then Classified(ProtocolDrift, tested)
      else Classified(SourceIncompatible, tested)
    else if s.command.PackageCheck? then Classified(PackageFailed, tested)
    else Classified(SourceIncompatible, tested)
  }

  /** The steps are gates in their order and every one holds. */
  ghost predicate Passing(steps: seq<Step>, gates: seq<Command>, moved: bool, comparison: Comparison) {
    && |steps| <= |gates|
    && forall i | 0 <= i < |steps| :: steps[i].command == gates[i] && Holds(steps[i], moved, comparison)
  }

  /** The first gate that does not hold decides the day; if all hold, the candidate passes. */
  ghost predicate Gated(steps: seq<Step>, gates: seq<Command>, version: Version, moved: bool, comparison: Comparison,
                        outcome: Outcome)
  {
    if outcome == Classified(Pass, Some(version)) then
      |steps| == |gates| && Passing(steps, gates, moved, comparison)
    else
      && 0 < |steps| <= |gates|
      && Passing(steps[..|steps| - 1], gates, moved, comparison)
      && steps[|steps| - 1].command == gates[|steps| - 1]
      && !Holds(steps[|steps| - 1], moved, comparison)
      && outcome == Blame(steps[|steps| - 1], version, comparison)
  }

  lemma HoldingIsNotSilenced(s: Step, moved: bool, comparison: Comparison)
    ensures Holds(s, moved, comparison) ==> !Silenced(s)
    ensures !Holds(s, moved, comparison) && (s.command == EndToEnd ==> moved) ==> (Silenced(s) <==> s.result.TimedOut())
  {
    if s.command == EndToEnd { E2eToleratesExactly(s.result.scenarios, moved); }
    if s.command == Contract { ContractToleratesExactly(s.result, moved); }
  }

  /** What the control search says about a bounded search that failed. */
  function Corroborated(control: CommandResult, pin: Version, newer: bool): Classification {
    if control.TimedOut() then StageTimeout
    else if !Confirms(control, pin) then (if control.returncode != 0 then InfraFailure else CanaryBroken)
    else if newer then InfraFailure
    else NoNewerCandidate
  }

  // ----- The day as a whole -----

  /** The questions put to the channels and what they come to; with nothing decided the day goes on. */
  ghost predicate Asked(trace: seq<Step>, pin: Version, done: Option<Outcome>) {
    && 0 < |trace| <= 3 && trace[0].command == SearchAll
    && if !Inventory(trace[0], pin) then
         |trace| == 1 && done == Some(Classified(Unlisted(trace[0].result), None))
       else
         && |trace| >= 2 && trace[1].command == SearchNewer
         && var found, newer := trace[1].result, ListsNewer(trace[0], pin);
            if found.returncode in {0, TIMEOUT_RETURNCODE} then
              && |trace| == 2
              && done == if found.TimedOut() then Some(Classified(StageTimeout, None))
                         else if found.listing == None then Some(Classified(CanaryBroken, None))
                         else if Offers(found) then None
                         else Some(Classified(if newer then CanaryBroken else NoNewerCandidate, None))
            else
              && |trace| == 3 && trace[2].command == SearchFloor
              && done == Some(Classified(Corroborated(trace[2].result, pin, newer), None))
  }

  /** What an inventory says that does not name the pin. */
  function Unlisted(r: CommandResult): Classification {
    if r.TimedOut() then StageTimeout else if r.returncode != 0 then InfraFailure else CanaryBroken
  }

  /** The part of the day that ends with an installed toolchain. */
  ghost predicate Provided(trace: seq<Step>, pin: Version, refuses: bool, done: Option<Outcome>) {
    || (done.Some? && Asked(trace, pin, done))
    || (&& |trace| >= 2 && Asked(trace[..2], pin, None)
        && if refuses then |trace| == 2 && done == Some(Raised) else Installs(trace[2..], pin, done))
  }

  /** The part that begins with the question who the installed toolchain is. */
  ghost predicate Probed(steps: seq<Step>, candidates: seq<Version>, pin: Version, stable: bool,
                         comparison: Comparison, refuses: bool, outcome: Outcome) {
    && |steps| > 0 && steps[0].command == ReadIdentity
    && var done := Identified(steps[0].result, candidates);
       if done.Some? then |steps| == 1 && outcome == done.value
       else if stable && refuses then |steps| == 1 && outcome == Raised
       else
         var version := steps[0].result.identity.value;
         Gated(steps[1..], Gates(stable, version), version, version != pin, comparison, outcome)
  }

  ghost predicate Day(trace: seq<Step>, pin: Version, stable: bool, comparison: Comparison, manifestRefuses: bool,
                      recipeRefuses: bool, outcome: Outcome) {
    || Provided(trace, pin, manifestRefuses, Some(outcome))
    || exists n: nat :: ProbedFrom(trace, n, pin, stable, comparison, manifestRefuses, recipeRefuses, outcome)
  }

  ghost predicate ProbedFrom(trace: seq<Step>, n: nat, pin: Version, stable: bool, comparison: Comparison,
                             manifestRefuses: bool, recipeRefuses: bool, outcome: Outcome) {
    && 2 <= n <= |trace| && Provided(trace[..n], pin, manifestRefuses, None)
    && trace[1].result.listing.Some?
    && Probed(trace[n..], Distinct(Flat(trace[1].result.listing.value)), pin, stable, comparison, recipeRefuses,
              outcome)
  }

  lemma DayInParts(provided: seq<Step>, trace: seq<Step>, candidates: seq<Version>, pin: Version, stable: bool,
                   comparison: Comparison, manifestRefuses: bool, recipeRefuses: bool, outcome: Outcome)
    requires 2 <= |provided| && provided <= trace && Provided(provided, pin, manifestRefuses, None)
    requires provided[1].result.listing.Some?
    requires candidates == Distinct(Flat(provided[1].result.listing.value))
    requires Probed(trace[|provided|..], candidates, pin, stable, comparison, recipeRefuses, outcome)
    ensures Day(trace, pin, stable, comparison, manifestRefuses, recipeRefuses, outcome)
  {
    hide Provided, Probed;
    assert trace[..|provided|] == provided;
    assert ProbedFrom(trace, |provided|, pin, stable, comparison, manifestRefuses, recipeRefuses, outcome);
  }

  lemma InventorySearches(s: Step, pin: Version)
    requires Inventory(s, pin)
    ensures s.command == SearchAll
  {
  }

  lemma FailedStep(trace: seq<Step>, i: nat)
    requires i < |trace| && trace[i].result.returncode !in {0, TIMEOUT_RETURNCODE}
    ensures SomethingFailed(trace)
  {
  }

  lemma IdleAfterTwo(all: Step, found: Step, pin: Version)
    requires Inventory(all, pin) && found.command == SearchNewer
    ensures Idle([all, found], pin) <==>
              && found.result.returncode == 0 && found.result.listing.Some? && OffersNothing(found)
              && !ListsNewer(all, pin)
  {
  }

  lemma IdleAfterThree(all: Step, found: Step, control: Step, pin: Version)
    requires Inventory(all, pin) && found.command == SearchNewer && control.command == SearchFloor
    requires found.result.returncode !in {0, TIMEOUT_RETURNCODE}
    ensures Idle([all, found, control], pin)
       <==> Corroborated(control.result, pin, ListsNewer(all, pin)) == NoNewerCandidate
  {
  }

  /** A day that ended before the bounded search is not an idle one. */
  lemma NeverIdle(pin: Version)
    ensures forall trace: seq<Step> | |trace| < 2 :: !Idle(trace, pin)
  {
  }

  lemma NewerIsListed(lists: seq<seq<Version>>, pin: Version)
    ensures Distinct(Flat(EachAbove(lists, pin))) == []
       <==> forall list | list in lists && pin in list :: list[0] == pin
  {
    var newer := Distinct(Flat(EachAbove(lists, pin)));
    if newer != [] {
      NewerVersions(lists, pin, newer[0]);
      var s, i :| 0 <= s < |lists| && pin in lists[s] && 0 <= i < IndexOf(lists[s], pin) && lists[s][i] == newer[0];
      assert lists[s] in lists && lists[s][0] != pin;
    } else {
      forall list | list in lists && pin in list
        ensures list[0] == pin
      {
        NewerVersions(lists, pin, list[0]);
        var s :| 0 <= s < |lists| && lists[s] == list;
        assert IndexOf(lists[s], pin) == 0;
      }
    }
  }

  lemma OffersNothingMeans(lists: seq<seq<Version>>)
    ensures Distinct(Flat(lists)) == [] <==> forall i | 0 <= i < |lists| :: lists[i] == []
  {
    if Distinct(Flat(lists)) != [] {
      OfferedVersions(lists, Distinct(Flat(lists))[0]);
    }
    forall i | 0 <= i < |lists| && lists[i] != []
      ensures Distinct(Flat(lists)) != []
    {
      OfferedVersions(lists, lists[i][0]);
    }
  }

  /** What one more step does to a trace without a silenced one. */
  lemma QuietGrows(trace: seq<Step>, s: Step)
    requires Quiet(trace)
    ensures !Silenced(s) ==> Quiet(trace + [s]) && Timely(trace + [s], None)
    ensures forall done: Option<Outcome> :: done.Some? && (Silenced(s) <==> Ends(done, StageTimeout)) ==>
              Timely(trace + [s], done)
    ensures (trace + [s])[..|trace + [s]| - 1] == trace
  {
  }

  class Probe {
    const pin: Version
    const stable: bool
    const oracle: nat -> CommandResult
    const comparison: Comparison
    const manifestRefuses: bool
    const recipeRefuses: bool
    var trace: seq<Step>
    var manifestRelaxed: bool
    var recipePinned: bool

    constructor (pin: Version, stable: bool, oracle: nat -> CommandResult, comparison: Comparison,
                 manifestRefuses: bool, recipeRefuses: bool)
      ensures this.pin == pin && this.stable == stable && this.oracle == oracle && this.comparison == comparison
      ensures this.manifestRefuses == manifestRefuses && this.recipeRefuses == recipeRefuses
      ensures trace == [] && !manifestRelaxed && !recipePinned
    {
      this.pin, this.stable, this.oracle, this.comparison := pin, stable, oracle, comparison;
      this.manifestRefuses, this.recipeRefuses := manifestRefuses, recipeRefuses;
      trace, manifestRelaxed, recipePinned := [], false, false;
    }

    /** Every answer in the trace is the oracle's. */
    ghost predicate Recorded()
      reads this`trace
    {
      forall i | 0 <= i < |trace| :: trace[i].result == oracle(i)
    }

    /** Spawns one command; what it answers is up to the oracle. */
    method Run(c: Command) returns (r: CommandResult)
      modifies this`trace
      ensures r == oracle(|old(trace)|) && trace == old(trace) + [Step(c, r)]
      ensures old(Recorded()) ==> Recorded()
    {
      r := oracle(|trace|);
      trace := trace + [Step(c, r)];
    }

    /** The channels are asked for their inventory and for anything newer than the pin. */
    method AskChannels() returns (done: Option<Outcome>, candidates: seq<Version>)
      requires trace == []
      modifies this`trace
      ensures Recorded() && Timely(trace, done)
      ensures Asked(trace, pin, done)
      ensures done == None <==> Confirms(oracle(0), pin) && Offers(oracle(1))
      ensures Ends(done, InfraFailure) ==> SomethingFailed(trace)
      ensures Ends(done, NoNewerCandidate) <==> Idle(trace, pin)
      ensures forall s | s in trace :: s.command in {SearchAll, SearchNewer, SearchFloor}
      ensures done.Some? ==>
                && done.value.Classified? && done.value.tested == None
                && done.value.what in {StageTimeout, InfraFailure, CanaryBroken, NoNewerCandidate}
      ensures done == None ==>
                && |trace| == 2 && Inventory(trace[0], pin)
                && trace[1].command == SearchNewer && trace[1].result.returncode == 0 && trace[1].result.listing.Some?
                && candidates == Distinct(Flat(trace[1].result.listing.value)) != []
    {
      hide Flat, Distinct, EachAbove, Idle;
      NeverIdle(pin);
      candidates := [];
      var published := Run(SearchAll);
      if published.returncode != 0 {
        assert trace[0] == Step(SearchAll, published);
        return Some(Classified(if published.TimedOut() then StageTimeout else InfraFailure, None)), [];
      }
      if published.listing == None {
        return Some(Classified(CanaryBroken, None)), [];
      }
      var lists := published.listing.value;
      var available := SearchVersions(lists);
      var newer := VersionsNewerThan(lists, pin);
      NewerIsListed(lists, pin);
      OfferedVersions(lists, pin);
      if pin !in available {
        return Some(Classified(CanaryBroken, None)), [];
      }
      assert Inventory(trace[0], pin) && (ListsNewer(trace[0], pin) <==> newer != []);
      done, candidates := AskForNewer(newer);
    }

    method AskForNewer(newer: seq<Version>) returns (done: Option<Outcome>, candidates: seq<Version>)
      requires |trace| == 1 && Recorded() && Quiet(trace)
      requires Inventory(trace[0], pin) && (ListsNewer(trace[0], pin) <==> newer != [])
      modifies this`trace
      ensures Recorded() && (done == None <==> Offers(oracle(1)))
      ensures Asked(trace, pin, done)
      ensures |trace| >= 2 && trace[0] == old(trace)[0] && Timely(trace, done)
      ensures Ends(done, InfraFailure) ==> SomethingFailed(trace)
      ensures Ends(done, NoNewerCandidate) <==> Idle(trace, pin)
      ensures forall s | s in trace :: s.command in {SearchAll, SearchNewer, SearchFloor}
      ensures done.Some? ==>
                && done.value.Classified? && done.value.tested == None
                && done.value.what in {StageTimeout, InfraFailure, CanaryBroken, NoNewerCandidate}
      ensures done == None ==>
                && |trace| == 2
                && trace[1].command == SearchNewer && trace[1].result.returncode == 0 && trace[1].result.listing.Some?
                && candidates == Distinct(Flat(trace[1].result.listing.value)) != []
    {
      hide Flat, Distinct, EachAbove, Inventory, ListsNewer, Quiet, Timely, Recorded, Idle, Confirms,
        SomethingFailed;
      InventorySearches(trace[0], pin);
      ghost var asked := trace;
      candidates := [];
      var found := Run(SearchNewer);
      ghost var s := Step(SearchNewer, found);
      QuietGrows(asked, s);
      assert trace == [asked[0], s];
      IdleAfterTwo(asked[0], s, pin);
      if found.TimedOut() { return Some(Classified(StageTimeout, None)), []; }
      if found.returncode == 0 {
        if found.listing == None { return Some(Classified(CanaryBroken, None)), []; }
        candidates := SearchVersions(found.listing.value);
        OffersNothingMeans(found.listing.value);
        if candidates != [] { return None, candidates; }
        done := Some(Classified(if newer != [] then CanaryBroken else NoNewerCandidate, None));
        return;
      }
      ghost var control;
      done, control := Corroborate(newer != []);
      FailedStep(trace, 1);
      IdleAfterThree(asked[0], s, control, pin);
      assert trace == [asked[0], s, control];
    }

    /** Asks the control question about a bounded search that failed. */
    method Corroborate(newer: bool) returns (done: Option<Outcome>, ghost s: Step)
      requires Recorded() && Quiet(trace)
      modifies this`trace
      ensures Recorded() && Timely(trace, done)
      ensures trace == old(trace) + [s] && s.command == SearchFloor
      ensures done == Some(Classified(Corroborated(s.result, pin, newer), None))
    {
      hide Quiet, Timely, Recorded, Confirms;
      ghost var asked := trace;
      var control := Run(SearchFloor);
      s := Step(SearchFloor, control);
      QuietGrows(asked, s);
      if control.TimedOut() {
        done := Some(Classified(StageTimeout, None));
      } else if !Confirms(control, pin) {
        done := Some(Classified(if control.returncode != 0 then InfraFailure else CanaryBroken, None));
      } else {
        done := Some(Classified(if newer then InfraFailure else NoNewerCandidate, None));
      }
    }

    /** Rewrites the manifest and installs, with one retry, and asks the channels again if that failed twice. */
    method InstallCandidate() returns (done: Option<Outcome>, ghost steps: seq<Step>)
      requires trace != [] && Recorded() && Quiet(trace)
      modifies this`trace, this`manifestRelaxed
      ensures trace == old(trace) + steps && Recorded() && Timely(trace, done)
      ensures if manifestRefuses then done == Some(Raised) && steps == []
              else manifestRelaxed && Installs(steps, pin, done)
    {
      hide Quiet, Timely, Recorded, Confirms, Unreached, Silenced, Installs, Installing;
      RaisedIsTimely(trace);
      ghost var before := trace;
      steps := [];
      if manifestRefuses { return Some(Raised), steps; }
      manifestRelaxed := true;
      var install := Attempt();
      steps := [Step(Install, install)];
      FirstAttempt(steps[0]);
      if install.returncode != 0 && !install.TimedOut() {
        ghost var failed := trace;
        install := Attempt();
        SecondAttempt(steps[0], Step(Install, install));
        steps := steps + [Step(Install, install)];
        assert failed + [Step(Install, install)] == before + steps;
      }
      AttemptsMean(steps, pin);
      if install.TimedOut() { return Some(Classified(StageTimeout, None)), steps; }
      if install.returncode == 0 { return None, steps; }
      ghost var s;
      done, s := AskControl();
      assert before + steps + [s] == before + (steps + [s]);
      ControlMeans(steps, s, pin);
      steps := steps + [s];
    }

    method Attempt() returns (install: CommandResult)
      requires Recorded() && Quiet(trace)
      modifies this`trace
      ensures trace == old(trace) + [Step(Install, install)] && Recorded()
      ensures install.TimedOut() ==> Timely(trace, Some(Classified(StageTimeout, None)))
      ensures !install.TimedOut() ==> Quiet(trace) && Timely(trace, None)
    {
      hide Recorded;
      ghost var before := trace;
      install := Run(Install);
      QuietGrows(before, Step(Install, install));
    }

    /** Asks the channels whether they can still be questioned. */
    method AskControl() returns (done: Option<Outcome>, ghost s: Step)
      requires Recorded() && Quiet(trace)
      modifies this`trace
      ensures Recorded() && Timely(trace, done)
      ensures trace == old(trace) + [s] && s.command == SearchFloor
      ensures done == Some(Classified(Unreached(s.result, pin), None))
    {
      hide Quiet, Timely, Recorded, Confirms;
      ghost var asked := trace;
      var control := Run(SearchFloor);
      s := Step(SearchFloor, control);
      QuietGrows(asked, s);
      if control.TimedOut() {
        done := Some(Classified(StageTimeout, None));
      } else if !Confirms(control, pin) {
        done := Some(Classified(if control.returncode != 0 then InfraFailure else CanaryBroken, None));
      } else {
        done := Some(Classified(SourceIncompatible, None));
      }
    }

    /** Asks the installed toolchain who it is; it must be one of the candidates screened. */
    method Resolve(candidates: seq<Version>) returns (done: Option<Outcome>, version: Version)
      requires Recorded() && Quiet(trace)
      modifies this`trace
      ensures Recorded() && Timely(trace, done)
      ensures trace == old(trace) + [Step(ReadIdentity, oracle(|old(trace)|))]
      ensures done == Identified(oracle(|old(trace)|), candidates)
      ensures done == None ==> Some(version) == oracle(|old(trace)|).identity
    {
      hide Quiet, Timely, Recorded;
      version := "";
      ghost var before := trace;
      var identity := Run(ReadIdentity);
      QuietGrows(before, Step(ReadIdentity, identity));
      if identity.returncode != 0 {
        return Some(Classified(if identity.TimedOut() then StageTimeout else CanaryBroken, None)), version;
      }
      if identity.identity == None { return Some(Raised), version; }
      version := identity.identity.value;
      if version !in candidates { return Some(Classified(CanaryBroken, Some(version))), version; }
      return None, version;
    }

    /** Runs the next gate and, if it does not hold, blames it. */
    method Gate(ghost base: seq<Step>, ghost steps: seq<Step>, c: Command, version: Version)
      returns (done: Option<Outcome>, ghost more: seq<Step>)
      requires trace == base + steps && Recorded()
      requires Quiet(trace) && Passing(steps, Gates(stable, version), version != pin, comparison)
      requires |steps| < |Gates(stable, version)| && Gates(stable, version)[|steps|] == c
      requires c == EndToEnd ==> version != pin
      modifies this`trace
      ensures |more| == |steps| + 1 && trace == base + more && Recorded()
      ensures done == None ==> Passing(more, Gates(stable, version), version != pin, comparison) && Quiet(trace)
      ensures done.Some? ==>
                && Gated(more, Gates(stable, version), version, version != pin, comparison, done.value)
                && Timely(trace, done)
                && done.value != Classified(Pass, Some(version))
                && !Ends(done, InfraFailure) && !Ends(done, NoNewerCandidate) && !Ends(done, Pass)
      ensures done == None && c == Contract ==> version != pin
    {
      hide *;
      ghost var before := trace;
      var r := Run(c);
      var s := Step(c, r);
      more := steps + [s];
      assert trace == base + more;
      QuietGrows(before, s);
      BlameMeans(s, version, comparison);
      GateDecides(steps, s, Gates(stable, version), version, version != pin, comparison);
      HoldingIsNotSilenced(s, version != pin, comparison);
      if Holds(s, version != pin, comparison) {
        if c == Contract { ContractHeldIsMoved(s, version != pin, comparison); }
        return None, more;
      }
      done := Some(Blame(s, version, comparison));
    }

    /** The gates on a resolved candidate, in order. */
    method RunGates(version: Version) returns (outcome: Outcome, ghost steps: seq<Step>)
      requires Recorded() && Quiet(trace)
      modifies this`trace
      ensures trace == old(trace) + steps && Recorded()
      ensures Gated(steps, Gates(stable, version), version, version != pin, comparison, outcome)
      ensures Timely(trace, Some(outcome))
      ensures outcome.Classified? ==> outcome.what !in {InfraFailure, NoNewerCandidate}
      ensures Ends(Some(outcome), Pass) ==> outcome.tested == Some(version)
    {
      GatesInOrder(stable, version);
      assert Passing([], Gates(stable, version), version != pin, comparison);
      hide Timely, Quiet, Passing, Gated, Gates;
      ghost var base := trace;
      var done;
      done, steps := Gate(base, [], Task("build-bin"), version);
      if done.Some? { return done.value, steps; }
      done, steps := Gate(base, steps, Task("test"), version);
      if done.Some? { return done.value, steps; }
      done, steps := Gate(base, steps, Contract, version);
      if done.Some? { return done.value, steps; }
      done, steps := Gate(base, steps, Generate, version);
      if done.Some? { return done.value, steps; }
      outcome, steps := RunSlowGates(base, steps, version);
    }

    method RunSlowGates(ghost base: seq<Step>, ghost given: seq<Step>, version: Version)
      returns (outcome: Outcome, ghost steps: seq<Step>)
      requires trace == base + given && Recorded()
      requires Quiet(trace) && version != pin && |given| == 4
      requires Passing(given, Gates(stable, version), version != pin, comparison)
      modifies this`trace
      ensures trace == base + steps && Recorded()
      ensures Gated(steps, Gates(stable, version), version, version != pin, comparison, outcome)
      ensures Timely(trace, Some(outcome))
      ensures outcome.Classified? ==> outcome.what !in {InfraFailure, NoNewerCandidate}
      ensures Ends(Some(outcome), Pass) ==> outcome.tested == Some(version)
    {
      GatesInOrder(stable, version);
      steps := given;
      hide Quiet, Passing, Gates, Timely, Gated;
      var done;
      if stable {
        done, steps := Gate(base, steps, CrossCompile, version);
        if done.Some? { return done.value, steps; }
      }
      done, steps := Gate(base, steps, EndToEnd, version);
      if done.Some? { return done.value, steps; }
      if stable {
        done, steps := Gate(base, steps, PackageCheck(version), version);
        if done.Some? { return done.value, steps; }
      }
      outcome := Classified(Pass, Some(version));
      AllPassed(steps, trace, Gates(stable, version), version, version != pin, comparison);
    }

    /** Where in the day the toolchain is asked who it is, if the installation succeeds. */
    ghost function IdentityAt(): nat {
      if oracle(2).returncode == 0 then 3 else 4
    }

    /** The oracle lets the day come as far as an installed toolchain. */
    ghost predicate Installable() {
      && Confirms(oracle(0), pin) && Offers(oracle(1)) && !manifestRefuses
      && (oracle(2).returncode == 0 || (!oracle(2).TimedOut() && oracle(3).returncode == 0))
    }

    /** And as far as the gates. */
    ghost predicate ReachesGates() {
      && Installable()
      && Identified(oracle(IdentityAt()), Distinct(Flat(oracle(1).listing.value))) == None
      && !(stable && recipeRefuses)
    }

    /** The part of the day that ends with an installed toolchain. */
    method Provide() returns (done: Option<Outcome>, candidates: seq<Version>)
      requires trace == [] && !manifestRelaxed
      modifies this`trace, this`manifestRelaxed
      ensures Recorded() && Timely(trace, done)
      ensures forall s | s in trace :: s.command != ReadIdentity
      ensures Ends(done, InfraFailure) ==> SomethingFailed(trace)
      ensures Ends(done, NoNewerCandidate) <==> Idle(trace, pin)
      ensures Ends(done, NoNewerCandidate) ==> !manifestRelaxed
      ensures !Ends(done, Pass) && !Ends(done, PackageFailed)
      ensures done == None <==> Installable()
      ensures Provided(trace, pin, manifestRefuses, done)
      ensures done == None ==>
                && manifestRelaxed && |trace| == IdentityAt()
                && trace[1].result == oracle(1) && oracle(1).returncode == 0 && oracle(1).listing.Some?
                && candidates == Distinct(Flat(oracle(1).listing.value)) != []
    {
      hide Timely, Idle, Confirms, Offers, Installs, Recorded;
      done, candidates := AskChannels();
      RecordedAt(1);
      if done.Some? { return; }
      ghost var asked := trace;
      QuietSoFar(trace);
      ghost var install;
      done, install := InstallCandidate();
      NotIdle(trace, pin, candidates);
      if manifestRefuses { return; }
      InstalledMeans(asked, install, pin, done);
      RecordedAt(2);
      RecordedAt(3);
    }

    /** The whole probe. `steps` are the gates it reached, `version` the toolchain they ran on. */
    method Classify() returns (outcome: Outcome, ghost steps: seq<Step>, ghost version: Version)
      requires trace == [] && !manifestRelaxed && !recipePinned
      modifies this`trace, this`manifestRelaxed, this`recipePinned
      ensures Recorded() && Timely(trace, Some(outcome))
      ensures Ends(Some(outcome), InfraFailure) ==>
                SomethingFailed(trace) && forall s | s in trace :: s.command != ReadIdentity
      ensures Ends(Some(outcome), NoNewerCandidate) <==> Idle(trace, pin)
      ensures Ends(Some(outcome), NoNewerCandidate) ==> !manifestRelaxed && !recipePinned
      ensures recipePinned ==> stable && manifestRelaxed
      ensures steps == [] ==> !Ends(Some(outcome), Pass) && !Ends(Some(outcome), PackageFailed)
      ensures Day(trace, pin, stable, comparison, manifestRefuses, recipeRefuses, outcome)
      ensures steps != [] <==> ReachesGates()
      ensures steps != [] ==>
                && |trace| == IdentityAt() + 1 + |steps| && trace[IdentityAt() + 1..] == steps
                && oracle(IdentityAt()).identity == Some(version)
                && Gated(steps, Gates(stable, version), version, version != pin, comparison, outcome)
    {
      hide Timely, Idle, Recorded, Gated, Quiet, Identified, Gates, Provided, Probed, ProbedFrom;
      var done, candidates := Provide();
      if done.Some? { return done.value, [], ""; }
      QuietSoFar(trace);
      ghost var installed := trace;
      outcome, steps, version := ProbeInstalled(candidates);
      NotIdle(trace, pin, candidates);
      DayInParts(installed, trace, candidates, pin, stable, comparison, manifestRefuses, recipeRefuses, outcome);
    }

    lemma RecordedAt(i: nat)
      requires Recorded()
      ensures i < |trace| ==> trace[i].result == oracle(i)
    {
    }

    /** The part of the day that has an installed toolchain. */
    method ProbeInstalled(candidates: seq<Version>)
      returns (outcome: Outcome, ghost steps: seq<Step>, ghost version: Version)
      requires Recorded() && Quiet(trace) && !recipePinned
      modifies this`trace, this`recipePinned
      ensures old(trace) <= trace && Recorded() && Timely(trace, Some(outcome))
      ensures recipePinned ==> stable
      ensures Probed(trace[|old(trace)|..], candidates, pin, stable, comparison, recipeRefuses, outcome)
      ensures !Ends(Some(outcome), InfraFailure) && !Ends(Some(outcome), NoNewerCandidate)
      ensures var identity := oracle(|old(trace)|);
              if Identified(identity, candidates) == None && !(stable && recipeRefuses) then
                && identity.identity == Some(version) && steps != []
                && |trace| == |old(trace)| + 1 + |steps| && trace[|old(trace)| + 1..] == steps
                && Gated(steps, Gates(stable, version), version, version != pin, comparison, outcome)
              else steps == [] && !Ends(Some(outcome), Pass) && !Ends(Some(outcome), PackageFailed)
    {
      hide Gated, Timely, Identified, Recorded, Quiet, Gates;
      steps, version := [], "";
      var done, found := Resolve(candidates);
      IdentifiedMeans(oracle(|old(trace)|), candidates);
      if done.Some? { return done.value, steps, version; }
      QuietSoFar(trace);
      if stable {
        recipePinned := true;
        if recipeRefuses {
          RaisedIsTimely(trace);
          return Raised, steps, version;
        }
      }
      version := found;
      outcome, steps := RunGates(found);
      GatesInOrder(stable, version);
      GatedSteps(steps, Gates(stable, version), version, version != pin, comparison, outcome);
    }
  }

  /** What a finished installation says about the trace so far. */
  lemma InstalledMeans(asked: seq<Step>, steps: seq<Step>, pin: Version, done: Option<Outcome>)
    requires |asked| == 2 && Installs(steps, pin, done)
    requires forall s | s in asked :: s.command != ReadIdentity
    ensures var trace := asked + steps;
            && |trace| >= 3
            && (done == None <==>
                  trace[2].result.returncode == 0
                  || (!trace[2].result.TimedOut() && |trace| >= 4 && trace[3].result.returncode == 0
                      && trace[3].command == Install))
            && (done == None ==> |trace| == if trace[2].result.returncode == 0 then 3 else 4)
            && (done.Some? && !trace[2].result.TimedOut() && trace[2].result.returncode != 0 ==>
                  |trace| >= 4 && trace[3].result.returncode != 0)
            && (forall s | s in trace :: s.command != ReadIdentity)
            && (Ends(done, InfraFailure) ==> SomethingFailed(trace))
            && !Ends(done, NoNewerCandidate) && !Ends(done, Pass) && !Ends(done, PackageFailed)
  {
    var trace := asked + steps;
    hide Confirms;
    assert steps[0] in trace;
  }

  lemma IdentifiedMeans(r: CommandResult, candidates: seq<Version>)
    ensures var done := Identified(r, candidates);
            && !Ends(done, InfraFailure) && !Ends(done, NoNewerCandidate)
            && !Ends(done, Pass) && !Ends(done, PackageFailed)
  {
  }

  lemma QuietSoFar(trace: seq<Step>)
    requires Timely(trace, None)
    ensures Quiet(trace)
  {
  }

  lemma RaisedIsTimely(trace: seq<Step>)
    requires Quiet(trace) && trace != []
    ensures Timely(trace, Some(Raised))
  {
  }

  /** Once the bounded search has offered something the day is not an idle one. */
  lemma NotIdle(trace: seq<Step>, pin: Version, candidates: seq<Version>)
    requires |trace| >= 2 && trace[1].result.returncode == 0 && trace[1].result.listing.Some?
    requires candidates == Distinct(Flat(trace[1].result.listing.value)) != []
    ensures !Idle(trace, pin)
  {
    OffersNothingMeans(trace[1].result.listing.value);
  }

  lemma GatedSteps(steps: seq<Step>, gates: seq<Command>, version: Version, moved: bool, comparison: Comparison,
                   outcome: Outcome)
    requires Gated(steps, gates, version, moved, comparison, outcome) && |gates| > 0
    ensures 0 < |steps| <= |gates|
  {
  }

  // ----- What a day's outcome means -----

  /** A day that ends in PASS, or in a packaging failure, held every source gate on a toolchain that is not the
      pin, with exactly the failures such a toolchain must produce. */
  lemma PackagingIsLast(steps: seq<Step>, stable: bool, version: Version, pin: Version, comparison: Comparison,
                        outcome: Outcome)
    requires Gated(steps, Gates(stable, version), version, version != pin, comparison, outcome)
    requires Ends(Some(outcome), Pass) || Ends(Some(outcome), PackageFailed)
    ensures |steps| >= 5 && version != pin && comparison == Same
    ensures forall i | 0 <= i < 2 :: steps[i].command.Task? && steps[i].result.returncode == 0
    ensures steps[2].command == Contract && ToleratedContract(steps[2].result)
    ensures steps[3].command == Generate && steps[3].result.returncode == 0
    ensures stable ==> steps[4].command == CrossCompile && steps[4].result.returncode == 0
    ensures var e2e := if stable then 5 else 4;
            && |steps| == (if stable then 7 else 5) && steps[e2e].command == EndToEnd
            && ToleratedSuite(steps[e2e].result.scenarios)
    ensures Ends(Some(outcome), PackageFailed) ==>
              && stable && steps[6].command == PackageCheck(version)
              && steps[6].result.returncode !in {0, TIMEOUT_RETURNCODE}
    ensures Ends(Some(outcome), Pass) && stable ==>
              steps[6].command == PackageCheck(version) && steps[6].result.returncode == 0
  {
    var moved := version != pin;
    var e2e := if stable then 5 else 4;
    hide *;
    AllGatesRan(steps, stable, version, moved, comparison, outcome);
    GatesInOrder(stable, version);
    HeldMeans(steps[0], moved, comparison);
    HeldMeans(steps[1], moved, comparison);
    HeldMeans(steps[2], moved, comparison);
    HeldMeans(steps[3], moved, comparison);
    HeldMeans(steps[4], moved, comparison);
    HeldMeans(steps[e2e], moved, comparison);
    if stable { HeldMeans(steps[6], moved, comparison); }
  }

  /** What a gate that holds has shown. */
  lemma HeldMeans(s: Step, moved: bool, comparison: Comparison)
    ensures Holds(s, moved, comparison) && s.command == Contract ==> ToleratedContract(s.result) && moved
    ensures Holds(s, moved, comparison) && s.command == Generate ==> s.result.returncode == 0 && comparison == Same
    ensures Holds(s, moved, comparison) && s.command == EndToEnd ==> ToleratedSuite(s.result.scenarios)
    ensures s.command.Task? || s.command.CrossCompile? || s.command.PackageCheck? ==>
              (Holds(s, moved, comparison) <==> s.result.returncode == 0)
    ensures s.result.TimedOut() <==> s.result.returncode == TIMEOUT_RETURNCODE
  {
    ContractToleratesExactly(s.result, moved);
    E2eToleratesExactly(s.result.scenarios, moved);
  }

  lemma AllGatesRan(steps: seq<Step>, stable: bool, version: Version, moved: bool, comparison: Comparison,
                    outcome: Outcome)
    requires Gated(steps, Gates(stable, version), version, moved, comparison, outcome)
    requires Ends(Some(outcome), Pass) || Ends(Some(outcome), PackageFailed)
    ensures |steps| == |Gates(stable, version)|
    ensures forall i | 0 <= i < |steps| :: steps[i].command == Gates(stable, version)[i]
    ensures forall i | 0 <= i <= (if stable then 5 else 4) :: Holds(steps[i], moved, comparison)
    ensures Ends(Some(outcome), Pass) ==> Holds(steps[|steps| - 1], moved, comparison)
    ensures Ends(Some(outcome), PackageFailed) ==>
              stable && !Holds(steps[6], moved, comparison) && !steps[6].result.TimedOut()
  {
  }

  /** The day is called a timeout exactly if some command was killed, and no command runs after a killed one. */
  ghost predicate TimeoutExact(trace: seq<Step>, outcome: Outcome) {
    && (Ends(Some(outcome), StageTimeout) <==> exists s :: s in trace && s.result.TimedOut())
    && forall i | 0 <= i < |trace| - 1 :: !trace[i].result.TimedOut()
  }

  /** The timeout verdict is exact exactly if no killed command was the end-to-end suite with the tolerated roster
      already printed. */
  lemma TimeoutIsExact(trace: seq<Step>, outcome: Outcome)
    requires Timely(trace, Some(outcome))
    ensures TimeoutExact(trace, outcome) <==> forall s | s in trace && s.result.TimedOut() :: !Excused(s)
  {
    var n := |trace| - 1;
    assert trace == trace[..n] + [trace[n]];
    if forall s | s in trace && s.result.TimedOut() :: !Excused(s) {
      forall i | 0 <= i < n
        ensures !trace[i].result.TimedOut()
      {
        assert trace[..n][i] in trace[..n] && trace[i] in trace;
      }
      assert trace[n] in trace;
    }
  }

  /** In particular where killed commands print nothing. */
  lemma SilentKillsAreTimeouts(trace: seq<Step>, outcome: Outcome)
    requires Timely(trace, Some(outcome))
    requires forall s | s in trace && s.result.TimedOut() :: s.result.scenarios == []
    ensures TimeoutExact(trace, outcome)
  {
    assert multiset(TOLERATED_SCENARIOS)["doctor-healthy"] > 0;
    var nothing: multiset<string> := multiset([]);
    assert nothing["doctor-healthy"] == 0;
    TimeoutIsExact(trace, outcome);
  }

  /** The gates do not see such a kill: a suite killed after printing exactly the tolerated roster passes. */
  lemma KilledSuiteCanPass(version: Version)
    ensures exists steps: seq<Step> ::
              && Gated(steps, Gates(false, version), version, true, Same, Classified(Pass, Some(version)))
              && |steps| == 5 && steps[4].command == EndToEnd && steps[4].result.TimedOut()
  {
    var fine := CommandResult(0, None, None, [], None, false);
    var roster := ContractReport(EXPECTED_CONTRACT_CHECKS - 3, 3, 0, TOLERATED_FAILURES);
    var contract := CommandResult(CONTRACT_FAILURE_EXIT, None, Some(roster), [], None, false);
    var killed := CommandResult(TIMEOUT_RETURNCODE, None, None, TOLERATED_SCENARIOS, None, false);
    ContractToleratesExactly(contract, true);
    E2eToleratesExactly(TOLERATED_SCENARIOS, true);
    FiveGatesPass(fine, contract, killed, version);
  }

  /** A whole day on which it happens: something newer is listed and installs at once, every gate answers as it
      should, and the suite is killed after its roll-call. */
  method KilledSuiteDay(pin: Version, version: Version) returns (outcome: Outcome, ghost trace: seq<Step>)
    requires version != pin
    ensures outcome == Classified(Pass, Some(version))
    ensures exists s :: s in trace && s.command == EndToEnd && s.result.TimedOut()
  {
    var fine := CommandResult(0, None, None, [], None, false);
    var roster := ContractReport(EXPECTED_CONTRACT_CHECKS - 3, 3, 0, TOLERATED_FAILURES);
    var contract := CommandResult(CONTRACT_FAILURE_EXIT, None, Some(roster), [], None, false);
    var killed := CommandResult(TIMEOUT_RETURNCODE, None, None, TOLERATED_SCENARIOS, None, false);
    var inventory := fine.(listing := Some([[version, pin]]));
    var newer := fine.(listing := Some([[version]]));
    var identity := fine.(identity := Some(version));
    ContractToleratesExactly(contract, true);
    E2eToleratesExactly(TOLERATED_SCENARIOS, true);
    outcome, trace := KilledDay(pin, version, inventory, newer, identity, fine, contract, killed);
  }

  method KilledDay(pin: Version, version: Version, inventory: CommandResult, newer: CommandResult,
                   identity: CommandResult, fine: CommandResult, contract: CommandResult, killed: CommandResult)
    returns (outcome: Outcome, ghost trace: seq<Step>)
    requires version != pin && fine.returncode == 0 && killed.TimedOut()
    requires inventory == fine.(listing := Some([[version, pin]])) && newer == fine.(listing := Some([[version]]))
    requires identity == fine.(identity := Some(version))
    requires ContractVerdict(contract, true) == None && E2eVerdict(killed.scenarios, true) == None
    ensures outcome == Classified(Pass, Some(version))
    ensures exists s :: s in trace && s.command == EndToEnd && s.result.TimedOut()
  {
    hide ContractVerdict, E2eVerdict, Timely, Idle, Gates, Gated, Distinct, Flat, Day;
    var answers := [inventory, newer, fine, identity, fine, fine, contract, fine, killed];
    var probe := new Probe(pin, false, (i: nat) => if i < 9 then answers[i] else fine, Same, false, false);
    CandidateListed(pin, version);
    ghost var steps, tested;
    outcome, steps, tested := probe.Classify();
    trace := probe.trace;
    assert probe.ReachesGates();
    forall i: nat | i < |steps|
      ensures i < 5 ==> steps[i].result == answers[4 + i]
      ensures steps[i] in trace
    {
      assert steps[i] == trace[4 + i];
    }
    KilledGates(steps, version, fine, contract, killed, outcome);
  }

  lemma CandidateListed(pin: Version, version: Version)
    ensures pin in Distinct(Flat([[version, pin]])) && version in Distinct(Flat([[version]]))
  {
    OfferedVersions([[version, pin]], pin);
    OfferedVersions([[version]], version);
    assert [[version, pin]][0][1] == pin && [[version]][0][0] == version;
  }

  lemma KilledGates(steps: seq<Step>, version: Version, fine: CommandResult, contract: CommandResult,
                    killed: CommandResult, outcome: Outcome)
    requires Gated(steps, Gates(false, version), version, true, Same, outcome)
    requires fine.returncode == 0 && ContractVerdict(contract, true) == None
    requires E2eVerdict(killed.scenarios, true) == None
    requires forall i: nat | i < |steps| && i < 5 :: steps[i].result == [fine, fine, contract, fine, killed][i]
    ensures outcome == Classified(Pass, Some(version)) && |steps| == 5
    ensures steps[4].command == EndToEnd && steps[4].result == killed
  {
    hide ContractVerdict, E2eVerdict, Blame;
    GatesInOrder(false, version);
    var gates, n := Gates(false, version), |steps| - 1;
    assert n < 5 && steps[n].command == gates[n] && steps[n].result == [fine, fine, contract, fine, killed][n];
    assert n == 0 || n == 1 || n == 2 || n == 3 || n == 4;
    assert Holds(steps[n], true, Same);
  }

  lemma FiveGatesPass(fine: CommandResult, contract: CommandResult, suite: CommandResult, version: Version)
    requires fine.returncode == 0 && ContractVerdict(contract, true) == None
    requires suite.TimedOut() && E2eVerdict(suite.scenarios, true) == None
    ensures exists steps: seq<Step> ::
              && Gated(steps, Gates(false, version), version, true, Same, Classified(Pass, Some(version)))
              && |steps| == 5 && steps[4].command == EndToEnd && steps[4].result.TimedOut()
  {
    var steps := [Step(Task("build-bin"), fine), Step(Task("test"), fine), Step(Contract, contract),
                  Step(Generate, fine), Step(EndToEnd, suite)];
    var gates := Gates(false, version);
    GatesInOrder(false, version);
    hide ContractVerdict, E2eVerdict, Gates;
    assert Passing(steps, gates, true, Same);
    assert Gated(steps, gates, version, true, Same, Classified(Pass, Some(version)));
  }

  lemma GatesInOrder(stable: bool, version: Version)
    ensures var gates := Gates(stable, version);
            && |gates| == (if stable then 7 else 5)
            && gates[0] == Task("build-bin") && gates[1] == Task("test") && gates[2] == Contract && gates[3] == Generate
            && gates[if stable then 5 else 4] == EndToEnd
            && (stable ==> gates[4] == CrossCompile && gates[6] == PackageCheck(version))
  {
  }

  lemma AllPassed(steps: seq<Step>, trace: seq<Step>, gates: seq<Command>, version: Version, moved: bool,
                  comparison: Comparison)
    requires Passing(steps, gates, moved, comparison) && |steps| == |gates|
    requires Quiet(trace) && trace != []
    ensures Gated(steps, gates, version, moved, comparison, Classified(Pass, Some(version)))
    ensures Timely(trace, Some(Classified(Pass, Some(version))))
  {
  }

  lemma ContractHeldIsMoved(s: Step, moved: bool, comparison: Comparison)
    requires s.command == Contract && Holds(s, moved, comparison)
    ensures moved
  {
    ContractToleratesExactly(s.result, moved);
  }

  lemma BlameMeans(s: Step, version: Version, comparison: Comparison)
    ensures var done := Some(Blame(s, version, comparison));
            && (Ends(done, StageTimeout) <==> s.result.TimedOut())
            && done.value != Classified(Pass, Some(version))
            && !Ends(done, InfraFailure) && !Ends(done, NoNewerCandidate) && !Ends(done, Pass)
  {
  }

  lemma GateDecides(steps: seq<Step>, s: Step, gates: seq<Command>, version: Version, moved: bool,
                    comparison: Comparison)
    requires Passing(steps, gates, moved, comparison) && |steps| < |gates| && s.command == gates[|steps|]
    ensures Holds(s, moved, comparison) ==> Passing(steps + [s], gates, moved, comparison)
    ensures !Holds(s, moved, comparison) ==>
              Gated(steps + [s], gates, version, moved, comparison, Blame(s, version, comparison))
  {
  }
}

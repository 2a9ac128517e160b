/** How a day ends, read off its last step alone. */
module CanaryDays {
  import opened Wrappers
  import opened CanaryVerdicts
  import opened Canary

  // ----- What an answer holds -----

  /** Some platform's list holds the version. */
  ghost predicate Carries(r: CommandResult, v: Version) {
    r.listing.Some? && exists list :: list in r.listing.value && v in list
  }

  ghost predicate CarriesAnything(r: CommandResult) {
    exists v :: Carries(r, v)
  }

  /** Some platform that lists the pin lists something before it. */
  ghost predicate Advertises(r: CommandResult, pin: Version) {
    r.listing.Some? && exists list :: list in r.listing.value && pin in list && list[0] != pin
  }

  ghost predicate Failed(r: CommandResult) { r.returncode !in {0, 124} }

  /** The step that asks the installed toolchain who it is, on days that come that far. */
  ghost function IdentityStep(trace: seq<Step>): Step
    requires |trace| > 4
  {
    if trace[2].result.returncode == 0 then trace[3] else trace[4]
  }

  ghost predicate IsGate(c: Command) {
    c.Task? || c.Contract? || c.Generate? || c.CrossCompile? || c.EndToEnd? || c.PackageCheck?
  }

  /** The end-to-end suite named exactly the tolerated failures. */
  ghost predicate SuiteTolerated(r: CommandResult) {
    multiset(r.scenarios) == multiset{"doctor-healthy", "doctor-config-free"}
  }

  /** The contract gate failed exactly the tolerated checks and accounts for all 127. */
  ghost predicate RosterTolerated(r: CommandResult) {
    && r.returncode == 1 && r.report.Some?
    && var report := r.report.value;
       && report.skipped == 0 && report.passed + report.failed == 127
       && report.failed == 3 && multiset(report.failures) == multiset(TOLERATED_FAILURES)
  }

  // ----- The table -----

  ghost predicate IsTimeout(last: Step) {
    last.result.returncode == 124 && !(last.command == EndToEnd && SuiteTolerated(last.result))
  }

  ghost predicate IsInfra(trace: seq<Step>, last: Step, pin: Version)
    requires |trace| > 0
  {
    || (last.command == SearchAll && Failed(last.result))
    || (last.command == SearchFloor && Failed(last.result))
    || (last.command == SearchFloor && |trace| == 3 && last.result.returncode == 0 && Carries(last.result, pin)
        && Advertises(trace[0].result, pin))
  }

  ghost predicate IsBroken(trace: seq<Step>, last: Step, pin: Version)
    requires |trace| > 0
  {
    || (last.command == SearchAll && last.result.returncode == 0 && !Carries(last.result, pin))
    || (last.command == SearchNewer && last.result.returncode == 0
        && (last.result.listing == None || (!CarriesAnything(last.result) && Advertises(trace[0].result, pin))))
    || (last.command == SearchFloor && last.result.returncode == 0 && !Carries(last.result, pin))
    || (last.command == ReadIdentity && Failed(last.result))
    || (last.command == ReadIdentity && last.result.returncode == 0 && last.result.identity.Some?
        && |trace| > 1 && !Carries(trace[1].result, last.result.identity.value))
  }

  ghost predicate IsIdle(trace: seq<Step>, last: Step, pin: Version)
    requires |trace| > 0
  {
    && !Advertises(trace[0].result, pin)
    && (|| (last.command == SearchNewer && last.result.returncode == 0 && last.result.listing.Some?
            && !CarriesAnything(last.result))
        || (last.command == SearchFloor && |trace| == 3 && last.result.returncode == 0 && Carries(last.result, pin)))
  }

  ghost predicate IsDrift(last: Step, comparison: Comparison) {
    && last.command == Generate
    && (|| (last.result.returncode == 0 && comparison == Drifted)
        || (last.result.returncode == 2 && last.result.pinMarked))
  }

  ghost predicate IsIncompatible(trace: seq<Step>, last: Step, pin: Version) {
    || (last.command == SearchFloor && |trace| == 5 && last.result.returncode == 0 && Carries(last.result, pin))
    || ((last.command.Task? || last.command.CrossCompile?) && Failed(last.result))
    || (last.command == Contract && last.result.returncode != 124 && |trace| > 4
        && (!RosterTolerated(last.result) || IdentityStep(trace).result.identity == Some(pin)))
    || (last.command == Generate && Failed(last.result) && !(last.result.returncode == 2 && last.result.pinMarked))
    || (last.command == EndToEnd && last.result.returncode != 124 && !SuiteTolerated(last.result))
  }

  ghost predicate IsRaised(trace: seq<Step>, last: Step, comparison: Comparison) {
    || (last.command == SearchNewer && last.result.returncode == 0 && CarriesAnything(last.result))
    || (last.command == ReadIdentity && last.result.returncode == 0 && |trace| > 1
        && (last.result.identity == None || Carries(trace[1].result, last.result.identity.value)))
    || (last.command == Generate && last.result.returncode == 0 && comparison == BrokenBaseline)
  }

  ghost predicate IsPass(last: Step, stable: bool) {
    if stable then last.command.PackageCheck? && last.result.returncode == 0
    else last.command == EndToEnd && SuiteTolerated(last.result)
  }

  /** The version the outcome speaks of. */
  ghost function Tested(trace: seq<Step>, last: Step): Option<Version> {
    if IsGate(last.command) && |trace| > 4 then IdentityStep(trace).result.identity
    else if last.command == ReadIdentity && last.result.returncode == 0 then last.result.identity
    else None
  }

  ghost predicate ByItsLastStep(trace: seq<Step>, pin: Version, stable: bool, comparison: Comparison,
                                outcome: Outcome) {
    && |trace| > 0
    && var last, o := trace[|trace| - 1], Some(outcome);
       && (Ends(o, StageTimeout) <==> IsTimeout(last))
       && (Ends(o, InfraFailure) <==> IsInfra(trace, last, pin))
       && (Ends(o, CanaryBroken) <==> IsBroken(trace, last, pin))
       && (Ends(o, NoNewerCandidate) <==> IsIdle(trace, last, pin))
       && (Ends(o, ProtocolDrift) <==> IsDrift(last, comparison))
       && (Ends(o, SourceIncompatible) <==> IsIncompatible(trace, last, pin))
       && (Ends(o, PackageFailed) <==> last.command.PackageCheck? && Failed(last.result))
       && (Ends(o, Pass) <==> IsPass(last, stable))
       && (outcome == Raised <==> IsRaised(trace, last, comparison))
       && (outcome.Classified? ==> outcome.tested == Tested(trace, last))
  }

  // ----- Why it is so -----

  lemma CarriesMeans(r: CommandResult, v: Version)
    ensures Confirms(r, v) <==> r.returncode == 0 && Carries(r, v)
    ensures Carries(r, v) ==> r.listing.Some?
    ensures r.listing.Some? ==> (v in Distinct(Flat(r.listing.value)) <==> Carries(r, v))
  {
    if r.listing.Some? {
      OfferedVersions(r.listing.value, v);
    }
  }

  lemma CarriesAnythingMeans(r: CommandResult)
    ensures Offers(r) <==> r.returncode == 0 && CarriesAnything(r)
    ensures CarriesAnything(r) ==> r.listing.Some?
  {
    if r.listing.Some? {
      var all := Distinct(Flat(r.listing.value));
      if all != [] {
        CarriesMeans(r, all[0]);
      }
      if v :| Carries(r, v) {
        CarriesMeans(r, v);
      }
    }
  }

  lemma ChannelsMean(all: Step, pin: Version)
    ensures Inventory(all, pin) <==> all.command == SearchAll && all.result.returncode == 0 && Carries(all.result, pin)
    ensures Inventory(all, pin) ==> all.result.listing.Some?
    ensures all.result.listing.Some? ==> (ListsNewer(all, pin) <==> Advertises(all.result, pin))
  {
  }

  /** A day that ends with the channels. */
  lemma AskedSays(trace: seq<Step>, pin: Version, stable: bool, comparison: Comparison, outcome: Outcome)
    requires Asked(trace, pin, Some(outcome))
    ensures ByItsLastStep(trace, pin, stable, comparison, outcome)
  {
    assert |trace| == 1 || |trace| == 2 || |trace| == 3;
    hide Asked, ByItsLastStep;
    if |trace| == 1 { InventorySays(trace, pin, stable, comparison, outcome); }
    if |trace| == 2 { SearchSays(trace, pin, stable, comparison, outcome); }
    if |trace| == 3 { ControlSays(trace, pin, stable, comparison, outcome); }
  }

  /** It was the inventory. */
  lemma InventorySays(trace: seq<Step>, pin: Version, stable: bool, comparison: Comparison, outcome: Outcome)
    requires Asked(trace, pin, Some(outcome)) && |trace| == 1
    ensures ByItsLastStep(trace, pin, stable, comparison, outcome)
  {
    hide Inventory, ListsNewer, Offers, Confirms, Carries, CarriesAnything, Advertises, Corroborated;
    ChannelsMean(trace[0], pin);
  }

  /** It was the bounded search. */
  lemma SearchSays(trace: seq<Step>, pin: Version, stable: bool, comparison: Comparison, outcome: Outcome)
    requires Asked(trace, pin, Some(outcome)) && |trace| == 2
    ensures ByItsLastStep(trace, pin, stable, comparison, outcome)
  {
    hide Inventory, ListsNewer, Offers, Confirms, Carries, CarriesAnything, Advertises, Corroborated, Unlisted;
    ChannelsMean(trace[0], pin);
    CarriesAnythingMeans(trace[1].result);
  }

  /** It was the control search. */
  lemma ControlSays(trace: seq<Step>, pin: Version, stable: bool, comparison: Comparison, outcome: Outcome)
    requires Asked(trace, pin, Some(outcome)) && |trace| == 3
    ensures ByItsLastStep(trace, pin, stable, comparison, outcome)
  {
    hide Inventory, ListsNewer, Offers, Confirms, Carries, CarriesAnything, Advertises, Unlisted;
    ChannelsMean(trace[0], pin);
    CarriesMeans(trace[2].result, pin);
  }

  /** A day that ends because the manifest cannot be rewritten. */
  lemma RefusedSays(trace: seq<Step>, pin: Version, stable: bool, comparison: Comparison)
    requires Asked(trace, pin, None)
    ensures ByItsLastStep(trace, pin, stable, comparison, Raised)
  {
    CarriesAnythingMeans(trace[1].result);
    hide Inventory, ListsNewer, Offers, Carries, CarriesAnything, Advertises;
  }

  /** A day that ends with an installation that failed. */
  lemma InstallSays(trace: seq<Step>, pin: Version, stable: bool, comparison: Comparison, outcome: Outcome)
    requires |trace| >= 2 && Installs(trace[2..], pin, Some(outcome))
    ensures ByItsLastStep(trace, pin, stable, comparison, outcome)
  {
    hide Confirms, Carries, Advertises;
    var last := trace[|trace| - 1];
    assert last == trace[2..][|trace[2..]| - 1];
    CarriesMeans(last.result, pin);
  }

  /** A day that ends with the question who the installed toolchain is. */
  lemma IdentitySays(trace: seq<Step>, pin: Version, stable: bool, comparison: Comparison, refuses: bool,
                     outcome: Outcome)
    requires |trace| >= 3 && trace[1].result.listing.Some? && trace[|trace| - 1].command == ReadIdentity
    requires var done := Identified(trace[|trace| - 1].result, Distinct(Flat(trace[1].result.listing.value)));
             if done.Some? then outcome == done.value else outcome == Raised
    ensures ByItsLastStep(trace, pin, stable, comparison, outcome)
  {
    hide Carries, Advertises, Distinct, Flat;
    var r := trace[|trace| - 1].result;
    if r.identity.Some? { CarriesMeans(trace[1].result, r.identity.value); }
  }

  /** A gate that does not hold, by the gate. */
  lemma FailedGateSays(trace: seq<Step>, pin: Version, stable: bool, comparison: Comparison, version: Version)
    requires |trace| > 4 && IdentityStep(trace).result.identity == Some(version)
    requires var last := trace[|trace| - 1];
             && IsGate(last.command) && !Holds(last, version != pin, comparison)
             && (last.command == EndToEnd ==> version != pin)
    ensures ByItsLastStep(trace, pin, stable, comparison, Blame(trace[|trace| - 1], version, comparison))
  {
    hide ContractVerdict, E2eVerdict, SuiteTolerated, RosterTolerated, IdentityStep;
    VerdictsMean(trace[|trace| - 1].result, version != pin);
  }

  /** All gates held. */
  lemma PassSays(trace: seq<Step>, pin: Version, stable: bool, comparison: Comparison, version: Version)
    requires |trace| > 4 && IdentityStep(trace).result.identity == Some(version)
    requires var last := trace[|trace| - 1];
             && last.command == (if stable then PackageCheck(version) else EndToEnd)
             && Holds(last, version != pin, comparison)
    ensures ByItsLastStep(trace, pin, stable, comparison, Classified(Pass, Some(version)))
  {
    hide ContractVerdict, E2eVerdict, SuiteTolerated, RosterTolerated, IdentityStep;
    VerdictsMean(trace[|trace| - 1].result, version != pin);
  }

  lemma VerdictsMean(r: CommandResult, moved: bool)
    ensures ContractVerdict(r, moved) == None <==> RosterTolerated(r) && moved
    ensures E2eVerdict(r.scenarios, moved) == None <==> SuiteTolerated(r) && moved
  {
    ContractToleratesExactly(r, moved);
    E2eToleratesExactly(r.scenarios, moved);
    assert multiset(TOLERATED_SCENARIOS) == multiset{"doctor-healthy", "doctor-config-free"};
  }

  /** The gates of a day, the last of which decides. */
  lemma GatesSay(trace: seq<Step>, n: nat, pin: Version, stable: bool, comparison: Comparison, version: Version,
                 outcome: Outcome)
    requires 3 <= n <= 4 && n < |trace| && trace[n].result.identity == Some(version)
    requires n == (if trace[2].result.returncode == 0 then 3 else 4)
    requires Gated(trace[n + 1..], Gates(stable, version), version, version != pin, comparison, outcome)
    ensures ByItsLastStep(trace, pin, stable, comparison, outcome)
  {
    hide ByItsLastStep, Holds, Blame, Gates;
    var steps, gates, moved := trace[n + 1..], Gates(stable, version), version != pin;
    GatesInOrder(stable, version);
    AllAreGates(stable, version);
    var last := trace[|trace| - 1];
    assert steps != [] && last == steps[|steps| - 1] && last.command == gates[|steps| - 1];
    if outcome == Classified(Pass, Some(version)) {
      PassSays(trace, pin, stable, comparison, version);
    } else {
      if last.command == EndToEnd {
        EndToEndIsLate(stable, version, |steps| - 1);
        assert steps[..|steps| - 1][2] == steps[2];
        ContractHeldIsMoved(steps[2], moved, comparison);
      }
      FailedGateSays(trace, pin, stable, comparison, version);
    }
  }

  lemma AllAreGates(stable: bool, version: Version)
    ensures forall c | c in Gates(stable, version) :: IsGate(c)
  {
  }

  lemma EndToEndIsLate(stable: bool, version: Version, i: nat)
    requires i < |Gates(stable, version)| && Gates(stable, version)[i] == EndToEnd
    ensures i > 2
  {
  }

  /** A day that asked the installed toolchain. */
  lemma ProbedSays(trace: seq<Step>, n: nat, pin: Version, stable: bool, comparison: Comparison, manifestRefuses: bool,
                   recipeRefuses: bool, outcome: Outcome)
    requires ProbedFrom(trace, n, pin, stable, comparison, manifestRefuses, recipeRefuses, outcome)
    ensures ByItsLastStep(trace, pin, stable, comparison, outcome)
  {
    var steps, candidates := trace[n..], Distinct(Flat(trace[1].result.listing.value));
    assert trace[..n][..2] == trace[..2];
    var installing := trace[..n][2..];
    assert Installs(installing, pin, None);
    assert installing[0] == trace[2] && n == (if trace[2].result.returncode == 0 then 3 else 4);
    assert steps[0] == trace[n];
    hide ByItsLastStep, Installs, Asked, Gated, Provided, Distinct, Flat;
    var done := Identified(steps[0].result, candidates);
    if done.Some? || (stable && recipeRefuses) {
      assert trace[|trace| - 1] == trace[n];
      IdentitySays(trace, pin, stable, comparison, recipeRefuses, outcome);
    } else {
      assert steps[1..] == trace[n + 1..];
      GatesSay(trace, n, pin, stable, comparison, steps[0].result.identity.value, outcome);
    }
  }

  /** Every outcome is exactly what the day's last step says, whatever the commands answer: a timeout, an outage, a
      broken canary, an idle day, drift of the protocol, a candidate incompatible with the sources, a broken package,
      a pass, or a fault of the canary itself. */
  lemma DayByItsLastStep(trace: seq<Step>, pin: Version, stable: bool, comparison: Comparison, manifestRefuses: bool,
                         recipeRefuses: bool, outcome: Outcome)
    requires Day(trace, pin, stable, comparison, manifestRefuses, recipeRefuses, outcome)
    ensures ByItsLastStep(trace, pin, stable, comparison, outcome)
  {
    hide ByItsLastStep, Asked, Installs, ProbedFrom;
    if n: nat :| ProbedFrom(trace, n, pin, stable, comparison, manifestRefuses, recipeRefuses, outcome) {
      ProbedSays(trace, n, pin, stable, comparison, manifestRefuses, recipeRefuses, outcome);
    } else if Asked(trace, pin, Some(outcome)) {
      AskedSays(trace, pin, stable, comparison, outcome);
    } else if manifestRefuses {
      assert trace[..2] == trace;
      RefusedSays(trace, pin, stable, comparison);
    } else {
      InstallSays(trace, pin, stable, comparison, outcome);
    }
  }
}

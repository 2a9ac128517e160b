/** The answers an abort gets, from the closes of its channels to the collection of its leader, and what it reports
    of them. */
module AbortAnswers {
  import opened Kernel
  import opened World
  import opened Errors
  import opened Answers

  // ----- An abort as a whole -----

  /** The open channels of a slot in the order they are closed in. */
  function OpenFds(s: Slot): seq<int> {
    (if s.stdoutFd >= 0 then [s.stdoutFd] else []) + (if s.stderrFd >= 0 then [s.stderrFd] else [])
    + (if s.setupFd >= 0 then [s.setupFd] else [])
  }

  /** These descriptors were closed, in this order, and nothing else happened. */
  ghost predicate Closes(before: seq<Reply>, after: seq<Reply>, fds: seq<int>) {
    && before <= after && |after| == |before| + |fds|
    && forall i | |before| <= i < |after| :: after[i].HasClosed? && after[i].fd == fds[i - |before|]
  }

  lemma ClosesOn(a: seq<Reply>, b: seq<Reply>, c: seq<Reply>, fds: seq<int>, more: seq<int>)
    requires Closes(a, b, fds) && Closes(b, c, more)
    ensures Closes(a, c, fds + more)
  {
    assert forall i | |a| <= i < |b| :: c[i] == b[i];
  }

  /** What the last answer of the force says: whether the leader is reaped, and whether force went as far as a wait. */
  ghost predicate ForceEnds(log: seq<Reply>, leader: int, reaped: bool, proceed: bool) {
    && |log| > 0 && (reaped <==> Reaps(log[|log| - 1], leader))
    && (proceed <==> log[|log| - 1].Waited? || log[|log| - 1].Collected?)
  }

  /** What the answers to an abort of a child say about it. The channels are closed first. A leader that was reaped
      already needs nothing more than to have been swept. For any other, the slot is freed exactly if the last answer
      reaps the leader, and then the abort succeeds exactly if there was no trouble. If the slot is kept and the clock
      gave its first reading, the primary error is EBUSY exactly if the last answer is that of a wait and not of a
      refused signal. */
  ghost predicate AbortAnswered(before: seq<Reply>, after: seq<Reply>, s: Slot, graceMs: nat, freed: bool, rc: int,
                                err: Error) {
    var mid := |before| + |OpenFds(s)|;
    && mid <= |after| && Closes(before, after[..mid], OpenFds(s))
    && if s.reaped then |after| == mid && (freed <==> s.swept) && (rc == 0 <==> s.swept)
       else
         && Graceful(after[..mid], after, s.leader, graceMs, s.observed, s.swept) && NamesFirst(after, mid, err)
         && ForceAnswered(after, mid, s.leader, freed, rc, err)
  }

  ghost predicate ForceAnswered(log: seq<Reply>, from: nat, leader: int, freed: bool, rc: int, err: Error) {
    && from < |log|
    && var last := log[|log| - 1];
       && (freed <==> Reaps(last, leader))
       && (freed ==> (rc == 0 <==> !Trouble(log, from)))
       && (!freed ==> rc == -1 && err.cleanupOperation != OP_NONE)
       && (!freed && err.operation == OP_NONE ==>
             err.errno == if last.Waited? || last.Collected? then EBUSY else 0)
  }

  /** The trouble of two parts, one after the other. */
  lemma TroubleOn(h0: seq<Reply>, h1: seq<Reply>, h2: seq<Reply>)
    requires h0 <= h1 <= h2
    ensures h0 <= h2 && (Trouble(h2, |h0|) <==> Trouble(h1, |h0|) || Trouble(h2, |h1|))
  {
    TroubleSplits(h1, h2, |h0|);
  }

  /** The answers of the closes come first. */
  lemma AnsweredAfterClose(h0: seq<Reply>, h1: seq<Reply>, h2: seq<Reply>, s: Slot, graceMs: nat, freed: bool, rc: int,
                           err: Error)
    requires Closes(h0, h1, OpenFds(s))
    requires AbortAnswered(h1, h2, s.(stdoutFd := -1, stderrFd := -1, setupFd := -1), graceMs, freed, rc, err)
    ensures AbortAnswered(h0, h2, s, graceMs, freed, rc, err)
  {
    assert OpenFds(s.(stdoutFd := -1, stderrFd := -1, setupFd := -1)) == [];
    assert h2[..|h1|] == h1;
  }

  /** No answer of an abort is that of a sigaction call. */
  ghost predicate Unrefused(log: seq<Reply>, from: nat, to: nat)
    requires to <= |log|
  {
    forall i | from <= i < to :: RefusalIn(log[i]) == UNREFUSED
  }

  lemma UnrefusedTries(before: seq<Reply>, after: seq<Reply>, s: Send)
    requires Tried(before, after, s)
    ensures Unrefused(after, |before|, |after|)
  {
    assert forall i | |before| <= i < |after| :: IsTry(after[i], s);
  }

  lemma UnrefusedForce(before: seq<Reply>, after: seq<Reply>, leader: int, seen: bool, swept: bool)
    requires Forced(before, after, leader, seen, swept)
    ensures Unrefused(after, |before|, |after|)
  {
    if swept {
      UnrefusedLeader(before, after, leader, seen);
    } else if mid :| GroupForced(before, mid, after, leader, seen) {
      UnrefusedTries(before, mid, ToGroup(leader, Kill));
      UnrefusedLeader(mid, after, leader, seen);
      assert forall i | |before| <= i < |mid| :: after[i] == mid[i];
    } else {
      UnrefusedTries(before, after, ToGroup(leader, Kill));
    }
  }

  lemma UnrefusedLeader(before: seq<Reply>, after: seq<Reply>, leader: int, seen: bool)
    requires LeaderForced(before, after, leader, seen)
    ensures Unrefused(after, |before|, |after|)
  {
    var more := after[|before|..];
    assert forall i | |before| <= i < |after| :: after[i] == more[i - |before|];
  }

  lemma UnrefusedGrace(before: seq<Reply>, after: seq<Reply>, leader: int, startMs: int, graceMs: nat)
    requires GraceOver(before, after, leader, startMs, graceMs)
    ensures before <= after && Unrefused(after, |before|, |after|)
  {
    var looks := after[..|after| - 1];
    assert GraceRuns(before, looks, leader, startMs, graceMs);
    assert forall i | |before| <= i < |looks| :: after[i] == looks[i] && IsLook(looks[i], leader);
  }

  lemma UnrefusedFromTheClock(log: seq<Reply>, c: nat, leader: int, startMs: int, graceMs: nat, seen: bool, gone: bool)
    requires c < |log| && FromTheClock(log, c, leader, startMs, graceMs, seen, gone)
    ensures Unrefused(log, c + 1, |log|)
  {
    hide Forced, GraceOver;
    if seen || startMs == 0 {
      UnrefusedForce(log[..c + 1], log, leader, seen, gone);
    } else {
      var end: nat :| GraceThenForce(log, c, end, leader, startMs, graceMs, gone);
      UnrefusedForce(log[..end], log, leader, Sees(log[end - 1]), gone);
      UnrefusedGrace(log[..c + 1], log[..end], leader, startMs, graceMs);
      assert forall i | c < i < end :: log[i] == log[..end][i];
    }
  }

  /** What a graceful abort is made of. */
  lemma GracefulParts(before: seq<Reply>, after: seq<Reply>, leader: int, graceMs: nat, seen: bool, swept: bool)
    requires Graceful(before, after, leader, graceMs, seen, swept)
    ensures var c := FirstClock(after, |before|);
            && before <= after && |before| < c < |after| && after[c].ClockSaid?
            && Tried(before, after[..c], ToGroup(leader, Term))
            && FromTheClock(after, c, leader, Reading(after[c]), graceMs, seen, swept || TermSwept(after[c - 1]))
  {
    hide FromTheClock, Tried, TermSwept;
    var c := FirstClock(after, |before|);
    assert after[..c + 1][..|after[..c + 1]| - 1] == after[..c];
  }

  lemma UnrefusedAbort(before: seq<Reply>, after: seq<Reply>, leader: int, graceMs: nat, seen: bool, swept: bool)
    requires Graceful(before, after, leader, graceMs, seen, swept)
    ensures before <= after && FirstRefusal(after, |before|) == UNREFUSED
  {
    hide *;
    GracefulParts(before, after, leader, graceMs, seen, swept);
    var c := FirstClock(after, |before|);
    UnrefusedFromTheClock(after, c, leader, Reading(after[c]), graceMs, seen, swept || TermSwept(after[c - 1]));
    UnrefusedTries(before, after[..c], ToGroup(leader, Term));
    UnrefusedAround(before, after, c);
  }

  lemma UnrefusedAround(before: seq<Reply>, after: seq<Reply>, c: nat)
    requires |before| < c < |after| && after[c].ClockSaid?
    requires Unrefused(after[..c], |before|, c) && Unrefused(after, c + 1, |after|)
    ensures FirstRefusal(after, |before|) == UNREFUSED
  {
    assert forall i | |before| <= i < c :: after[i] == after[..c][i];
    NoRefusal(after, |before|);
  }

  lemma ClosesQuietly(before: seq<Reply>, after: seq<Reply>, fds: seq<int>)
    requires Closes(before, after, fds)
    ensures before <= after && !Trouble(after, |before|) && FirstRefusal(after, |before|) == UNREFUSED
  {
    NoTrouble(after, |before|);
    NoRefusal(after, |before|);
  }

  /** What an abort of a child adds to the log, whatever it is. */
  lemma AbortLog(before: seq<Reply>, after: seq<Reply>, s: Slot, graceMs: nat, freed: bool, rc: int, err: Error)
    requires AbortAnswered(before, after, s, graceMs, freed, rc, err)
    ensures before <= after && FirstRefusal(after, |before|) == UNREFUSED
    ensures s.reaped ==> !Trouble(after, |before|)
    ensures !s.reaped ==> ForceAnswered(after, |before|, s.leader, freed, rc, err)
  {
    hide Closes, OpenFds, Graceful, FirstRefusal, Trouble, Reaps, NamesFirst;
    var closed := after[..|before| + |OpenFds(s)|];
    ClosesQuietly(before, closed, OpenFds(s));
    if s.reaped {
      assert closed == after;
    } else {
      UnrefusedAbort(closed, after, s.leader, graceMs, s.observed, s.swept);
      TroubleOn(before, closed, after);
      RefusalOn(before, closed, after);
    }
  }

  /** The time of a grace period is up: the leader is waitable or cannot be looked at, the clock fails, or it has come
      as far as it may. */
  predicate TimeIsUp(r: Reply, startMs: int, graceMs: nat) {
    match r
    case Waited(_, errno, waitable) => errno != 0 || waitable
    case ClockSaid(ok, ms) => !ok || ms >= startMs + graceMs
    case _ => false
  }

  /** The grace period that began with reading c ends with the answer before e: all between are looks at the leader or
      the clock, only the last of them ends it, and none follows. */
  ghost predicate LooksEnd(log: seq<Reply>, c: nat, e: nat, leader: int, startMs: int, graceMs: nat) {
    && c + 1 < e < |log| && log[c + 1].Waited?
    && (forall i | c < i < e :: if log[i].Waited? then log[i].pid == leader else log[i].ClockSaid?)
    && (forall i | c < i < e - 1 :: !TimeIsUp(log[i], startMs, graceMs)) && TimeIsUp(log[e - 1], startMs, graceMs)
    && !log[e].Waited? && (forall i | e <= i < |log| :: !log[i].ClockSaid?)
  }

  /** What the grace of an abort comes to. Until the clock is first read nothing but TERM to the group is tried. A grace
      period follows exactly if the leader had not been seen waitable and the clock gave a time other than zero. */
  lemma GraceIsExact(before: seq<Reply>, after: seq<Reply>, leader: int, graceMs: nat, seen: bool, swept: bool)
    requires Graceful(before, after, leader, graceMs, seen, swept)
    ensures var c := FirstClock(after, |before|);
            && c + 1 < |after| && after[c].ClockSaid?
            && (forall j | |before| <= j < c :: IsTry(after[j], ToGroup(leader, Term)))
            && if seen || !after[c].ok || after[c].ms == 0 then !after[c + 1].Waited? && !after[c + 1].ClockSaid?
               else exists e: nat :: LooksEnd(after, c, e, leader, after[c].ms, graceMs)
  {
    hide *;
    GracefulParts(before, after, leader, graceMs, seen, swept);
    var c := FirstClock(after, |before|);
    OnlyTries(before, after, c, ToGroup(leader, Term));
    ReadingIs(after[c]);
    NextAfterTheClock(after, c, leader, Reading(after[c]), graceMs, seen, swept || TermSwept(after[c - 1]));
  }

  lemma ReadingIs(r: Reply)
    requires r.ClockSaid?
    ensures Reading(r) == if r.ok then r.ms else 0
  {
  }

  lemma OnlyTries(before: seq<Reply>, after: seq<Reply>, c: nat, s: Send)
    requires c <= |after| && Tried(before, after[..c], s)
    ensures forall j | |before| <= j < c :: IsTry(after[j], s)
  {
    assert forall j | |before| <= j < c :: after[j] == after[..c][j];
  }

  lemma NextAfterTheClock(log: seq<Reply>, c: nat, leader: int, startMs: int, graceMs: nat, seen: bool, gone: bool)
    requires c < |log| && FromTheClock(log, c, leader, startMs, graceMs, seen, gone)
    ensures c + 1 < |log|
    ensures if seen || startMs == 0 then !log[c + 1].Waited? && !log[c + 1].ClockSaid?
            else exists e: nat :: LooksEnd(log, c, e, leader, startMs, graceMs)
  {
    hide Forced, EndsGrace, GraceOver, TimeIsUp, IsLook, Quiet, Fails, Reaps, Trouble;
    if seen || startMs == 0 {
      ForcedQuietly(log[..c + 1], log, leader, seen, gone);
      ForceQuiet(log[..c + 1], log, leader, seen, gone);
    } else {
      var end: nat :| GraceThenForce(log, c, end, leader, startMs, graceMs, gone);
      LooksUntil(log, c, end, leader, startMs, graceMs);
      ForcedQuietly(log[..end], log, leader, Sees(log[end - 1]), gone);
      ForceQuiet(log[..end], log, leader, Sees(log[end - 1]), gone);
      assert LooksEnd(log, c, end, leader, startMs, graceMs);
    }
  }

  lemma LooksUntil(log: seq<Reply>, c: nat, end: nat, leader: int, startMs: int, graceMs: nat)
    requires c < |log| && end <= |log| && GraceOver(log[..c + 1], log[..end], leader, startMs, graceMs)
    ensures c + 1 < end && log[c + 1].Waited?
    ensures forall i | c < i < end :: if log[i].Waited? then log[i].pid == leader else log[i].ClockSaid?
    ensures forall i | c < i < end - 1 :: !TimeIsUp(log[i], startMs, graceMs)
    ensures TimeIsUp(log[end - 1], startMs, graceMs)
  {
    var looks := log[..end][..end - 1];
    assert forall i | c < i < end - 1 ::
             log[i] == looks[i] && IsLook(looks[i], leader) && !EndsGrace(looks[i], startMs, graceMs);
    assert log[..end][c + 1] == log[c + 1];
  }

  // ----- What an abort reports -----

  /** Answer i is a failure: a look at the leader, its collection or a clock reading failed, or a signal was refused for
      good, so that the clock is read next or nothing more is done. */
  predicate Fails(log: seq<Reply>, i: nat)
    requires i < |log|
  {
    match log[i]
    case Waited(_, errno, _) => errno != 0
    case Collected(_, errno, _) => errno != 0
    case ClockSaid(ok, _) => !ok
    case Signalled(_, errno) => errno !in {0, 3} && ForGood(log, i)
    case Snapshot(_, zombies) => !zombies && ForGood(log, i)
    case _ => false
  }

  predicate ForGood(log: seq<Reply>, i: nat)
    requires i < |log|
  {
    i + 1 == |log| || log[i + 1].ClockSaid?
  }

  /** Answer i is what the cleanup diagnostic speaks of. */
  predicate Named(err: Error, log: seq<Reply>, i: nat)
    requires i < |log|
  {
    match log[i]
    case Waited(_, errno, _) => err.cleanupOperation == 34 && err.cleanupErrno == errno
    case Collected(_, errno, _) => err.cleanupOperation == 35 && err.cleanupErrno == errno
    case ClockSaid(_, _) => err.cleanupOperation == 1
    case Signalled(_, errno) => err.cleanupOperation == SignalNumber(log, i) && err.cleanupErrno == errno
    case Snapshot(_, _) => err.cleanupOperation == SignalNumber(log, i) && err.cleanupErrno == 1
    case _ => false
  }

  /** TERM is followed by the clock, KILL that was refused by nothing. */
  function SignalNumber(log: seq<Reply>, i: nat): nat {
    if i + 1 < |log| then 32 else 33
  }

  ghost predicate Quiet(log: seq<Reply>, from: nat, to: nat) {
    forall i: nat | from <= i < to && i < |log| :: !Fails(log, i)
  }

  /** The first clock reading, if it fails, is the primary diagnostic. The first failure but for that reading is the
      cleanup diagnostic. */
  ghost predicate NamesFirst(log: seq<Reply>, from: nat, err: Error) {
    && from <= |log|
    && var c := FirstClock(log, from);
       && c < |log|
       && err.operation == (if log[c].ok then 0 else 1)
       && if Quiet(log, from, c) && Quiet(log, c + 1, |log|) then err.cleanupOperation == 0
          else exists i: nat :: FirstFailure(log, from, c, i) && Named(err, log, i)
  }

  ghost predicate FirstFailure(log: seq<Reply>, from: nat, c: nat, i: nat) {
    && from <= i < |log| && i != c && Fails(log, i)
    && if i < c then Quiet(log, from, i) else Quiet(log, from, c) && Quiet(log, c + 1, i)
  }

  /** What is reported when force begins, after TERM, the first clock reading that ends `h1`, and the looks up to
      `h2`. */
  ghost predicate GentlyNamed(err: Error, h1: seq<Reply>, h2: seq<Reply>) {
    && 1 < |h1| <= |h2| && h1[|h1| - 1].ClockSaid?
    && err.operation == (if h1[|h1| - 1].ok then OP_NONE else OP_CLOCK_MONOTONIC)
    && if !Accepted(h1[|h1| - 2]) then
         err.cleanupOperation == OP_GROUP_TERM && err.cleanupErrno == TryErrno(h1[|h1| - 2])
       else if |h2| == |h1| then err.cleanupOperation == OP_NONE && err.cleanupErrno == 0
       else GraceNamed(NO_ERROR, err, h2[|h2| - 1])
  }

  /** What the last look of a grace period adds to the cleanup diagnostic. */
  predicate GraceNamed(given: Error, err: Error, last: Reply) {
    match last
    case Waited(_, errno, _) =>
      var named := if errno != 0 then given.Cleanup(OP_WAITID, errno) else given;
      err.cleanupOperation == named.cleanupOperation && err.cleanupErrno == named.cleanupErrno
    case ClockSaid(ok, _) =>
      var named := if ok then given else given.Cleanup(OP_CLOCK_MONOTONIC, 0);
      err.cleanupOperation == named.cleanupOperation
    case _ => false
  }

  /** What the last answer to the force adds. */
  predicate ForceNamed(given: Error, err: Error, last: Reply) {
    match last
    case Collected(_, errno, _) => err == if errno != 0 then given.Cleanup(OP_WAITPID, errno) else given
    case Waited(_, errno, _) => err == given.Cleanup(OP_WAITID, errno)
    case _ => err == given.Cleanup(OP_GROUP_KILL, TryErrno(last))
  }

  lemma GraceNamesOn(h1: seq<Reply>, h2: seq<Reply>, given: Error, err: Error)
    requires GentlyNamed(given, h1, h1) && |h1| <= |h2| && err.Extends(given)
    requires if |h2| == |h1| then err == given else GraceNamed(given, err, h2[|h2| - 1])
    ensures GentlyNamed(err, h1, h2)
  {
  }

  /** A primary error leaves the names alone. */
  lemma SameNames(log: seq<Reply>, from: nat, given: Error, err: Error)
    requires NamesFirst(log, from, given) && err.operation == given.operation
    requires err.cleanupOperation == given.cleanupOperation && err.cleanupErrno == given.cleanupErrno
    ensures NamesFirst(log, from, err)
  {
    hide FirstFailure, Quiet;
    if i: nat :| i < |log| && FirstFailure(log, from, FirstClock(log, from), i) && Named(given, log, i) {
      assert Named(err, log, i);
    }
  }

  /** Of the tries at a signal only the last can be a failure. */
  lemma TriesQuiet(before: seq<Reply>, mid: seq<Reply>, log: seq<Reply>, s: Send)
    requires Tried(before, mid, s) && mid <= log
    ensures before < mid && Quiet(log, |before|, |mid| - 1)
    ensures Fails(log, |mid| - 1) <==> !Accepted(mid[|mid| - 1]) && ForGood(log, |mid| - 1)
    ensures forall i | |before| <= i < |mid| :: !log[i].ClockSaid?
  {
    assert forall i | |before| <= i < |mid| :: log[i] == mid[i] && IsTry(mid[i], s);
  }

  lemma LooksQuiet(before: seq<Reply>, mid: seq<Reply>, log: seq<Reply>, leader: int, startMs: int, graceMs: nat)
    requires GraceOver(before, mid, leader, startMs, graceMs) && mid <= log
    ensures before < mid && Quiet(log, |before|, |mid| - 1) && IsLook(log[|mid| - 1], leader)
  {
    var looks := mid[..|mid| - 1];
    assert forall i | |before| <= i < |looks| :: log[i] == looks[i] && IsLook(looks[i], leader);
  }

  lemma LeaderQuiet(before: seq<Reply>, log: seq<Reply>, leader: int, seen: bool)
    requires LeaderForced(before, log, leader, seen)
    ensures before < log && Quiet(log, |before|, |log| - 1)
    ensures Fails(log, |log| - 1) <==> !Reaps(log[|log| - 1], leader)
    ensures (forall i | |before| <= i < |log| :: !log[i].ClockSaid?)
    ensures log[|log| - 1].Waited? ==> log[|log| - 1].errno != 0
  {
    var more := log[|before|..];
    assert forall i | |before| <= i < |log| :: log[i] == more[i - |before|];
  }

  /** Of the answers to the force only the last can be a failure, and it is one unless it reaps the leader. */
  lemma ForceQuiet(before: seq<Reply>, log: seq<Reply>, leader: int, seen: bool, swept: bool)
    requires Forced(before, log, leader, seen, swept)
    ensures before < log && Quiet(log, |before|, |log| - 1)
    ensures Fails(log, |log| - 1) <==> !Reaps(log[|log| - 1], leader)
    ensures (forall i | |before| <= i < |log| :: !log[i].ClockSaid?)
    ensures log[|log| - 1].Waited? ==> log[|log| - 1].errno != 0
  {
    hide Quiet, LeaderForced, Tried, Fails;
    if swept {
      LeaderQuiet(before, log, leader, seen);
    } else if mid :| GroupForced(before, mid, log, leader, seen) {
      LeaderQuiet(mid, log, leader, seen);
      TriesQuiet(before, mid, log, ToGroup(leader, Kill));
      SweepQuiet(log, |before|, |mid|);
    } else {
      TriesQuiet(before, log, log, ToGroup(leader, Kill));
      LastTry(before, log, ToGroup(leader, Kill));
    }
  }

  lemma SweepQuiet(log: seq<Reply>, from: nat, mid: nat)
    requires from < mid < |log| && Quiet(log, from, mid - 1) && !Fails(log, mid - 1) && Quiet(log, mid, |log| - 1)
    ensures Quiet(log, from, |log| - 1)
  {
    hide Fails;
  }

  /** What has gone wrong before the force, as one answer. */
  lemma GentlyFirst(h0: seq<Reply>, h1: seq<Reply>, h2: seq<Reply>, log: seq<Reply>, leader: int, graceMs: nat,
                    seen: bool, swept: bool, found: bool, gone: bool, err: Error)
    requires Gently(h0, h1, h2, leader, graceMs, seen, swept, found, gone) && GentlyNamed(err, h1, h2)
    requires h2 < log
    ensures h0 <= h1 <= h2
    ensures Quiet(log, |h0|, |h1| - 2) && Quiet(log, |h1|, |h2| - 1)
    ensures forall i | |h0| <= i < |h1| - 1 :: !log[i].ClockSaid?
    ensures Fails(log, |h1| - 2) ==> Named(err, log, |h1| - 2)
    ensures !Fails(log, |h1| - 2) && |h1| < |h2| && Fails(log, |h2| - 1) ==> Named(err, log, |h2| - 1)
    ensures !Fails(log, |h1| - 2) && (|h1| == |h2| || !Fails(log, |h2| - 1)) <==> err.cleanupOperation == OP_NONE
  {
    hide Tried, GraceOver;
    var asked := h1[..|h1| - 1];
    LastTry(h0, asked, ToGroup(leader, Term));
    assert h1 <= h2 by {
      if !(seen || Reading(h1[|h1| - 1]) == 0) { LooksQuiet(h1, h2, log, leader, Reading(h1[|h1| - 1]), graceMs); }
    }
    assert asked <= log && log[..|asked|] == asked;
    TriesQuiet(h0, asked, log, ToGroup(leader, Term));
    OnlyTries(h0, log, |asked|, ToGroup(leader, Term));
    if !(seen || Reading(h1[|h1| - 1]) == 0) {
      LooksQuiet(h1, h2, log, leader, Reading(h1[|h1| - 1]), graceMs);
    }
  }

  /** The failures of an abort by their places: the last try at TERM, the last look and the last answer of all. */
  lemma FirstOfThree(log: seq<Reply>, from: nat, c: nat, m: nat, given: Error, err: Error)
    requires from < c < m < |log| && FirstClock(log, from) == c
    requires Quiet(log, from, c - 1) && Quiet(log, c + 1, m - 1) && Quiet(log, m, |log| - 1)
    requires Fails(log, c - 1) ==> Named(given, log, c - 1)
    requires !Fails(log, c - 1) && c + 1 < m && Fails(log, m - 1) ==> Named(given, log, m - 1)
    requires !Fails(log, c - 1) && (c + 1 == m || !Fails(log, m - 1)) <==> given.cleanupOperation == OP_NONE
    requires given.operation == if log[c].ok then 0 else 1
    requires err.operation == given.operation
    requires if Fails(log, |log| - 1) && given.cleanupOperation == OP_NONE then Named(err, log, |log| - 1)
             else err.cleanupOperation == given.cleanupOperation && err.cleanupErrno == given.cleanupErrno
    requires err.cleanupOperation == OP_NONE <==> given.cleanupOperation == OP_NONE && !Fails(log, |log| - 1)
    ensures NamesFirst(log, from, err)
  {
    hide Fails;
    if Fails(log, c - 1) {
      assert FirstFailure(log, from, c, c - 1) && Named(err, log, c - 1);
    } else if c + 1 < m && Fails(log, m - 1) {
      assert FirstFailure(log, from, c, m - 1) && Named(err, log, m - 1);
    } else if Fails(log, |log| - 1) {
      assert FirstFailure(log, from, c, |log| - 1) && Named(err, log, |log| - 1);
    }
  }

  lemma GentlyBegins(h0: seq<Reply>, h1: seq<Reply>, h2: seq<Reply>, log: seq<Reply>, given: Error, leader: int)
    requires TermThenClock(h0, h1, leader) && h0 <= h1 <= h2 < log && GentlyNamed(given, h1, h2)
    ensures |h0| < |h1| - 1 && log[|h1| - 1].ClockSaid?
    ensures given.operation == if log[|h1| - 1].ok then 0 else 1
  {
    assert log[|h1| - 1] == h1[|h1| - 1];
  }

  /** The last answer, by its number. */
  lemma LastNamed(log: seq<Reply>, leader: int, given: Error, err: Error)
    requires |log| > 0 && ForceNamed(given, err, log[|log| - 1])
    requires Fails(log, |log| - 1) <==> !Reaps(log[|log| - 1], leader)
    requires !log[|log| - 1].ClockSaid? && (log[|log| - 1].Waited? ==> log[|log| - 1].errno != 0)
    ensures err.operation == given.operation
    ensures if Fails(log, |log| - 1) && given.cleanupOperation == OP_NONE then Named(err, log, |log| - 1)
            else err.cleanupOperation == given.cleanupOperation && err.cleanupErrno == given.cleanupErrno
    ensures err.cleanupOperation == OP_NONE <==> given.cleanupOperation == OP_NONE && !Fails(log, |log| - 1)
  {
  }

  /** The same for the whole abort. */
  lemma NamesTheFirst(h0: seq<Reply>, h1: seq<Reply>, h2: seq<Reply>, log: seq<Reply>, leader: int, graceMs: nat,
                      seen: bool, swept: bool, found: bool, gone: bool, given: Error, err: Error)
    requires Gently(h0, h1, h2, leader, graceMs, seen, swept, found, gone) && GentlyNamed(given, h1, h2)
    requires Forced(h2, log, leader, found, gone)
    requires h2 < log ==> ForceNamed(given, err, log[|log| - 1])
    ensures h2 < log && NamesFirst(log, |h0|, err)
  {
    hide Quiet, Fails, Forced, GentlyNamed, GraceNamed, GraceOver, TermThenClock, ForceNamed, NamesFirst, Reaps;
    ForceQuiet(h2, log, leader, found, gone);
    GentlyFirst(h0, h1, h2, log, leader, graceMs, seen, swept, found, gone, given);
    GentlyBegins(h0, h1, h2, log, given, leader);
    LastNamed(log, leader, given, err);
    FirstClockAt(log, |h0|, |h1| - 1);
    FirstOfThree(log, |h0|, |h1| - 1, |h2|, given, err);
  }

  /** Where force begins. */
  lemma ForcedFrom(log: seq<Reply>, c: nat, leader: int, startMs: int, graceMs: nat, seen: bool, gone: bool)
    returns (e: nat)
    requires c < |log| && FromTheClock(log, c, leader, startMs, graceMs, seen, gone)
    ensures c < e < |log| && (forall i | c < i < e :: IsLook(log[i], leader))
    ensures Quiet(log, e, |log| - 1) && (forall i | e <= i < |log| :: !log[i].ClockSaid?)
    ensures Fails(log, |log| - 1) <==> !Reaps(log[|log| - 1], leader)
  {
    hide Quiet, Fails, Forced, GraceOver, Reaps, TimeIsUp;
    if seen || startMs == 0 {
      e := c + 1;
      ForceQuiet(log[..e], log, leader, seen, gone);
    } else {
      e :| GraceThenForce(log, c, e, leader, startMs, graceMs, gone);
      ForceQuiet(log[..e], log, leader, Sees(log[e - 1]), gone);
      LooksUntil(log, c, e, leader, startMs, graceMs);
    }
  }

  /** The places of an abort at which anything can fail: the last try at TERM, the first clock reading, the looks, which
      come before place e, and the last answer. */
  lemma GracefulPlaces(before: seq<Reply>, log: seq<Reply>, leader: int, graceMs: nat, seen: bool, swept: bool)
    returns (e: nat)
    requires Graceful(before, log, leader, graceMs, seen, swept)
    ensures var c := FirstClock(log, |before|);
            && |before| < c < e < |log| && log[c].ClockSaid? && Quiet(log, |before|, c - 1)
            && (Fails(log, c - 1) <==> !Accepted(log[c - 1]))
            && (forall i | c < i < e :: IsLook(log[i], leader))
            && Quiet(log, e, |log| - 1) && (forall i | e <= i < |log| :: !log[i].ClockSaid?)
            && (Fails(log, |log| - 1) <==> !Reaps(log[|log| - 1], leader))
  {
    hide Fails, Quiet, FromTheClock, Tried, TermSwept, Reaps;
    GracefulParts(before, log, leader, graceMs, seen, swept);
    var c := FirstClock(log, |before|);
    e := ForcedFrom(log, c, leader, Reading(log[c]), graceMs, seen, swept || TermSwept(log[c - 1]));
    TriesQuiet(before, log[..c], log, ToGroup(leader, Term));
  }

  /** Once the leader is reaped, trouble is just that some answer was a failure. */
  lemma TroubleIsFailure(log: seq<Reply>, from: nat, c: nat, e: nat, leader: int)
    requires from < c < e < |log| && FirstClock(log, from) == c && log[c].ClockSaid? && Quiet(log, from, c - 1)
    requires Fails(log, c - 1) <==> !Accepted(log[c - 1])
    requires forall i | c < i < e :: IsLook(log[i], leader)
    requires Quiet(log, e, |log| - 1) && !Fails(log, |log| - 1)
    requires forall i | e <= i < |log| :: !log[i].ClockSaid?
    ensures Trouble(log, from) <==> !Quiet(log, from, |log|)
  {
    if i: nat :| from <= i < |log| && Troubled(log, i) {
      assert Fails(log, if i == c && log[i].ok then c - 1 else i);
    }
    if i: nat :| from <= i < |log| && Fails(log, i) {
      assert c - 1 <= i < e;
      assert Troubled(log, if i == c - 1 then c else i);
    }
  }

  /** An abort of an unreaped leader succeeds exactly if no answer to it is a failure. */
  lemma AbortSucceeds(before: seq<Reply>, after: seq<Reply>, s: Slot, graceMs: nat, freed: bool, rc: int, err: Error)
    requires AbortAnswered(before, after, s, graceMs, freed, rc, err) && !s.reaped
    ensures before <= after
    ensures rc == 0 <==> forall i: nat | |before| <= i < |after| :: !Fails(after, i)
  {
    hide Fails, Graceful, NamesFirst, Reaps, Trouble, OpenFds, FirstClock;
    var mid := |before| + |OpenFds(s)|;
    ClosesFail(before, after[..mid], after, OpenFds(s));
    var e := GracefulPlaces(after[..mid], after, s.leader, graceMs, s.observed, s.swept);
    if freed { TroubleIsFailure(after, mid, FirstClock(after, mid), e, s.leader); }
  }

  /** A close that reports an error is no failure of the abort. */
  lemma ClosesFail(before: seq<Reply>, mid: seq<Reply>, log: seq<Reply>, fds: seq<int>)
    requires Closes(before, mid, fds) && mid <= log
    ensures before <= log && Quiet(log, |before|, |mid|)
  {
    assert forall i | |before| <= i < |mid| :: log[i] == mid[i];
  }
}

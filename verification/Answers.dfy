/** What the system calls of a run answered, in order, and what may be read off it. */
module Answers {
  import opened Kernel
  import opened World
  import opened Errors
  import opened SetupProtocol

  /** How a read ends once interrupted reads have been retried or given up. */
  datatype ReadAnswer = Data(count: nat) | EndOfFile | WouldBlock | ReadError(errno: int)

  datatype SetupAnswer = SetupData(bytes: seq<byte>) | SetupEnd | SetupWouldBlock | SetupError(errno: int)

  /** One answer of the system. An error number of zero means success. */
  datatype Reply =
    | Waited(pid: int, errno: int, waitable: bool)
    | Collected(pid: int, errno: int, status: int)
    | HasRead(fd: int, answer: ReadAnswer)
    | HasDrained(reply: SetupAnswer)
    | HasClosed(fd: int, errno: int)
    | ClockSaid(ok: bool, ms: int)
    | Signalled(send: Send, errno: int)
    | Snapshot(leader: int, zombies: bool)
    | Masked(errno: int)
    | Queried(signal: Signal, errno: int)
    | Disposed(signal: Signal, disposition: Disposition, errno: int)
    | PipeMade(operation: nat, errno: int)
    | Copied(fd: int, errno: int)
    | Flagged(fd: int, operation: nat, errno: int)
    | ForkSaid(errno: int)
    | GroupSet(pid: int, errno: int)

  // ----- Signals -----

  /** A try at sending `s`, or the look at the group after it that Darwin offers. */
  predicate IsTry(r: Reply, s: Send) {
    match r
    case Signalled(send, _) => send == s
    case Snapshot(leader, _) => leader == s.leader
    case _ => false
  }

  /** A signal was delivered or had no one left to go to, or only zombies were left; nothing else is refused. */
  predicate Accepted(r: Reply) {
    match r
    case Signalled(_, errno) => errno == 0 || errno == ESRCH
    case Snapshot(_, zombies) => zombies
    case _ => true
  }

  /** The error number a try ends with. Only EPERM leads to a snapshot. */
  function TryErrno(r: Reply): int {
    if r.Signalled? then r.errno else EPERM
  }

  /** Tries at `s` and nothing else, each but the last refused. */
  ghost predicate Tried(before: seq<Reply>, after: seq<Reply>, s: Send) {
    && before < after && after[|before|].Signalled?
    && (forall i | |before| <= i < |after| :: IsTry(after[i], s))
    && (forall i | |before| <= i < |after| - 1 :: !Accepted(after[i]))
  }

  /** Only now, or so far in vain. */
  ghost predicate InVain(before: seq<Reply>, after: seq<Reply>, s: Send) {
    after == before || (Tried(before, after, s) && !Accepted(after[|after| - 1]))
  }

  lemma NothingTried(log: seq<Reply>, s: Send)
    ensures InVain(log, log, s)
  {
  }

  lemma TriedOnce(a: seq<Reply>, b: seq<Reply>, c: seq<Reply>, s: Send, r: Reply)
    requires InVain(a, b, s) && c == b + [r] && IsTry(r, s) && (r.Signalled? || b != a)
    ensures Tried(a, c, s) && c[|c| - 1] == r && (Accepted(r) || InVain(a, c, s))
  {
  }

  lemma LastTry(before: seq<Reply>, after: seq<Reply>, s: Send)
    requires Tried(before, after, s)
    ensures before < after && IsTry(after[|after| - 1], s)
  {
  }

  datatype GroupState = Unset | Present | Gone

  function GroupOperation(action: GroupAction): nat {
    match action
    case Probe => OP_GROUP_PROBE
    case Term => OP_GROUP_TERM
    case Kill => OP_GROUP_KILL
  }

  /** What the last try says about the call, and about the slot. */
  ghost predicate GroupAnswered(last: Reply, action: GroupAction, s: Slot, s': Slot, rc: int, state: GroupState,
                                err: Error) {
    if Accepted(last) then
      && rc == 0 && err == NO_ERROR
      && state == (if TryErrno(last) == ESRCH then Gone else Present)
      && s' == s.(swept := s.swept || action == Kill || TryErrno(last) != 0)
    else
      && rc == -1 && state == Unset && s' == s
      && err == NO_ERROR.Primary(GroupOperation(action), TryErrno(last), 0, -s.leader)
  }

  // ----- The grace period of an abort -----

  /** What ends a grace period: the leader is waitable or cannot be observed, or the clock says that the time is
      over or fails. */
  ghost predicate EndsGrace(r: Reply, startMs: int, graceMs: nat) {
    match r
    case Waited(_, errno, waitable) => errno != 0 || waitable
    case ClockSaid(ok, ms) => !ok || ms - startMs >= graceMs
    case _ => false
  }

  /** A look at the leader or at the clock. */
  predicate IsLook(r: Reply, leader: int) {
    (r.Waited? && r.pid == leader) || r.ClockSaid?
  }

  /** Looks at a leader and at the clock between two moments, a look at the leader first, and none of them ends the
      grace period. */
  ghost predicate GraceRuns(before: seq<Reply>, after: seq<Reply>, leader: int, startMs: int, graceMs: nat) {
    && before <= after
    && (before != after ==> after[|before|].Waited?)
    && forall i | |before| <= i < |after| :: IsLook(after[i], leader) && !EndsGrace(after[i], startMs, graceMs)
  }

  /** The same, and the last of them ends it. */
  ghost predicate GraceOver(before: seq<Reply>, after: seq<Reply>, leader: int, startMs: int, graceMs: nat) {
    && before < after && after[|before|].Waited?
    && GraceRuns(before, after[..|after| - 1], leader, startMs, graceMs)
    && IsLook(after[|after| - 1], leader) && EndsGrace(after[|after| - 1], startMs, graceMs)
  }

  lemma GraceStarts(a: seq<Reply>, leader: int, startMs: int, graceMs: nat)
    ensures GraceRuns(a, a, leader, startMs, graceMs)
  {
  }

  lemma GraceGoesOn(a: seq<Reply>, b: seq<Reply>, c: seq<Reply>, leader: int, startMs: int, graceMs: nat)
    requires GraceRuns(a, b, leader, startMs, graceMs)
    ensures GraceRuns(b, c, leader, startMs, graceMs) ==> GraceRuns(a, c, leader, startMs, graceMs)
    ensures GraceOver(b, c, leader, startMs, graceMs) ==> GraceOver(a, c, leader, startMs, graceMs)
  {
    if GraceOver(b, c, leader, startMs, graceMs) {
      var d := c[..|c| - 1];
      assert forall i | |b| <= i < |d| :: d[i] == c[i];
      assert a <= b <= d;
    }
  }

  /** A round of the wait behind rounds that found nothing. */
  lemma RoundKeepsGrace(a: seq<Reply>, b: seq<Reply>, c: seq<Reply>, over: bool, leader: int, startMs: int,
                        graceMs: nat)
    requires GraceRuns(a, b, leader, startMs, graceMs) && a <= b && !Trouble(b, |a|) && |b| <= |c|
    requires if over then GraceOver(b, c, leader, startMs, graceMs) else GraceRuns(b, c, leader, startMs, graceMs)
    ensures if over then GraceOver(a, c, leader, startMs, graceMs) else GraceRuns(a, c, leader, startMs, graceMs)
    ensures a <= b <= c && a <= c
    ensures Trouble(c, |a|) <==> Trouble(c, |b|)
  {
    GraceGoesOn(a, b, c, leader, startMs, graceMs);
    TroubleSplits(b, c, |a|);
  }

  lemma GraceOverMeans(a: seq<Reply>, b: seq<Reply>, leader: int, startMs: int, graceMs: nat)
    requires GraceOver(a, b, leader, startMs, graceMs)
    ensures a < b
  {
  }

  /** One look at the leader. */
  lemma OneLook(a: seq<Reply>, b: seq<Reply>, leader: int, startMs: int, graceMs: nat)
    requires |b| == |a| + 1 && a <= b && b[|a|].Waited? && b[|a|].pid == leader
    ensures var r := b[|a|];
            && (Trouble(b, |a|) <==> r.errno != 0)
            && if r.errno != 0 || r.waitable then GraceOver(a, b, leader, startMs, graceMs)
               else GraceRuns(a, b, leader, startMs, graceMs)
  {
    assert b[..|b| - 1] == a;
    assert Troubled(b, |a|) <==> b[|a|].errno != 0;
  }

  /** And one at the clock behind a look that found nothing. */
  lemma ThenTheClock(a: seq<Reply>, b: seq<Reply>, c: seq<Reply>, leader: int, startMs: int, graceMs: nat)
    requires GraceRuns(a, b, leader, startMs, graceMs) && a < b && !Trouble(b, |a|) && b[|b| - 1].Waited?
    requires |c| == |b| + 1 && b <= c && c[|b|].ClockSaid?
    ensures var r := c[|b|];
            && (Trouble(c, |a|) <==> !r.ok)
            && if !r.ok || r.ms - startMs >= graceMs then GraceOver(a, c, leader, startMs, graceMs)
               else GraceRuns(a, c, leader, startMs, graceMs)
  {
    assert c[..|c| - 1] == b;
    TroubleSplits(b, c, |a|);
    assert Troubled(c, |b|) <==> !c[|b|].ok;
  }

  /** The first clock reading at or after a place in the log, or its end. */
  function FirstClock(log: seq<Reply>, from: nat): (c: nat)
    requires from <= |log|
    ensures from <= c <= |log| && (c < |log| ==> log[c].ClockSaid?)
    ensures forall i | from <= i < c :: !log[i].ClockSaid?
    decreases |log| - from
  {
    if from == |log| || log[from].ClockSaid? then from else FirstClock(log, from + 1)
  }

  /** The time a reading gives, zero if it fails. */
  function Reading(r: Reply): int {
    if r.ClockSaid? && r.ok then r.ms else 0
  }

  /** TERM to the group, tried until it is accepted or given up, and then a reading of the clock. */
  ghost predicate TermThenClock(before: seq<Reply>, after: seq<Reply>, leader: int) {
    && |after| > 0 && after[|after| - 1].ClockSaid?
    && Tried(before, after[..|after| - 1], ToGroup(leader, Term))
  }

  /** The last try at TERM showed that no member of the group can run. */
  predicate TermSwept(r: Reply) {
    Accepted(r) && TryErrno(r) != 0
  }

  /** The leader was found waitable. */
  predicate Sees(r: Reply) {
    r.Waited? && r.errno == 0 && r.waitable
  }

  /** All answers to an abort of an unreaped leader. It begins with TERM to the group and then reads the clock for the
      first time. If the leader had been seen waitable or that reading gives zero, force follows at once. Otherwise
      there is a look at the leader, and there are only looks at the leader and at the clock until the first answer
      that ends the grace period, and then force. */
  ghost predicate Graceful(before: seq<Reply>, after: seq<Reply>, leader: int, graceMs: nat, seen: bool, swept: bool) {
    && before <= after
    && var c := FirstClock(after, |before|);
       && |before| < c < |after| && TermThenClock(before, after[..c + 1], leader)
       && FromTheClock(after, c, leader, Reading(after[c]), graceMs, seen, swept || TermSwept(after[c - 1]))
  }

  ghost predicate FromTheClock(log: seq<Reply>, c: nat, leader: int, startMs: int, graceMs: nat, seen: bool,
                               gone: bool)
    requires c < |log|
  {
    if seen || startMs == 0 then Forced(log[..c + 1], log, leader, seen, gone)
    else exists end :: GraceThenForce(log, c, end, leader, startMs, graceMs, gone)
  }

  /** The grace period that began with reading c is over at `end`, where force begins. */
  ghost predicate GraceThenForce(log: seq<Reply>, c: nat, end: nat, leader: int, startMs: int, graceMs: nat, gone: bool)
    requires c < |log|
  {
    && 0 < end < |log| && GraceOver(log[..c + 1], log[..end], leader, startMs, graceMs)
    && Forced(log[..end], log, leader, Sees(log[end - 1]), gone)
  }

  lemma {:induction false} FirstClockAt(log: seq<Reply>, from: nat, c: nat)
    requires from <= c < |log| && log[c].ClockSaid? && forall i | from <= i < c :: !log[i].ClockSaid?
    ensures FirstClock(log, from) == c
    decreases c - from
  {
    if from < c { FirstClockAt(log, from + 1, c); }
  }

  /** An abort up to the point where force begins, and what it has found out: whether the leader is waitable and
      whether the group is gone. */
  ghost predicate Gently(h0: seq<Reply>, h1: seq<Reply>, h2: seq<Reply>, leader: int, graceMs: nat, seen: bool,
                         swept: bool, found: bool, gone: bool) {
    && TermThenClock(h0, h1, leader) && 1 < |h1| <= |h2|
    && (gone <==> swept || TermSwept(h1[|h1| - 2]))
    && var startMs := Reading(h1[|h1| - 1]);
       if seen || startMs == 0 then h2 == h1 && (found <==> seen)
       else GraceOver(h1, h2, leader, startMs, graceMs) && (found <==> Sees(h2[|h2| - 1]))
  }

  /** A leader seen before stays seen, a group gone before stays gone. */
  lemma GentlyMeans(h0: seq<Reply>, h1: seq<Reply>, h2: seq<Reply>, leader: int, graceMs: nat, seen: bool, swept: bool,
                    found: bool, gone: bool)
    requires Gently(h0, h1, h2, leader, graceMs, seen, swept, found, gone)
    ensures (seen ==> found) && (swept ==> gone)
  {
  }

  lemma GraceKept(h0: seq<Reply>, h1: seq<Reply>, h2: seq<Reply>, h3: seq<Reply>, leader: int, graceMs: nat, seen: bool,
                  swept: bool, found: bool, gone: bool)
    requires Gently(h0, h1, h2, leader, graceMs, seen, swept, found, gone) && Forced(h2, h3, leader, found, gone)
    ensures Graceful(h0, h3, leader, graceMs, seen, swept)
  {
    var c := |h1| - 1;
    var startMs := Reading(h1[c]);
    ForcedQuietly(h2, h3, leader, found, gone);
    hide Forced, TermSwept;
    assert h1 <= h2 <= h3;
    assert h3[..c + 1] == h1 && h3[c] == h1[c] && h3[c - 1] == h1[c - 1];
    assert forall i | |h0| <= i < c :: h3[i] == h1[..c][i] && IsTry(h1[..c][i], ToGroup(leader, Term));
    FirstClockAt(h3, |h0|, c);
    if !(seen || startMs == 0) {
      assert h3[..|h2|] == h2 && h3[|h2| - 1] == h2[|h2| - 1];
      assert GraceThenForce(h3, c, |h2|, leader, startMs, graceMs, gone);
    }
    assert FromTheClock(h3, c, leader, startMs, graceMs, seen, gone);
  }

  // ----- Force -----

  predicate Reaps(r: Reply, leader: int) {
    r.Collected? && r.pid == leader && r.errno == 0
  }

  /** Force: the group is killed unless it was swept, then the leader unless it was seen waitable, and then it is
      collected; a refused signal or a failed wait ends this early. */
  ghost predicate Forced(before: seq<Reply>, after: seq<Reply>, leader: int, seen: bool, swept: bool) {
    if swept then LeaderForced(before, after, leader, seen)
    else
      || (Tried(before, after, ToGroup(leader, Kill)) && !Accepted(after[|after| - 1]))
      || exists mid :: GroupForced(before, mid, after, leader, seen)
  }

  ghost predicate GroupForced(before: seq<Reply>, mid: seq<Reply>, after: seq<Reply>, leader: int, seen: bool) {
    Tried(before, mid, ToGroup(leader, Kill)) && Accepted(mid[|mid| - 1]) && LeaderForced(mid, after, leader, seen)
  }

  ghost predicate LeaderForced(before: seq<Reply>, after: seq<Reply>, leader: int, seen: bool) {
    && before < after
    && var more := after[|before|..];
       if seen then |more| == 1 && more[0].Collected? && more[0].pid == leader
       else
         && more[0].Signalled? && more[0].send == ToLeader(leader)
         && if !Accepted(more[0]) then |more| == 1
            else
              && |more| > 1 && more[1].Waited? && more[1].pid == leader
              && if more[1].errno != 0 then |more| == 2
                 else |more| == 3 && more[2].Collected? && more[2].pid == leader
  }

  /** SIGKILL to the leader and, unless that is refused, a wait for it. */
  ghost predicate LeaderKilled(before: seq<Reply>, after: seq<Reply>, leader: int, seen: bool) {
    && before < after && after[|before|].Signalled? && after[|before|].send == ToLeader(leader)
    && if !Accepted(after[|before|]) then |after| == |before| + 1 && !seen
       else
         && |after| == |before| + 2 && after[|before| + 1].Waited? && after[|before| + 1].pid == leader
         && (seen <==> after[|before| + 1].errno == 0)
  }

  /** What the answers around the collection of a leader amount to. */
  lemma ReapedLeader(h0: seq<Reply>, h1: seq<Reply>, h2: seq<Reply>, leader: int, seen: bool, found: bool)
    requires if seen then h1 == h0 && found else LeaderKilled(h0, h1, leader, found)
    requires if found then |h2| == |h1| + 1 && h1 <= h2 && h2[|h1|].Collected? && h2[|h1|].pid == leader else h2 == h1
    ensures LeaderForced(h0, h2, leader, seen)
  {
    assert h0 <= h1 <= h2;
    assert h0 < h2;
    var more := h2[|h0|..];
    assert more[0] == h2[|h0|];
    if !seen {
      assert more[0] == h1[|h0|];
      if |more| > 1 { assert more[1] == h1[|h0| + 1]; }
      if |more| > 2 { assert more[2] == h2[|h1|]; }
    }
  }

  lemma LeaderForcedQuietly(before: seq<Reply>, after: seq<Reply>, leader: int, seen: bool)
    requires LeaderForced(before, after, leader, seen)
    ensures before < after && !after[|before|].Waited?
    ensures Reaps(after[|after| - 1], leader) ==>
              forall i | |before| <= i < |after| :: !after[i].ClockSaid? && (after[i].Waited? ==> after[i].errno == 0)
  {
    var more := after[|before|..];
    assert more[0] == after[|before|] && more[|more| - 1] == after[|after| - 1];
    assert forall i | |before| <= i < |after| :: after[i] == more[i - |before|];
  }

  /** Force begins with no look, and if it ends with a collected leader there was no trouble. */
  lemma ForcedQuietly(before: seq<Reply>, after: seq<Reply>, leader: int, seen: bool, swept: bool)
    requires Forced(before, after, leader, seen, swept)
    ensures before < after && !after[|before|].Waited?
    ensures Reaps(after[|after| - 1], leader) ==> !Trouble(after, |before|)
  {
    if swept {
      LeaderForcedQuietly(before, after, leader, seen);
      if Reaps(after[|after| - 1], leader) { NoTrouble(after, |before|); }
    } else if mid :| GroupForced(before, mid, after, leader, seen) {
      LeaderForcedQuietly(mid, after, leader, seen);
      assert after[|before|] == mid[|before|];
      assert forall i | |before| <= i < |mid| :: after[i] == mid[i] && IsTry(mid[i], ToGroup(leader, Kill));
      if Reaps(after[|after| - 1], leader) { NoTrouble(after, |before|); }
    }
  }

  // ----- What goes wrong in an abort that nevertheless frees its slot -----

  /** A look at the leader or the clock failed, or a signal had been refused for good when the clock was read. */
  ghost predicate Troubled(log: seq<Reply>, i: nat)
    requires i < |log|
  {
    match log[i]
    case Waited(_, errno, _) => errno != 0
    case ClockSaid(ok, _) => !ok || (i > 0 && !Accepted(log[i - 1]))
    case _ => false
  }

  ghost predicate Trouble(log: seq<Reply>, from: nat) {
    exists i: nat :: from <= i < |log| && Troubled(log, i)
  }

  /** Trouble is what was trouble before or has come since. */
  lemma TroubleSplits(log: seq<Reply>, more: seq<Reply>, from: nat)
    requires from <= |log| && log <= more
    ensures Trouble(more, from) <==> Trouble(log, from) || Trouble(more, |log|)
  {
    if Trouble(log, from) {
      var i: nat :| from <= i < |log| && Troubled(log, i);
      assert Troubled(more, i);
    }
    if i: nat :| from <= i < |more| && Troubled(more, i) {
      if i < |log| { assert Troubled(log, i); }
    }
  }

  /** No answer but that of a look or of the clock is trouble. */
  lemma NoTrouble(log: seq<Reply>, from: nat)
    requires forall i | from <= i < |log| :: !log[i].ClockSaid? && (log[i].Waited? ==> log[i].errno == 0)
    ensures !Trouble(log, from)
  {
  }

  /** TERM and the first clock reading are trouble exactly if the last try was refused or the clock failed. */
  lemma TermTrouble(before: seq<Reply>, after: seq<Reply>, leader: int)
    requires TermThenClock(before, after, leader)
    ensures Trouble(after, |before|) <==> !after[|after| - 1].ok || !Accepted(after[|after| - 2])
  {
    var c := |after| - 1;
    assert forall i | |before| <= i < c :: after[i] == after[..c][i] && IsTry(after[..c][i], ToGroup(leader, Term));
    assert Troubled(after, c) <==> !after[c].ok || !Accepted(after[c - 1]);
  }

  lemma ClockAfterTerm(h0: seq<Reply>, h1: seq<Reply>, h2: seq<Reply>, leader: int)
    requires Tried(h0, h1, ToGroup(leader, Term)) && |h2| == |h1| + 1 && h1 <= h2 && h2[|h1|].ClockSaid?
    ensures |h2| > 1 && h0 <= h2 && TermThenClock(h0, h2, leader) && h2[|h2| - 2] == h1[|h1| - 1]
    ensures Trouble(h2, |h0|) <==> !h2[|h1|].ok || !Accepted(h1[|h1| - 1])
  {
    assert h2[..|h2| - 1] == h1;
    assert h0 < h1;
    TermTrouble(h0, h2, leader);
  }

  // ----- Refusals of a signal transaction -----

  /** A refusal and the numbers under which it is reported: as the one that ended a transaction, and as one that came
      while dispositions were put back. */
  datatype Refusal = Refusal(errno: int, doing: nat, undoing: nat)

  const UNREFUSED := Refusal(0, OP_NONE, OP_NONE)

  function QueryOperation(s: Signal): nat {
    match s
    case SigInt => OP_SIGACTION_QUERY_INT
    case SigTerm => OP_SIGACTION_QUERY_TERM
    case _ => OP_NONE
  }

  function InstallOperation(s: Signal): nat {
    match s
    case SigInt => OP_SIGACTION_INSTALL_INT
    case SigTerm => OP_SIGACTION_INSTALL_TERM
    case _ => OP_NONE
  }

  function RestoreOperation(s: Signal): nat {
    match s
    case SigInt => OP_SIGACTION_RESTORE_INT
    case SigTerm => OP_SIGACTION_RESTORE_TERM
    case _ => OP_NONE
  }

  function SetRefused(s: Signal, errno: int): Refusal {
    if errno == 0 then UNREFUSED else Refusal(errno, InstallOperation(s), RestoreOperation(s))
  }

  /** How sigaction or a mask call refused, if it did. */
  function RefusalIn(r: Reply): Refusal {
    match r
    case Masked(errno) => if errno == 0 then UNREFUSED else Refusal(errno, OP_NONE, OP_NONE)
    case Queried(s, errno) => if errno == 0 then UNREFUSED else Refusal(errno, QueryOperation(s), OP_NONE)
    case Disposed(s, _, errno) => SetRefused(s, errno)
    case _ => UNREFUSED
  }

  /** The first refusal at or after a place in the log, if any. */
  function FirstRefusal(log: seq<Reply>, from: nat): Refusal
    requires from <= |log|
    decreases |log| - from
  {
    if from == |log| then UNREFUSED
    else if RefusalIn(log[from]) != UNREFUSED then RefusalIn(log[from])
    else FirstRefusal(log, from + 1)
  }

  /** The refusal after the first one, if any. */
  function NextRefusal(log: seq<Reply>, from: nat): Refusal
    requires from <= |log|
    decreases |log| - from
  {
    if from == |log| then UNREFUSED
    else if RefusalIn(log[from]) != UNREFUSED then FirstRefusal(log, from + 1)
    else NextRefusal(log, from + 1)
  }

  /** Calls are made until one is refused, and that is the last one. */
  ghost predicate StopsAtRefusal(before: seq<Reply>, after: seq<Reply>, r: Refusal) {
    && before <= after
    && (forall i | |before| <= i < |after| - 1 :: RefusalIn(after[i]) == UNREFUSED)
    && r == if |after| == |before| then UNREFUSED else RefusalIn(after[|after| - 1])
  }

  lemma StopsOn(a: seq<Reply>, b: seq<Reply>, c: seq<Reply>, r: Refusal)
    requires StopsAtRefusal(a, b, UNREFUSED) && StopsAtRefusal(b, c, r)
    ensures StopsAtRefusal(a, c, r)
  {
    assert forall i | |a| <= i < |b| :: c[i] == b[i];
  }

  lemma {:induction false} FirstOfStops(a: seq<Reply>, b: seq<Reply>, c: seq<Reply>, from: nat, r: Refusal)
    requires StopsAtRefusal(a, b, r) && b <= c && |a| <= from <= |b|
    ensures r == UNREFUSED && from <= |b| ==>
              FirstRefusal(c, from) == FirstRefusal(c, |b|) && NextRefusal(c, from) == NextRefusal(c, |b|)
    ensures r != UNREFUSED && from < |b| ==>
              FirstRefusal(c, from) == r && NextRefusal(c, from) == FirstRefusal(c, |b|)
    decreases |b| - from
  {
    if from < |b| {
      assert c[from] == b[from];
      FirstOfStops(a, b, c, from + 1, r);
    }
  }

  lemma {:induction false} RefusalSplits(log: seq<Reply>, more: seq<Reply>, from: nat)
    requires from <= |log| && log <= more
    ensures FirstRefusal(more, from) == Earlier(FirstRefusal(log, from), FirstRefusal(more, |log|))
    decreases |log| - from
  {
    if from < |log| { RefusalSplits(log, more, from + 1); }
  }

  /** Which of two refusals is the first, the second part coming after the first. */
  function Earlier(r: Refusal, later: Refusal): Refusal {
    if r != UNREFUSED then r else later
  }

  /** The first of the refusals of four restores, in their order. */
  function FirstOfFour(e: PerSignal<int>): Refusal {
    var first := Earlier(SetRefused(SigPipe, e.onPipe), SetRefused(SigChld, e.onChld));
    Earlier(Earlier(first, SetRefused(SigTerm, e.onTerm)), SetRefused(SigInt, e.onInt))
  }

  lemma NoCall(log: seq<Reply>)
    ensures FirstRefusal(log, |log|) == UNREFUSED && StopsAtRefusal(log, log, UNREFUSED)
  {
  }

  /** Whatever was refused in two parts, one after the other. */
  lemma RefusalOn(a: seq<Reply>, b: seq<Reply>, c: seq<Reply>)
    requires a <= b <= c
    ensures a <= c
    ensures FirstRefusal(c, |a|) == Earlier(FirstRefusal(b, |a|), FirstRefusal(c, |b|))
  {
    RefusalSplits(b, c, |a|);
  }

  lemma {:induction false} NoRefusal(log: seq<Reply>, from: nat)
    requires from <= |log| && forall i | from <= i < |log| :: RefusalIn(log[i]) == UNREFUSED
    ensures FirstRefusal(log, from) == UNREFUSED
    decreases |log| - from
  {
    if from < |log| { NoRefusal(log, from + 1); }
  }

  /** One call was made. */
  lemma OneCall(before: seq<Reply>, after: seq<Reply>)
    requires |after| == |before| + 1 && before <= after
    ensures StopsAtRefusal(before, after, RefusalIn(after[|before|]))
    ensures FirstRefusal(after, |before|) == RefusalIn(after[|before|])
  {
    assert FirstRefusal(after, |after|) == UNREFUSED;
  }

  /** Dispositions were set and nothing else happened; `r` is the first refusal, if any. */
  ghost predicate Restored(before: seq<Reply>, after: seq<Reply>, r: Refusal) {
    && before <= after && (forall i | |before| <= i < |after| :: after[i].Disposed?)
    && FirstRefusal(after, |before|) == r
  }

  /** A refused restore, by the numbers it is reported under. */
  predicate Undone(r: Refusal, operation: nat, errno: int) {
    r.undoing == operation && r.errno == errno && (r == UNREFUSED <==> errno == 0)
  }

  lemma NothingRestored(log: seq<Reply>)
    ensures Restored(log, log, UNREFUSED)
  {
  }

  lemma OneRestored(before: seq<Reply>, after: seq<Reply>)
    requires |after| == |before| + 1 && before <= after && after[|before|].Disposed?
    ensures Restored(before, after, SetRefused(after[|before|].signal, after[|before|].errno))
  {
    OneCall(before, after);
  }

  lemma RestoredOn(a: seq<Reply>, b: seq<Reply>, c: seq<Reply>, r: Refusal, later: Refusal)
    requires Restored(a, b, r) && Restored(b, c, later)
    ensures Restored(a, c, Earlier(r, later))
  {
    RefusalOn(a, b, c);
    assert forall i | |a| <= i < |b| :: c[i] == b[i];
  }

  lemma RestoredQuietly(before: seq<Reply>, after: seq<Reply>, r: Refusal)
    requires Restored(before, after, r)
    ensures before <= after && FirstRefusal(after, |before|) == r && !Trouble(after, |before|)
  {
    NoTrouble(after, |before|);
  }

  /** A transaction succeeds exactly if nothing was refused. Otherwise it reports the first refusal, and as its cleanup
      diagnostic the next one, which came while it was undone. */
  ghost predicate Transacted(before: seq<Reply>, after: seq<Reply>, rc: int, err: Error) {
    && before <= after
    && (rc == 0 || rc == -1)
    && (rc == 0 <==> FirstRefusal(after, |before|) == UNREFUSED)
    && (rc == -1 ==> Blames(err, FirstRefusal(after, |before|), NextRefusal(after, |before|)))
  }

  predicate Blames(err: Error, first: Refusal, next: Refusal) {
    && err.operation == first.doing && err.errno == first.errno
    && err.cleanupOperation == next.undoing && err.cleanupErrno == next.errno
  }

  /** Nothing was refused, and that was all. */
  lemma TransactedWell(a: seq<Reply>, b: seq<Reply>, err: Error)
    requires StopsAtRefusal(a, b, UNREFUSED)
    ensures Transacted(a, b, 0, err)
  {
    FirstOfStops(a, b, b, |a|, UNREFUSED);
    NoCall(b);
  }

  /** Something was refused, and then the calls up to `c` were made to undo what had been done. */
  lemma TransactedBack(a: seq<Reply>, b: seq<Reply>, c: seq<Reply>, r: Refusal, err: Error)
    requires StopsAtRefusal(a, b, r) && r != UNREFUSED
    requires b <= c && Blames(err, r, FirstRefusal(c, |b|))
    ensures Transacted(a, c, -1, err)
  {
    FirstOfStops(a, b, c, |a|, r);
    assert a <= c;
  }

  /** Nothing was refused before. */
  lemma TransactedLater(a: seq<Reply>, b: seq<Reply>, c: seq<Reply>, rc: int, err: Error)
    requires StopsAtRefusal(a, b, UNREFUSED) && Transacted(b, c, rc, err)
    ensures Transacted(a, c, rc, err)
  {
    FirstOfStops(a, b, c, |a|, UNREFUSED);
    assert a <= c;
  }

  /** A refusal, by the answer alone. */
  predicate Spurned(r: Reply) {
    match r
    case Masked(errno) => errno != 0
    case Queried(_, errno) => errno != 0
    case Disposed(_, _, errno) => errno != 0
    case _ => false
  }

  ghost predicate FirstSpurned(log: seq<Reply>, from: nat, i: nat) {
    from <= i < |log| && Spurned(log[i]) && forall j: nat | from <= j < i :: !Spurned(log[j])
  }

  /** Only queries and installations for SIGINT and SIGTERM have a number of their own. */
  function DoingNumber(r: Reply): nat {
    match r
    case Queried(SigInt, _) => 2
    case Queried(SigTerm, _) => 3
    case Disposed(SigInt, _, _) => 4
    case Disposed(SigTerm, _, _) => 5
    case _ => 0
  }

  function UndoingNumber(r: Reply): nat {
    match r
    case Disposed(SigInt, _, _) => 6
    case Disposed(SigTerm, _, _) => 7
    case _ => 0
  }

  lemma {:induction false} RefusalAt(log: seq<Reply>, from: nat) returns (i: nat)
    requires from <= |log|
    ensures from <= i <= |log| && forall j: nat | from <= j < i :: !Spurned(log[j])
    ensures if i == |log| then FirstRefusal(log, from) == NextRefusal(log, from) == UNREFUSED
            else
              && FirstSpurned(log, from, i) && NextRefusal(log, from) == FirstRefusal(log, i + 1)
              && FirstRefusal(log, from) == Refusal(log[i].errno, DoingNumber(log[i]), UndoingNumber(log[i]))
    decreases |log| - from
  {
    i := from;
    if from < |log| && !Spurned(log[from]) { i := RefusalAt(log, from + 1); }
  }

  /** A transaction by its answers alone. */
  lemma TransactedByTheAnswers(before: seq<Reply>, after: seq<Reply>, rc: int, err: Error)
    requires Transacted(before, after, rc, err)
    ensures rc == 0 <==> forall i: nat | |before| <= i < |after| :: !Spurned(after[i])
    ensures rc != 0 ==> exists i: nat :: SpurnedAt(after, |before|, i, err)
  {
    hide FirstRefusal, NextRefusal;
    var i := RefusalAt(after, |before|);
    if i < |after| {
      var j := RefusalAt(after, i + 1);
      assert rc != 0 ==> SpurnedAt(after, |before|, i, err);
    }
  }

  /** Answer i was the first refusal, and it is reported; the refusal after it, if any, is the cleanup diagnostic. */
  ghost predicate SpurnedAt(log: seq<Reply>, from: nat, i: nat, err: Error) {
    && FirstSpurned(log, from, i) && err.errno == log[i].errno && err.operation == DoingNumber(log[i])
    && if forall j: nat | i < j < |log| :: !Spurned(log[j]) then err.cleanupOperation == err.cleanupErrno == 0
       else exists j: nat ::
              && FirstSpurned(log, i + 1, j)
              && err.cleanupErrno == log[j].errno && err.cleanupOperation == UndoingNumber(log[j])
  }

  // ----- Reads and drains -----

  /** What a close reports, from its answer. */
  predicate CloseReported(rc: int, err: Error, errno: int, fd: int) {
    if errno == 0 then rc == 0 && err == NO_ERROR
    else rc == -1 && err == NO_ERROR.Primary(OP_CLOSE_CHANNEL, errno, 0, fd)
  }

  /** The setup pipe answered and `stop` was the last answer. */
  ghost predicate HeardLast(before: seq<Reply>, after: seq<Reply>, stop: SetupAnswer) {
    before < after && after[|after| - 1] == HasDrained(stop)
  }

  /** How the last answer of a drain explains what the drain reports: nothing new, an error, too much data, or the end
      of the pipe, which is closed then and judged if that succeeds. */
  ghost predicate Answered(before: seq<Reply>, after: seq<Reply>, fd: int, s: SetupState, rc: int, err: Error) {
    && before < after
    && match after[|after| - 1]
       case HasDrained(SetupWouldBlock) => rc == 0 && s.outcome == Waiting && err == NO_ERROR
       case HasDrained(SetupData(_)) => rc == 0 && s.outcome == Corrupt && err == NO_ERROR
       case HasDrained(SetupError(errno)) =>
         rc == -1 && s.outcome == Waiting && err == NO_ERROR.Primary(OP_READ_SETUP, errno, s.length, fd)
       case HasClosed(closed, errno) =>
         && closed == fd && HeardLast(before, after[..|after| - 1], SetupEnd)
         && CloseReported(rc, err, errno, fd) && (s.outcome == Waiting <==> rc == -1)
       case _ => false
  }

  lemma AnsweredBy(before: seq<Reply>, mid: seq<Reply>, after: seq<Reply>, fd: int, s: SetupState, rc: int, err: Error,
                   stop: SetupAnswer)
    requires HeardLast(before, mid, stop)
    requires match stop
             case SetupWouldBlock => after == mid && rc == 0 && s.outcome == Waiting && err == NO_ERROR
             case SetupData(_) => after == mid && rc == 0 && s.outcome == Corrupt && err == NO_ERROR
             case SetupError(errno) =>
               && after == mid && rc == -1 && s.outcome == Waiting
               && err == NO_ERROR.Primary(OP_READ_SETUP, errno, s.length, fd)
             case SetupEnd => ClosedAfter(mid, after, fd, rc, err) && (s.outcome == Waiting <==> rc == -1)
    ensures Answered(before, after, fd, s, rc, err)
  {
    assert stop.SetupEnd? ==> after[..|after| - 1] == mid;
  }

  /** One close was made and reported. */
  ghost predicate ClosedAfter(before: seq<Reply>, after: seq<Reply>, fd: int, rc: int, err: Error) {
    && |after| == |before| + 1 && before < after
    && after[|before|].HasClosed? && after[|before|].fd == fd
    && CloseReported(rc, err, after[|before|].errno, fd)
  }

  /** What a read reports, from its answer and, at the end of the file, the answer of the close. */
  ghost predicate ReadReported(before: seq<Reply>, after: seq<Reply>, c: Channel, fd: int, capacity: nat,
                               answer: ReadAnswer, rc: int, err: Error) {
    match answer
    case Data(count) => after == before + [HasRead(fd, answer)] && rc == 0 && err == NO_ERROR && 0 < count <= capacity
    case WouldBlock => after == before + [HasRead(fd, answer)] && rc == 0 && err == NO_ERROR
    case ReadError(errno) =>
      && after == before + [HasRead(fd, answer)]
      && rc == -1 && err == NO_ERROR.Primary(ReadOperation(c), errno, 0, fd)
    case EndOfFile => ClosedAfter(before + [HasRead(fd, answer)], after, fd, rc, err)
  }

  function ReadOperation(c: Channel): nat {
    match c
    case Stdout => OP_READ_STDOUT
    case Stderr => OP_READ_STDERR
    case Setup => OP_READ_SETUP
  }
}

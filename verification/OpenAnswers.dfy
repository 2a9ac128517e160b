/** What the calls made by an open answered, and what the open owes to them. */
module OpenAnswers {
  import opened Kernel
  import opened World
  import opened Errors
  import opened Answers

  /** The operation and the number with which an answer stops the making of the pipes, zero if it does not. */
  function Stops(r: Reply): (nat, int) {
    match r
    case PipeMade(operation, errno) => (operation, errno)
    case Copied(_, errno) => (OP_FD_CLOEXEC, errno)
    case HasClosed(_, errno) => (OP_FD_CLOEXEC, errno)
    case Flagged(_, operation, errno) => (operation, errno)
    case _ => (OP_NONE, 0)
  }

  predicate OfAPipe(r: Reply) {
    r.PipeMade? || r.Copied? || r.HasClosed? || r.Flagged?
  }

  /** setpgid may find that the child has gone on to its program, or is gone, or is on its way there. */
  predicate Tolerated(errno: int) {
    errno in {0, EACCES, ESRCH, EPERM}
  }

  /** Calls on pipes that stop nothing. */
  ghost predicate Smooth(before: seq<Reply>, after: seq<Reply>) {
    before <= after && forall i | |before| <= i < |after| :: OfAPipe(after[i]) && Stops(after[i]).1 == 0
  }

  /** The last of the calls stops it. */
  ghost predicate Halted(before: seq<Reply>, after: seq<Reply>, operation: nat, errno: int) {
    && before < after && Smooth(before, after[..|after| - 1]) && OfAPipe(after[|after| - 1])
    && Stops(after[|after| - 1]) == (operation, errno) && errno != 0
  }

  /** Descriptors were closed and nothing else happened. */
  ghost predicate Closing(before: seq<Reply>, after: seq<Reply>) {
    before <= after && forall i | |before| <= i < |after| :: after[i].HasClosed?
  }

  /** One call stopped the open, and then only descriptors were closed. */
  ghost predicate GaveUp(before: seq<Reply>, after: seq<Reply>, operation: nat, errno: int) {
    exists mid :: Halted(before, mid, operation, errno) && Closing(mid, after)
  }

  lemma SmoothOn(a: seq<Reply>, b: seq<Reply>, c: seq<Reply>)
    requires Smooth(a, b) && Smooth(b, c)
    ensures Smooth(a, c)
  {
    assert forall i | |a| <= i < |b| :: c[i] == b[i];
  }

  lemma NoCalls(a: seq<Reply>)
    ensures Smooth(a, a) && Closing(a, a)
  {
  }

  lemma ClosingOn(a: seq<Reply>, b: seq<Reply>, c: seq<Reply>)
    requires Closing(a, b) && Closing(b, c)
    ensures Closing(a, c)
  {
    assert forall i | |a| <= i < |b| :: c[i] == b[i];
  }

  /** One call, by what it answered. */
  lemma OneAnswer(a: seq<Reply>, b: seq<Reply>, operation: nat, errno: int)
    requires |b| == |a| + 1 && a <= b && OfAPipe(b[|a|]) && Stops(b[|a|]) == (operation, errno)
    ensures if errno == 0 then Smooth(a, b) else Halted(a, b, operation, errno) && GaveUp(a, b, operation, errno)
  {
    assert b[..|b| - 1] == a;
    if errno != 0 {
      assert Halted(a, b, operation, errno) && Closing(b, b);
    }
  }

  lemma GaveUpLater(a: seq<Reply>, b: seq<Reply>, c: seq<Reply>, operation: nat, errno: int)
    requires Smooth(a, b) && GaveUp(b, c, operation, errno)
    ensures GaveUp(a, c, operation, errno)
  {
    var mid :| Halted(b, mid, operation, errno) && Closing(mid, c);
    SmoothOn(a, b, mid[..|mid| - 1]);
    assert a < mid;
    assert Halted(a, mid, operation, errno);
  }

  lemma GaveUpClosing(a: seq<Reply>, b: seq<Reply>, c: seq<Reply>, operation: nat, errno: int)
    requires GaveUp(a, b, operation, errno) && Closing(b, c)
    ensures GaveUp(a, c, operation, errno)
  {
    var mid :| Halted(a, mid, operation, errno) && Closing(mid, b);
    ClosingOn(mid, b, c);
  }

  /** The child was killed through its group and by its number, and waited for. */
  ghost predicate PutDown(before: seq<Reply>, after: seq<Reply>, leader: int, errno: int) {
    && |before| + 3 <= |after| && before <= after
    && after[|before|].Signalled? && after[|before|].send == ToGroup(leader, Kill)
    && after[|before| + 1].Signalled? && after[|before| + 1].send == ToLeader(leader)
    && after[|before| + 2].Collected? && after[|before| + 2].pid == leader && after[|before| + 2].errno == errno
    && Closing(after[..|before| + 3], after)
  }

  /** What an open with a plan and a slot owes to its answers. It succeeds behind a fork and a setpgid that does not
      stop it, and then only closes its copies of the write ends. Otherwise it reports the answer that stopped it. A
      child that is there by then is put down, and if that cannot be collected its number is the cleanup diagnostic. */
  ghost predicate OpenAnswered(before: seq<Reply>, after: seq<Reply>, leader: int, rc: int, err: Error) {
    if rc == 0 then
      err == NO_ERROR && exists pipes :: OpenedBehind(before, pipes, after, leader)
    else
      && rc == -1
      && (|| (&& GaveUp(before, after, err.operation, err.errno)
              && err.cleanupOperation == OP_NONE && err.cleanupErrno == 0)
          || (exists pipes :: NoFork(before, pipes, after, err))
          || (exists pipes, pid, wait :: NoGroup(before, pipes, after, pid, wait, err)))
  }

  ghost predicate OpenedBehind(before: seq<Reply>, pipes: seq<Reply>, after: seq<Reply>, leader: int) {
    && Smooth(before, pipes) && |pipes| + 2 <= |after| && pipes <= after
    && after[|pipes|] == ForkSaid(0)
    && after[|pipes| + 1].GroupSet? && after[|pipes| + 1].pid == leader && Tolerated(after[|pipes| + 1].errno)
    && Closing(after[..|pipes| + 2], after)
  }

  ghost predicate NoFork(before: seq<Reply>, pipes: seq<Reply>, after: seq<Reply>, err: Error) {
    && Smooth(before, pipes) && |pipes| + 1 <= |after| && pipes <= after
    && err == NO_ERROR.Primary(OP_FORK, err.errno, 0, 0) && err.errno != 0
    && after[|pipes|] == ForkSaid(err.errno)
    && Closing(after[..|pipes| + 1], after)
  }

  ghost predicate NoGroup(before: seq<Reply>, pipes: seq<Reply>, after: seq<Reply>, pid: int, wait: int, err: Error) {
    && Smooth(before, pipes) && |pipes| + 2 <= |after| && pipes <= after
    && after[|pipes|] == ForkSaid(0)
    && after[|pipes| + 1] == GroupSet(pid, err.errno) && !Tolerated(err.errno) && err.operation == OP_PARENT_SETPGID
    && PutDown(after[..|pipes| + 2], after, pid, wait)
    && err.cleanupErrno == wait && err.cleanupOperation == (if wait == 0 then OP_NONE else OP_WAITPID)
  }

  /** The child was waited for, and then only descriptors were closed. */
  ghost predicate CollectedThenClosed(before: seq<Reply>, after: seq<Reply>, pid: int, errno: int) {
    && |before| < |after| && before <= after
    && after[|before|].Collected? && after[|before|].pid == pid && after[|before|].errno == errno
    && Closing(after[..|before| + 1], after)
  }

  lemma CollectedFirst(h0: seq<Reply>, h1: seq<Reply>, h2: seq<Reply>, pid: int, errno: int)
    requires |h1| == |h0| + 1 && h0 <= h1 && h1[|h0|].Collected? && h1[|h0|].pid == pid && h1[|h0|].errno == errno
    requires Closing(h1, h2)
    ensures CollectedThenClosed(h0, h2, pid, errno)
  {
    assert h2[..|h0| + 1] == h1;
  }

  lemma OpenWithoutPipes(before: seq<Reply>, after: seq<Reply>, leader: int, err: Error)
    requires GaveUp(before, after, err.operation, err.errno) && err.cleanupOperation == OP_NONE && err.cleanupErrno == 0
    ensures OpenAnswered(before, after, leader, -1, err)
  {
  }

  lemma OpenWithoutFork(before: seq<Reply>, pipes: seq<Reply>, after: seq<Reply>, leader: int, err: Error)
    requires Smooth(before, pipes) && err.errno != 0 && err == NO_ERROR.Primary(OP_FORK, err.errno, 0, 0)
    requires Closing(pipes + [ForkSaid(err.errno)], after)
    ensures OpenAnswered(before, after, leader, -1, err)
  {
    assert after[..|pipes| + 1] == pipes + [ForkSaid(err.errno)];
    assert NoFork(before, pipes, after, err);
  }

  lemma OpenWithoutGroup(before: seq<Reply>, pipes: seq<Reply>, grouped: seq<Reply>, killed: seq<Reply>,
                         after: seq<Reply>, pid: int, wait: int, err: Error)
    requires Smooth(before, pipes) && grouped == pipes + [ForkSaid(0)] + [GroupSet(pid, err.errno)]
    requires exists e, f :: killed == grouped + [Signalled(ToGroup(pid, Kill), e), Signalled(ToLeader(pid), f)]
    requires CollectedThenClosed(killed, after, pid, wait)
    requires !Tolerated(err.errno) && err.operation == OP_PARENT_SETPGID
    requires err.cleanupErrno == wait && err.cleanupOperation == (if wait == 0 then OP_NONE else OP_WAITPID)
    ensures OpenAnswered(before, after, 0, -1, err)
  {
    assert grouped <= killed <= after;
    assert after[..|pipes| + 2] == grouped;
    assert after[..|grouped| + 3] == after[..|killed| + 1];
    assert forall i | |grouped| <= i < |killed| :: after[i] == killed[i];
    assert PutDown(grouped, after, pid, wait);
    assert after[|pipes|] == grouped[|pipes|] && after[|pipes| + 1] == grouped[|pipes| + 1];
    assert NoGroup(before, pipes, after, pid, wait, err);
  }

  lemma OpenedSmoothly(before: seq<Reply>, pipes: seq<Reply>, grouped: seq<Reply>, after: seq<Reply>, leader: int,
                       errno: int)
    requires Smooth(before, pipes) && grouped == pipes + [ForkSaid(0)] + [GroupSet(leader, errno)] && Tolerated(errno)
    requires Closing(grouped, after)
    ensures OpenAnswered(before, after, leader, 0, NO_ERROR)
  {
    assert after[..|pipes| + 2] == grouped;
    assert after[|pipes|] == grouped[|pipes|] && after[|pipes| + 1] == grouped[|pipes| + 1];
    assert pipes <= after;
    assert OpenedBehind(before, pipes, after, leader);
  }

  // ----- By the answers alone -----

  /** Answer i ends the open it belongs to: a pipe, a copy, a flag or the fork refused, a group that could not be set
      for another reason than that the child exec'd, is gone or is on its way, or a close that failed before there was
      a fork, which is that of an end being moved. */
  ghost predicate Refuses(log: seq<Reply>, from: nat, i: nat)
    requires from <= i < |log|
  {
    match log[i]
    case PipeMade(_, errno) => errno != 0
    case Copied(_, errno) => errno != 0
    case Flagged(_, _, errno) => errno != 0
    case ForkSaid(errno) => errno != 0
    case GroupSet(_, errno) => errno !in {0, 1, 3, 13}
    case HasClosed(_, errno) => errno != 0 && forall j | from <= j < i :: !log[j].ForkSaid?
    case _ => false
  }

  ghost predicate FirstRefused(log: seq<Reply>, from: nat, i: nat) {
    from <= i < |log| && Refuses(log, from, i) && forall j: nat | from <= j < i :: !Refuses(log, from, j)
  }

  /** The number under which an answer is reported. */
  function OperationOf(r: Reply): nat {
    match r
    case PipeMade(operation, _) => operation
    case Flagged(_, operation, _) => operation
    case ForkSaid(_) => 16
    case GroupSet(_, _) => 17
    case _ => 14
  }

  /** Nothing in the making of the pipes refuses if nothing stops it. */
  lemma SmoothRefusesNothing(before: seq<Reply>, pipes: seq<Reply>, after: seq<Reply>)
    requires Smooth(before, pipes) && pipes <= after
    ensures before <= after
    ensures forall i: nat | |before| <= i < |pipes| :: !Refuses(after, |before|, i) && OfAPipe(after[i])
  {
    assert forall i | |before| <= i < |pipes| :: after[i] == pipes[i];
    assert before <= after;
  }

  lemma OpenedRefusesNothing(before: seq<Reply>, pipes: seq<Reply>, after: seq<Reply>, leader: int)
    requires OpenedBehind(before, pipes, after, leader)
    ensures before <= after && forall i: nat | |before| <= i < |after| :: !Refuses(after, |before|, i)
  {
    SmoothRefusesNothing(before, pipes, after);
  }

  lemma GaveUpAtTheFirst(before: seq<Reply>, after: seq<Reply>, operation: nat, errno: int) returns (i: nat)
    requires GaveUp(before, after, operation, errno)
    ensures before <= after && FirstRefused(after, |before|, i) && errno == after[i].errno
    ensures operation == OperationOf(after[i])
    ensures forall j: nat | |before| <= j < |after| :: !after[j].Collected?
  {
    var mid :| Halted(before, mid, operation, errno) && Closing(mid, after);
    i := |mid| - 1;
    assert mid[..i] <= after;
    SmoothRefusesNothing(before, mid[..i], after);
    assert after[i] == mid[i];
  }

  lemma NoForkIsFirst(before: seq<Reply>, pipes: seq<Reply>, after: seq<Reply>, err: Error)
    requires NoFork(before, pipes, after, err)
    ensures before <= after && FirstRefused(after, |before|, |pipes|)
    ensures err.errno == after[|pipes|].errno && err.operation == OperationOf(after[|pipes|])
    ensures forall j: nat | |before| <= j < |after| :: !after[j].Collected?
  {
    SmoothRefusesNothing(before, pipes, after);
  }

  lemma NoGroupIsFirst(before: seq<Reply>, pipes: seq<Reply>, after: seq<Reply>, pid: int, wait: int, err: Error)
    requires NoGroup(before, pipes, after, pid, wait, err)
    ensures before <= after && FirstRefused(after, |before|, |pipes| + 1)
    ensures err.errno == after[|pipes| + 1].errno && err.operation == OperationOf(after[|pipes| + 1])
    ensures forall j: nat | |before| <= j < |after| && after[j].Collected? :: err.cleanupErrno == after[j].errno
  {
    SmoothRefusesNothing(before, pipes, after);
    assert |after[..|pipes| + 2]| == |pipes| + 2;
  }

  /** An open succeeds exactly if no answer refuses, and then a fork and a setpgid were made; a failed one reports the
      first answer that does, and a child that could not be collected as its cleanup. */
  lemma OpenByTheAnswers(before: seq<Reply>, after: seq<Reply>, leader: int, rc: int, err: Error)
    requires OpenAnswered(before, after, leader, rc, err)
    ensures before <= after && (rc == 0 || rc == -1)
    ensures rc == 0 <==> forall i: nat | |before| <= i < |after| :: !Refuses(after, |before|, i)
    ensures rc == 0 ==> exists i: nat :: |before| <= i < |after| && SetFor(after, i, leader)
    ensures rc != 0 ==> exists i: nat :: FirstRefused(after, |before|, i) && err.errno == after[i].errno
                                         && err.operation == OperationOf(after[i])
    ensures rc != 0 ==>
              forall j: nat | |before| <= j < |after| && after[j].Collected? :: err.cleanupErrno == after[j].errno
  {
    hide OpenedBehind, NoFork, NoGroup, GaveUp, Refuses;
    if rc == 0 {
      var pipes :| OpenedBehind(before, pipes, after, leader);
      OpenedRefusesNothing(before, pipes, after, leader);
      OpenedSets(before, pipes, after, leader);
    } else if GaveUp(before, after, err.operation, err.errno) && err.cleanupOperation == OP_NONE {
      var i := GaveUpAtTheFirst(before, after, err.operation, err.errno);
    } else if pipes :| NoFork(before, pipes, after, err) {
      NoForkIsFirst(before, pipes, after, err);
    } else {
      var pipes, pid, wait :| NoGroup(before, pipes, after, pid, wait, err);
      NoGroupIsFirst(before, pipes, after, pid, wait, err);
    }
  }

  /** The group of the forked child was set. */
  ghost predicate SetFor(log: seq<Reply>, i: nat, leader: int)
    requires i < |log|
  {
    i > 0 && log[i - 1] == ForkSaid(0) && log[i].GroupSet? && log[i].pid == leader
  }

  lemma OpenedSets(before: seq<Reply>, pipes: seq<Reply>, after: seq<Reply>, leader: int)
    requires OpenedBehind(before, pipes, after, leader)
    ensures |before| <= |pipes| + 1 < |after| && SetFor(after, |pipes| + 1, leader)
  {
  }
}

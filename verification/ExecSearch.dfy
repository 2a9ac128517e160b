/** The child between fork and exec: the setup stages in order, the search through the program candidates, and
    the report sent back when none of it led to an exec. */
module ExecSearch {
  import opened Kernel
  import opened SetupProtocol

  // Linux numbers.
  const ENOENT := 2
  const ENOEXEC := 8
  const ENODEV := 19
  const ENOTDIR := 20
  const ETXTBSY := 26
  const ETIMEDOUT := 110
  const ESTALE := 116

  const STAGE_SETPGID := 1
  const STAGE_CHDIR := 2
  const STAGE_DUP2_STDOUT := 3
  const STAGE_DUP2_STDERR := 4
  const STAGE_CLOSE := 5
  const STAGE_SIGPIPE_RESTORE := 8

  const RETRIES := 5

  predicate SearchMiss(errno: int) {
    errno in {ENOENT, ESTALE, ENOTDIR, ENODEV, ETIMEDOUT}
  }

  /** Whatever the kernel may answer to one child: zero for success, else an error number. `exec(i, a)` is the
      answer to attempt `a` on candidate `i`, `backoff(i, a)` that of the wait after it once interrupted waits
      have been repeated, `shell(i)` that of the shell run on candidate `i`, `close(n)` that of the n-th of
      the five pipe ends. */
  datatype Answers = Answers(
    sigpipe: int, setpgid: int, chdir: int, dup2Stdout: int, dup2Stderr: int,
    close: nat -> int, exec: (nat, nat) -> int, backoff: (nat, nat) -> int, shell: nat -> int)

  predicate IsErrno(e: int) { 0 <= e < 0x8000_0000 }

  /** Error numbers are positive 32-bit numbers. */
  ghost predicate Honest(k: Answers) {
    && IsErrno(k.sigpipe) && IsErrno(k.setpgid) && IsErrno(k.chdir)
    && IsErrno(k.dup2Stdout) && IsErrno(k.dup2Stderr)
    && (forall n :: IsErrno(k.close(n)))
    && (forall i, a :: IsErrno(k.exec(i, a)) && IsErrno(k.backoff(i, a)))
    && (forall i :: IsErrno(k.shell(i)))
  }

  /** How the child ends: as a program, as the shell reading a program, or with a report. */
  datatype Ending = Became(candidate: nat) | Shell(candidate: nat) | Reported(stage: nat, errno: int)

  /** How trying one candidate ends: with its last error, or with a wait that failed. */
  datatype Trial = Runs | Fails(errno: int) | Disturbed(errno: int)

  /** Busy program files are retried a bounded number of times. */
  ghost function Try(k: Answers, i: nat, a: nat): Trial
    requires a <= RETRIES
    decreases RETRIES - a
  {
    var e := k.exec(i, a);
    if e == 0 then Runs
    else if e != ETXTBSY || a == RETRIES then Fails(e)
    else if k.backoff(i, a) != 0 then Disturbed(k.backoff(i, a))
    else Try(k, i, a + 1)
  }

  /** The search goes on after this candidate. */
  ghost predicate Passed(k: Answers, i: nat) {
    var t := Try(k, i, 0);
    t.Fails? && (t.errno == EACCES || SearchMiss(t.errno))
  }

  ghost predicate Denied(k: Answers, i: nat) {
    Try(k, i, 0) == Fails(EACCES)
  }

  /** The ending a candidate that does not pass decides on. */
  ghost function Decides(k: Answers, i: nat): Ending {
    match Try(k, i, 0)
    case Runs => Became(i)
    case Disturbed(e) => Reported(STAGE_EXECVE, e)
    case Fails(e) =>
      if e != ENOEXEC then Reported(STAGE_EXECVE, e)
      else if k.shell(i) == 0 then Shell(i)
      else Reported(STAGE_EXECVE, k.shell(i))
  }

  /** The error the last of n candidates failed with; with none, that nothing was found. */
  ghost function LastMiss(k: Answers, n: nat): int
    requires n > 0 ==> Try(k, n - 1, 0).Fails?
  {
    if n == 0 then ENOENT else Try(k, n - 1, 0).errno
  }

  ghost predicate AllPassed(k: Answers, n: nat) {
    forall i: nat | i < n :: Passed(k, i)
  }

  /** Candidate i is the first that does not pass. */
  ghost predicate Decider(k: Answers, n: nat, i: nat) {
    i < n && AllPassed(k, i) && !Passed(k, i)
  }

  /** The search through n candidates: the first that does not pass decides. If all pass, permission denied
      outweighs every other miss, and otherwise the last one is reported. */
  ghost predicate SearchEnds(k: Answers, n: nat, end: Ending) {
    if AllPassed(k, n) then
      && (n > 0 ==> Passed(k, n - 1))
      && end == Reported(STAGE_EXECVE, if exists i: nat :: i < n && Denied(k, i) then EACCES else LastMiss(k, n))
    else
      exists i: nat :: Decider(k, n, i) && end == Decides(k, i)
  }

  /** One candidate, with its retries. */
  method TryCandidate(k: Answers, i: nat) returns (t: Trial, calls: nat)
    ensures t == Try(k, i, 0) && 1 <= calls <= RETRIES + 1
  {
    var retries := 0;
    calls := 0;
    while true
      invariant retries <= RETRIES && calls == retries
      invariant Try(k, i, 0) == Try(k, i, retries)
      decreases RETRIES - retries
    {
      var e := k.exec(i, retries);
      calls := calls + 1;
      if e == 0 { return Runs, calls; }
      if e != ETXTBSY || retries >= RETRIES { return Fails(e), calls; }
      var disturbed := k.backoff(i, retries);
      if disturbed != 0 { return Disturbed(disturbed), calls; }
      retries := retries + 1;
    }
  }

  method Search(k: Answers, n: nat) returns (end: Ending, calls: nat)
    ensures SearchEnds(k, n, end)
    ensures calls <= 6 * n + 1
  {
    var last, denied := ENOENT, false;
    calls := 0;
    for i := 0 to n
      invariant AllPassed(k, i) && (i > 0 ==> Passed(k, i - 1))
      invariant denied <==> exists j: nat :: j < i && Denied(k, j)
      invariant last == LastMiss(k, i)
      invariant calls <= 6 * i
    {
      var t, tried := TryCandidate(k, i);
      calls := calls + tried;
      assert !Passed(k, i) ==> Decider(k, n, i);
      match t
      case Runs => return Became(i), calls;
      case Disturbed(e) => return Reported(STAGE_EXECVE, e), calls;
      case Fails(e) =>
        last := e;
        if e == ENOEXEC {
          var viaShell := k.shell(i);
          calls := calls + 1;
          return if viaShell == 0 then Shell(i) else Reported(STAGE_EXECVE, viaShell), calls;
        }
        if e == EACCES {
          denied := true;
          assert Denied(k, i);
        } else if !SearchMiss(e) {
          return Reported(STAGE_EXECVE, e), calls;
        }
    }
    end := Reported(STAGE_EXECVE, if denied then EACCES else last);
  }

  /** The setup stages in order, with what each answered; a child without a working directory of its own
      skips that stage. */
  ghost function Setups(k: Answers, hasCwd: bool): seq<(nat, int)> {
    [(STAGE_SIGPIPE_RESTORE, k.sigpipe), (STAGE_SETPGID, k.setpgid)]
    + (if hasCwd then [(STAGE_CHDIR, k.chdir)] else [])
    + [(STAGE_DUP2_STDOUT, k.dup2Stdout), (STAGE_DUP2_STDERR, k.dup2Stderr),
       (STAGE_CLOSE, k.close(0)), (STAGE_CLOSE, k.close(1)), (STAGE_CLOSE, k.close(2)),
       (STAGE_CLOSE, k.close(3)), (STAGE_CLOSE, k.close(4))]
  }

  /** The first setup stage that fails is reported; a search happens only after all of them succeeded. */
  ghost predicate ChildEnds(k: Answers, hasCwd: bool, n: nat, end: Ending) {
    var s := Setups(k, hasCwd);
    if forall i | 0 <= i < |s| :: s[i].1 == 0 then SearchEnds(k, n, end)
    else
      exists i :: 0 <= i < |s| && s[i].1 != 0 && (forall j | 0 <= j < i :: s[j].1 == 0)
                  && end == Reported(s[i].0, s[i].1)
  }

  /** What arrives in the parent's setup pipe: close-on-exec makes a success silent. */
  function Wire(end: Ending): seq<byte>
    requires end.Reported? ==> IsErrno(end.errno) && end.stage <= STAGE_LAST
  {
    if end.Reported? then Record(end.stage, end.errno) else []
  }

  /** The whole child region. All six pipe ends are above the standard descriptors, so five are closed and the
      sixth carries the report. */
  method ChildExec(k: Answers, hasCwd: bool, n: nat) returns (end: Ending, calls: nat)
    ensures ChildEnds(k, hasCwd, n, end)
    ensures calls <= 6 * n + 1
  {
    hide SearchEnds;
    calls := 0;
    ghost var s := Setups(k, hasCwd);
    ghost var shift := if hasCwd then 1 else 0;
    if k.sigpipe != 0 {
      assert s[0] == (STAGE_SIGPIPE_RESTORE, k.sigpipe);
      return Reported(STAGE_SIGPIPE_RESTORE, k.sigpipe), calls;
    }
    if k.setpgid != 0 {
      assert s[1] == (STAGE_SETPGID, k.setpgid);
      return Reported(STAGE_SETPGID, k.setpgid), calls;
    }
    if hasCwd && k.chdir != 0 {
      assert s[2] == (STAGE_CHDIR, k.chdir);
      return Reported(STAGE_CHDIR, k.chdir), calls;
    }
    if k.dup2Stdout != 0 {
      assert s[2 + shift] == (STAGE_DUP2_STDOUT, k.dup2Stdout);
      return Reported(STAGE_DUP2_STDOUT, k.dup2Stdout), calls;
    }
    if k.dup2Stderr != 0 {
      assert s[3 + shift] == (STAGE_DUP2_STDERR, k.dup2Stderr);
      return Reported(STAGE_DUP2_STDERR, k.dup2Stderr), calls;
    }
    for index := 0 to 5
      invariant forall j | 0 <= j < 4 + shift + index :: s[j].1 == 0
    {
      var e := k.close(index);
      assert s[4 + shift + index] == (STAGE_CLOSE, k.close(index));
      if e != 0 { return Reported(STAGE_CLOSE, e), calls; }
    }
    end, calls := Search(k, n);
  }

  lemma TryIsHonest(k: Answers, i: nat, a: nat)
    requires Honest(k) && a <= RETRIES
    ensures var t := Try(k, i, a); !t.Runs? ==> t.errno > 0 && IsErrno(t.errno)
    decreases RETRIES - a
  {
  }

  /** The parent reads back exactly how its child ended: silence means that a program or a shell runs, and a
      report is understood as the stage and error number it names, never taken for corruption. */
  lemma ParentUnderstands(k: Answers, hasCwd: bool, n: nat, end: Ending)
    requires Honest(k) && ChildEnds(k, hasCwd, n, end)
    ensures end.Reported? ==> end.stage <= STAGE_LAST && IsErrno(end.errno) && end.errno > 0
    ensures Classify(Wire(end)) == if end.Reported? then Failed(end.stage, end.errno) else Clean
  {
    var s := Setups(k, hasCwd);
    assert forall i | 0 <= i < |s| :: IsErrno(s[i].1) && STAGE_FIRST <= s[i].0 <= STAGE_LAST;
    forall i: nat
      ensures Passed(k, i) ==> Try(k, i, 0).errno > 0 && IsErrno(Try(k, i, 0).errno)
      ensures Decides(k, i).Reported? && !Passed(k, i) ==>
                && Decides(k, i).stage == STAGE_EXECVE
                && Decides(k, i).errno > 0 && IsErrno(Decides(k, i).errno)
    {
      TryIsHonest(k, i, 0);
    }
    if forall i | 0 <= i < |s| :: s[i].1 == 0 {
      SearchIsHonest(k, n, end);
    }
    if end.Reported? { RecordRoundTrip(end.stage, end.errno); }
  }

  lemma SearchIsHonest(k: Answers, n: nat, end: Ending)
    requires Honest(k) && SearchEnds(k, n, end)
    ensures end.Reported? ==> end.stage == STAGE_EXECVE && end.errno > 0 && IsErrno(end.errno)
  {
  }

  /** A candidate's program runs exactly if the kernel accepts it and every earlier candidate is passed over. */
  lemma FirstRunnableWins(k: Answers, n: nat, end: Ending, i: nat)
    requires SearchEnds(k, n, end)
    ensures end == Became(i) <==> i < n && AllPassed(k, i) && Try(k, i, 0).Runs?
  {
    if i < n && AllPassed(k, i) && Try(k, i, 0).Runs? {
      assert Decider(k, n, i);
      var d: nat :| Decider(k, n, d) && end == Decides(k, d);
      assert d == i;
    }
  }

  // ----- The search by the answers alone -----

  /** Attempts before the a-th on candidate i found the file busy and were waited out. */
  ghost predicate BusyUpTo(k: Answers, i: nat, a: nat) {
    forall b: nat | b < a :: k.exec(i, b) == 26 && k.backoff(i, b) == 0
  }

  /** The kernel accepts candidate i, at the sixth attempt at the latest. */
  ghost predicate Accepted(k: Answers, i: nat) {
    exists a: nat :: a <= 5 && BusyUpTo(k, i, a) && k.exec(i, a) == 0
  }

  /** Candidate i is given up with error e: one that is not to be retried, or busy at the sixth attempt too. */
  ghost predicate GivenUp(k: Answers, i: nat, e: int) {
    exists a: nat :: a <= 5 && BusyUpTo(k, i, a) && k.exec(i, a) == e != 0 && (e != 26 || a == 5)
  }

  /** A wait between two attempts on candidate i failed with error e. */
  ghost predicate WaitFailed(k: Answers, i: nat, e: int) {
    exists a: nat :: a < 5 && BusyUpTo(k, i, a) && k.exec(i, a) == 26 && k.backoff(i, a) == e != 0
  }

  /** The first n candidates are passed over: not found, no permission, no such device, not a directory, timed out
      or stale, by their Linux numbers. */
  ghost predicate PassedOver(k: Answers, n: nat) {
    forall i: nat | i < n :: PassedOne(k, i)
  }

  ghost predicate PassedOne(k: Answers, i: nat) {
    exists e :: GivenUp(k, i, e) && e in {2, 13, 19, 20, 110, 116}
  }

  /** What trying a candidate comes to, by its answers. The three endings exclude one another. */
  lemma {:induction false} TryMeans(k: Answers, i: nat, a: nat)
    requires a <= RETRIES && BusyUpTo(k, i, a)
    ensures Try(k, i, a).Runs? <==> Accepted(k, i)
    ensures forall e :: Try(k, i, a) == Fails(e) <==> GivenUp(k, i, e)
    ensures forall e :: Try(k, i, a) == Disturbed(e) <==> WaitFailed(k, i, e)
    decreases RETRIES - a
  {
    var e := k.exec(i, a);
    if e == ETXTBSY && a < RETRIES && k.backoff(i, a) == 0 {
      assert BusyUpTo(k, i, a + 1);
      TryMeans(k, i, a + 1);
    } else {
      forall b: nat | b <= 5 && BusyUpTo(k, i, b)
        ensures b <= a
      {
        assert b > a ==> k.exec(i, a) == 26 && k.backoff(i, a) == 0;
      }
      forall b: nat | b < a
        ensures k.exec(i, b) == 26 && k.backoff(i, b) == 0
      {
      }
    }
  }

  lemma PassedMeans(k: Answers, i: nat)
    ensures Passed(k, i) <==> PassedOne(k, i)
    ensures Denied(k, i) <==> GivenUp(k, i, 13)
  {
    TryMeans(k, i, 0);
  }

  lemma AllPassedMeans(k: Answers, n: nat)
    ensures AllPassed(k, n) <==> PassedOver(k, n)
  {
    hide Passed, PassedOne;
    forall i: nat
      ensures Passed(k, i) <==> PassedOne(k, i)
    {
      PassedMeans(k, i);
    }
  }

  /** The report that candidate i makes if it is not passed over and nothing runs on it: of a wait that failed, of an
      error that ends the search, or of a shell that would not run it either. */
  ghost predicate Reports(k: Answers, i: nat, e: int) {
    || WaitFailed(k, i, e)
    || (GivenUp(k, i, e) && e !in {2, 8, 13, 19, 20, 110, 116})
    || (GivenUp(k, i, 8) && k.shell(i) == e != 0)
  }

  /** What all n candidates passed over come to: permission denied if any was denied, otherwise the last error, and
      not found if there was none. */
  ghost predicate Missed(k: Answers, n: nat, e: int) {
    if exists i: nat :: i < n && GivenUp(k, i, 13) then e == 13
    else if n == 0 then e == 2
    else GivenUp(k, n - 1, e)
  }

  /** A candidate that is not passed over, by its answers; one that is has no other ending. */
  lemma DecidesMeans(k: Answers, i: nat)
    ensures Accepted(k, i) || (GivenUp(k, i, 8) && k.shell(i) == 0) || (exists e :: Reports(k, i, e)) ==> !Passed(k, i)
    ensures !Passed(k, i) ==> (Decides(k, i) == Became(i) <==> Accepted(k, i))
    ensures !Passed(k, i) ==> (Decides(k, i) == Shell(i) <==> GivenUp(k, i, 8) && k.shell(i) == 0)
    ensures !Passed(k, i) ==>
              forall stage, e :: Decides(k, i) == Reported(stage, e) <==> stage == 6 && Reports(k, i, e)
    ensures Decides(k, i).Became? || Decides(k, i).Shell? ==> Decides(k, i).candidate == i
  {
    TryMeans(k, i, 0);
    hide GivenUp, WaitFailed, Accepted, Try;
  }

  /** No candidate but the first that is not passed over can decide. */
  lemma OneDecides(k: Answers, n: nat, i: nat, d: nat)
    requires Decider(k, n, d) && i < n && AllPassed(k, i) && !Passed(k, i)
    ensures i == d
  {
    hide Passed;
  }

  /** Candidates all passed over end in a report of what they were passed over for. */
  lemma AllMissed(k: Answers, n: nat, end: Ending)
    requires SearchEnds(k, n, end) && AllPassed(k, n)
    ensures forall stage, e :: end == Reported(stage, e) <==> stage == 6 && Missed(k, n, e)
    ensures end.Reported?
  {
    forall i: nat
      ensures Denied(k, i) <==> GivenUp(k, i, 13)
    {
      PassedMeans(k, i);
    }
    if n > 0 {
      TryMeans(k, n - 1, 0);
      assert Passed(k, n - 1);
    }
    hide GivenUp, Denied, Try;
  }

  /** How a search ends, for every answer there may be. A program runs exactly if the kernel accepts it, the shell
      exactly if the kernel says that it is no program and the shell takes it, each only if every earlier candidate
      is passed over; and the report is that of the first candidate that is neither, or of all of them. */
  lemma SearchByTheAnswers(k: Answers, n: nat, end: Ending)
    requires SearchEnds(k, n, end)
    ensures forall i: nat :: end == Became(i) <==> i < n && PassedOver(k, i) && Accepted(k, i)
    ensures forall i: nat :: end == Shell(i) <==> i < n && PassedOver(k, i) && GivenUp(k, i, 8) && k.shell(i) == 0
    ensures forall stage, e :: end == Reported(stage, e) <==>
              && stage == 6
              && (|| (exists i: nat :: i < n && PassedOver(k, i) && Reports(k, i, e))
                  || (PassedOver(k, n) && Missed(k, n, e)))
  {
    hide Passed, Try, GivenUp, WaitFailed, Accepted, PassedOver, Missed, Reports, Decides;
    forall i: nat
      ensures AllPassed(k, i) <==> PassedOver(k, i)
    {
      AllPassedMeans(k, i);
    }
    forall i: nat
      ensures Accepted(k, i) || (GivenUp(k, i, 8) && k.shell(i) == 0) || (exists e :: Reports(k, i, e)) ==>
                !Passed(k, i)
    {
      DecidesMeans(k, i);
    }
    if AllPassed(k, n) {
      AllMissed(k, n, end);
    } else {
      var d: nat :| Decider(k, n, d) && end == Decides(k, d);
      DecidesMeans(k, d);
      forall i: nat | i < n && AllPassed(k, i) && !Passed(k, i)
        ensures i == d
      {
        OneDecides(k, n, i, d);
      }
    }
  }

  // ----- The child's stages by the answers alone -----

  /** The stages before the search, in order and with the numbers they are reported under: SIGPIPE is restored, the
      group set, the directory changed if one was asked for, the two output ends duplicated, five ends closed. The
      first that fails is all that is reported, and the search follows only if none did. */
  lemma StagesByTheAnswers(k: Answers, hasCwd: bool, n: nat, end: Ending)
    requires ChildEnds(k, hasCwd, n, end)
    ensures if k.sigpipe != 0 then end == Reported(8, k.sigpipe)
            else if k.setpgid != 0 then end == Reported(1, k.setpgid)
            else if hasCwd && k.chdir != 0 then end == Reported(2, k.chdir)
            else if k.dup2Stdout != 0 then end == Reported(3, k.dup2Stdout)
            else if k.dup2Stderr != 0 then end == Reported(4, k.dup2Stderr)
            else if k.close(0) != 0 then end == Reported(5, k.close(0))
            else if k.close(1) != 0 then end == Reported(5, k.close(1))
            else if k.close(2) != 0 then end == Reported(5, k.close(2))
            else if k.close(3) != 0 then end == Reported(5, k.close(3))
            else if k.close(4) != 0 then end == Reported(5, k.close(4))
            else SearchEnds(k, n, end)
  {
    hide SearchEnds;
    var s, shift := Setups(k, hasCwd), if hasCwd then 1 else 0;
    assert s[0] == (8, k.sigpipe) && s[1] == (1, k.setpgid) && (hasCwd ==> s[2] == (2, k.chdir));
    assert |s| == 9 + shift && s[2 + shift] == (3, k.dup2Stdout) && s[3 + shift] == (4, k.dup2Stderr);
    assert s[4 + shift] == (5, k.close(0)) && s[5 + shift] == (5, k.close(1)) && s[6 + shift] == (5, k.close(2));
    assert s[7 + shift] == (5, k.close(3)) && s[8 + shift] == (5, k.close(4));
    hide Setups;
    if i :| 0 <= i < |s| && s[i].1 != 0 && (forall j | 0 <= j < i :: s[j].1 == 0) && end == Reported(s[i].0, s[i].1) {
      assert i == 0 || i == 1 || i == 2 || i == 3 || i == 4 || i == 5 || i == 6 || i == 7 || i == 8 || i == 9;
    }
  }
}

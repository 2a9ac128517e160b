/** What single ABI calls promise, as relations between the states around them. */
module Outcomes {
  import opened Kernel
  import opened World
  import opened Errors
  import opened SetupProtocol
  import opened Answers
  import opened AbortAnswers

  const SSIZE_MAX := 0x7FFF_FFFF_FFFF_FFFF

  const DARWIN_GROUP_EPERM_RETRIES := 20

  /** The first active slot holding token `h`, at or after index `from`, or -1. */
  function LookupFrom(slots: seq<Slot>, h: nat, from: nat): (r: int)
    requires from <= |slots|
    ensures r == -1 || (from <= r < |slots| && slots[r].active && slots[r].handle == h)
    ensures r == -1 ==> forall i: nat | from <= i < |slots| :: !(slots[i].active && slots[i].handle == h)
    decreases |slots| - from
  {
    if from == |slots| then -1
    else if slots[from].active && slots[from].handle == h then from
    else LookupFrom(slots, h, from + 1)
  }

  function Lookup(slots: seq<Slot>, h: nat): (r: int)
    ensures r == -1 || (0 <= r < |slots| && slots[r].active && slots[r].handle == h && h != 0)
    ensures r == -1 && h != 0 ==> forall i: nat | i < |slots| :: !(slots[i].active && slots[i].handle == h)
  {
    if h == 0 then -1 else LookupFrom(slots, h, 0)
  }

  lemma LookupFromStable(slots: seq<Slot>, slots': seq<Slot>, h: nat, from: nat)
    requires |slots| == |slots'| && from <= |slots|
    requires forall j: nat | j < |slots| ::
               slots'[j].active == slots[j].active && slots'[j].handle == slots[j].handle
    ensures LookupFrom(slots', h, from) == LookupFrom(slots, h, from)
    decreases |slots| - from
  {
  }

  /** A step on slot i leaves every lookup alone. */
  lemma TouchedLookup(w: World, w': World, h: nat, i: nat)
    requires Touches(w, w', i) && i < |w.slots|
    requires w'.slots[i].active == w.slots[i].active && w'.slots[i].handle == w.slots[i].handle
    ensures Lookup(w'.slots, h) == Lookup(w.slots, h)
  {
    LookupFromStable(w.slots, w'.slots, h, 0);
  }

  /** What an abort of the child in slot i leaves behind. Either the slot is free, its leader reaped and its
      group recorded as swept, or it is kept with its channels closed. An unreaped leader is never reaped
      into a kept slot, so the next abort can still reach the group through it; a leader that was already
      reaped without a sweep is never freed. Success means a free slot and nothing to report. */
  ghost predicate AbortOutcome(w: World, w': World, i: nat, rc: int, err: Error)
    requires Shape(w) && i < |w.slots|
  {
    && w'.wire == w.wire && w'.published == w.published && w'.nextHandle == w.nextHandle
    && w'.saved == w.saved && w'.installed == w.installed && w'.prior == w.prior
    && w'.host == w.host && w'.disposition == w.disposition
    && |w'.slots| == |w.slots|
    && (forall j: nat | j < |w.slots| && j != i :: w'.slots[j] == w.slots[j])
    && (rc == 0 || rc == -1)
    && (if w'.slots[i] == FREE_SLOT then
          && !(w.slots[i].reaped && !w.slots[i].swept)
          && w'.freed == w.freed + {w.lineage[i]}
          && w'.runtime == (if AnyActive(w') then ChildActive else Open)
          && (rc == 0 <==> err.Silent())
        else
          && rc == -1
          && w'.runtime == w.runtime && w'.freed == w.freed
          && w'.slots[i].active && w'.slots[i].handle == w.slots[i].handle
          && w'.slots[i].leader == w.slots[i].leader
          && w'.slots[i].ChannelsClosed()
          && w'.slots[i].reaped == w.slots[i].reaped
          && (w.slots[i].reaped ==> !w.slots[i].swept && !w'.slots[i].swept && err.errno == EBUSY)
          && (!err.Silent() || err.errno != 0))
  }

  /** Closing the channels first does not change what an abort amounts to. */
  lemma AbortAfterClose(w: World, w1: World, w': World, i: nat, rc: int, err: Error)
    requires Shape(w) && Shape(w1) && i < |w.slots| && Touches(w, w1, i) && w1.wire == w.wire
    requires w1.slots[i] == w.slots[i].(stdoutFd := -1, stderrFd := -1, setupFd := -1)
    requires AbortOutcome(w1, w', i, rc, err)
    ensures AbortOutcome(w, w', i, rc, err)
  {
  }

  /** Whether the launch plan could be built; building it has no effect on the adapter. */
  datatype Plan = Built | Unbuildable(err: Error)

  /** A failed open leaves no trace: the slots, the latch, the tokens and the descriptors are as before. */
  ghost predicate Refused(w: World, w': World) {
    && w' == w.(lineage := w'.lineage, k := w'.k)
    && w'.k.fds == w.k.fds
  }

  lemma RefusedAtOnce(w: World)
    ensures Refused(w, w)
  {
  }

  /** What the children of all other slots have still to deliver is the same. */
  ghost predicate SameWires(w: World, w': World, i: int) {
    |w'.wire| == |w.wire| && forall j: nat | j < |w.wire| && j != i :: w'.wire[j] == w.wire[j]
  }

  /** A successful open fills the first free slot with a new live child and hands out the next token. */
  ghost predicate Opened(w: World, w': World, i: int, handle: nat, leader: int) {
    && 0 <= i < |w.slots| && !w.slots[i].active
    && (forall j: nat | j < i :: w.slots[j].active)
    && |w'.slots| == |w.slots|
    && (forall j: nat | j < |w.slots| && j != i :: w'.slots[j] == w.slots[j])
    && SameWires(w, w', i)
    && handle == w.nextHandle && w'.published == w.published + 1
    && w'.runtime == ChildActive
    && leader > 0 && !Mine(w.k, leader) && Mine(w'.k, leader)
    && (exists out, err, setup ::
          && w'.slots[i] == Slot(true, handle, leader, leader, out, err, setup, false, false, false)
          && w'.k.fds == w.k.fds + {out, err, setup}
          && {out, err, setup} !! w.k.fds)
  }

  /** The one open that is neither: its child could not be reaped, so the slot stays claimed, tokenless. */
  ghost predicate WedgedBy(w: World, w': World, i: int) {
    && 0 <= i < |w.slots| && !w.slots[i].active
    && |w'.slots| == |w.slots|
    && (forall j: nat | j < |w.slots| && j != i :: w'.slots[j] == w.slots[j])
    && Wedged(w', i) && Mine(w'.k, w'.slots[i].leader) && w'.wire == w.wire
    && w'.k.fds == w.k.fds && w'.published == w.published && w'.nextHandle == w.nextHandle
  }

  /** Stepping to the next token is counting modulo 2^64 - 1, skipping zero. */
  lemma NextToken(n: nat)
    ensures HandleOf(n + 1) == if HandleOf(n) + 1 == TOKENS + 1 then 1 else HandleOf(n) + 1
  {
  }

  function ActiveCount(slots: seq<Slot>): nat {
    if slots == [] then 0 else (if slots[0].active then 1 else 0) + ActiveCount(slots[1..])
  }

  lemma {:induction false} FreeingCounts(slots: seq<Slot>, i: nat)
    requires i < |slots| && slots[i].active
    ensures ActiveCount(slots[i := FREE_SLOT]) == ActiveCount(slots) - 1
  {
    if i == 0 {
      assert slots[i := FREE_SLOT][1..] == slots[1..];
    } else {
      assert slots[i := FREE_SLOT][1..] == slots[1..][i - 1 := FREE_SLOT];
      FreeingCounts(slots[1..], i - 1);
    }
  }

  /** What a close of the runtime leaves behind. Success means no child, every disposition the host's. Failure
      never installs anything, and either some restore is still owed, or a child is still held, or the last
      child went with a diagnostic that stopped the close short of any restore, or there was nothing to
      close. */
  ghost predicate CloseOutcome(w: World, w': World, rc: int, err: Error) {
    && (rc == 0 || rc == -1)
    && w'.host == w.host && w'.published == w.published
    && (rc == 0 ==> w.runtime in {Open, ChildActive, RestoreRequired})
    && (forall s | w'.installed.Get(s) :: w.installed.Get(s))
    && (if rc == 0 then
          && w'.runtime == Closed && !AnyActive(w') && w'.disposition == w'.host
        else
          && (err.errno != 0 || !err.Silent())
          && match w'.runtime
             case Closed => w' == w && err.errno == EINVAL
             case RestoreRequired => !AnyActive(w') && w.runtime != Closed
             case Open =>
               !err.Silent() && !AnyActive(w') && w.runtime == ChildActive && w'.installed == w.installed
             case ChildActive => AnyActive(w') && w.runtime == ChildActive && w'.installed == w.installed
             case Opening => false)
  }

  /** Why a close stops with children left: none of them has a token, one went with a diagnostic, or the last abort
      kept its child. */
  ghost predicate Remains(w: World, log: seq<Reply>, from: nat, err: Error) {
    || ((forall i: nat :: !Published(w, i)) && err == NO_ERROR.Primary(OP_NONE, EBUSY, 1, 0))
    || Trouble(log, from)
    || exists i: nat :: Kept(w, i, log)
  }

  /** The child in slot i outlived an abort: it had been reaped before its sweep, or the abort's last answer is not
      that it was reaped. */
  ghost predicate Kept(w: World, i: nat, log: seq<Reply>) {
    && Published(w, i) && w.slots[i].ChannelsClosed()
    && if w.slots[i].reaped then !w.slots[i].swept else |log| > 0 && !Reaps(log[|log| - 1], w.slots[i].leader)
  }

  /** What a close of the runtime owes to the answers it got. The children are gone and all aborts silent exactly if
      none is left and there was no trouble. Only then is anything restored, and the close succeeds exactly if
      nothing was refused. It ends OPEN exactly if no child is left but there was trouble. */
  ghost predicate CloseAnswered(w: World, w': World, before: seq<Reply>, after: seq<Reply>, rc: int, err: Error) {
    && before <= after
    && if w.runtime == Closed then after == before && rc == -1
       else
         var drained := !AnyActive(w') && !Trouble(after, |before|);
         var refusal := FirstRefusal(after, |before|);
         && (rc == 0 <==> drained && refusal == UNREFUSED)
         && (w'.runtime == Open <==> !AnyActive(w') && Trouble(after, |before|))
         && (w'.runtime == ChildActive <==> AnyActive(w'))
         && (w'.runtime == RestoreRequired <==> drained && refusal != UNREFUSED)
         && (drained && refusal != UNREFUSED ==> RestoreFailed(err, refusal))
         && (AnyActive(w') ==> Remains(w', after, |before|, err))
  }

  /** The refusal of a restore, as a close reports it. */
  predicate RestoreFailed(err: Error, r: Refusal) {
    r.errno != 0 && err.errno == r.errno && err.operation == r.undoing
  }

  /** The restoring half of a close by its answers alone. */
  lemma RestoredByTheAnswers(w: World, w': World, before: seq<Reply>, after: seq<Reply>, rc: int, err: Error)
    requires CloseAnswered(w, w', before, after, rc, err) && w.runtime != Closed
    ensures w'.runtime == RestoreRequired ==>
              exists i: nat :: FirstSpurned(after, |before|, i) && after[i].errno == err.errno
                               && err.operation == UndoingNumber(after[i])
    ensures w'.runtime in {Opening, Closed} ==> forall i: nat | |before| <= i < |after| :: !Spurned(after[i])
    ensures rc == 0 ==> forall i: nat | |before| <= i < |after| :: !Spurned(after[i])
  {
    hide Trouble, AnyActive, Remains, FirstRefusal, NextRefusal;
    var i := RefusalAt(after, |before|);
    assert i < |after| ==> FirstRefusal(after, |before|) != UNREFUSED;
  }

  /** What one abort of a close does to it. */
  lemma AbortInClose(w: World, w': World, i: nat, rc: int, err: Error, h0: seq<Reply>, h: seq<Reply>)
    requires Valid(w) && Valid(w') && w.runtime == ChildActive && Published(w, i)
    requires AbortOutcome(w, w', i, rc, err)
    requires AbortAnswered(h0, h, w.slots[i], 0, w'.slots[i] == FREE_SLOT, rc, err)
    ensures h0 <= h && FirstRefusal(h, |h0|) == UNREFUSED
    ensures rc == 0 ==> w'.slots[i] == FREE_SLOT && !Trouble(h, |h0|)
    ensures rc != 0 ==> CloseOutcome(w, w', -1, err) && w'.runtime in {Open, ChildActive}
    ensures rc != 0 && AnyActive(w') ==> Remains(w', h, |h0|, err)
    ensures rc != 0 && !AnyActive(w') ==> Trouble(h, |h0|)
  {
    AbortLog(h0, h, w.slots[i], 0, w'.slots[i] == FREE_SLOT, rc, err);
    hide Inv, Evolves, AbortAnswered, Trouble, Reaps;
    if rc != 0 && AnyActive(w') && w'.slots[i] != FREE_SLOT {
      assert w'.slots[i].leader == w.slots[i].leader;
      assert Kept(w', i, h);
    }
  }

  lemma NoneHasAToken(w: World, log: seq<Reply>, err: Error)
    requires Valid(w) && w.runtime == ChildActive && forall i: nat :: !Published(w, i)
    requires err == NO_ERROR.Primary(OP_NONE, EBUSY, 1, 0)
    ensures AnyActive(w) && Remains(w, log, |log|, err) && CloseOutcome(w, w, -1, err)
    ensures FirstRefusal(log, |log|) == UNREFUSED
  {
  }

  lemma RemainsToo(w: World, h0: seq<Reply>, h1: seq<Reply>, h: seq<Reply>, err: Error)
    requires h0 <= h1 <= h && Remains(w, h, |h1|, err)
    ensures Remains(w, h, |h0|, err)
  {
    TroubleOn(h0, h1, h);
  }

  /** There was nothing to close. */
  lemma ClosedAlready(w: World, log: seq<Reply>)
    requires Valid(w) && w.runtime !in {Open, ChildActive, RestoreRequired}
    ensures var err := NO_ERROR.Primary(OP_NONE, EINVAL, 0, 0);
            w.runtime == Closed && CloseOutcome(w, w, -1, err) && CloseAnswered(w, w, log, log, -1, err)
  {
  }

  /** The drain stopped before anything was restored. */
  lemma StoppedClose(w: World, w': World, h0: seq<Reply>, h: seq<Reply>, err: Error)
    requires Valid(w') && w.runtime == ChildActive && h0 <= h && w'.runtime in {Open, ChildActive}
    requires AnyActive(w') ==> Remains(w', h, |h0|, err)
    requires !AnyActive(w') ==> Trouble(h, |h0|)
    ensures CloseAnswered(w, w', h0, h, -1, err)
  {
    hide Inv, Trouble, Remains;
  }

  /** What the second half of a close amounts to for the whole. */
  lemma CloseAfterDrain(w: World, w1: World, w': World, rc: int, err: Error, h0: seq<Reply>, h1: seq<Reply>,
                        h: seq<Reply>, r: Refusal)
    requires if w.runtime == ChildActive then
               && w1.runtime == Open && w1.installed == w.installed && w1.host == w.host
               && w1.published == w.published
             else w1 == w
    requires w1.runtime in {Open, RestoreRequired} && CloseOutcome(w1, w', rc, err)
    requires !AnyActive(w') && w'.runtime == if rc == 0 then Closed else RestoreRequired
    requires h0 <= h1 && !Trouble(h1, |h0|) && FirstRefusal(h1, |h0|) == UNREFUSED
    requires Restored(h1, h, r) && if rc == 0 then r == UNREFUSED else RestoreFailed(err, r)
    ensures CloseOutcome(w, w', rc, err) && CloseAnswered(w, w', h0, h, rc, err)
  {
    RestoredQuietly(h1, h, r);
    TroubleOn(h0, h1, h);
    RefusalOn(h0, h1, h);
  }
}

/** The exec adapter: one object whose methods are the ABI calls and whose `System...` methods are the
    system calls they make. A system call's contract leaves its answer open, and callers rely on nothing but
    the contract; its body is merely one kernel that honours it. Calls run one at a time. EINTR retry loops
    are part of the system call they wrap. */
module Adapter {
  import opened Kernel
  import opened World
  import opened Steps
  import opened Errors
  import opened SetupProtocol
  import opened Answers
  import opened AbortAnswers
  import opened OpenAnswers
  import opened Outcomes
  import opened OpenStages

  /** The successor of a 64-bit token: it wraps to zero, which is skipped. */
  method TokenAfter(token: nat, ghost n: nat) returns (next: nat)
    requires token == HandleOf(n)
    ensures next == HandleOf(n + 1)
  {
    NextToken(n);
    next := (token + 1) % 0x1_0000_0000_0000_0000;
    if next == 0 { next := 1; }
  }

  function Diagnosed(operation: nat, errno: int, undo: nat, undoErrno: int): Error {
    var err := NO_ERROR.Primary(operation, errno, 0, 0);
    if undoErrno != 0 then err.Cleanup(undo, undoErrno) else err
  }

  class Adapter {
    const darwin: bool
    var runtime: RuntimeState
    const slots: array<Slot>
    var nextHandle: nat
    var saved: PerSignal<bool>
    var installed: PerSignal<bool>
    var prior: PerSignal<Disposition>

    // The surroundings.
    var disposition: PerSignal<Disposition>
    var clock: int
    var wire: seq<seq<byte>>
    ghost var host: PerSignal<Disposition>
    ghost var k: Kernel

    // What was signalled, read, waited for and read off the clock, in order.
    ghost var heard: seq<Reply>

    // Bookkeeping.
    ghost var lineage: seq<nat>
    ghost var serial: seq<nat>
    ghost var published: nat
    ghost var loose: set<int>
    ghost var holder: map<int, (nat, Channel)>
    ghost var keeper: map<int, nat>
    ghost var freed: set<nat>

    ghost function View(): World
      reads this, slots
    {
      World(runtime, slots[..], lineage, serial, wire, nextHandle, published, saved, installed, prior, host,
            disposition, loose, holder, keeper, freed, k)
    }

    /** Program start: every static variable zero but the next token, no child and no descriptor of ours, and
        whatever dispositions the host came with. */
    constructor (capacity: nat, onDarwin: bool, hosts: PerSignal<Disposition>, ghost kernel: Kernel)
      requires GroupsBelow(kernel) && kernel.fds == {} && kernel.strayCloses == 0 && kernel.straySignals == 0
      requires forall p :: !Mine(kernel, p)
      requires forall s: Signal :: hosts.Get(s) != Handler
      ensures Valid(View()) && runtime == Closed && slots.Length == capacity && fresh(slots)
      ensures host == hosts && published == 0 && freed == {}
    {
      darwin := onDarwin;
      runtime := Closed;
      slots := new Slot[capacity](_ => FREE_SLOT);
      nextHandle := 1;
      saved := PerSignal(false, false, false, false);
      installed := PerSignal(false, false, false, false);
      prior := hosts;
      disposition := hosts;
      clock := 0;
      wire := seq(capacity, _ => []);
      host := hosts;
      k := kernel;
      lineage := seq(capacity, _ => 0);
      serial := seq(capacity, _ => 0);
      published := 0;
      loose := {};
      holder := map[];
      keeper := map[];
      freed := {};
      heard := [];
      new;
      ghost var w := View();
      assert forall i: nat :: !Active(w, i);
      assert forall s :: SignalInv(w, s);
      assert forall i: nat | i < |w.slots| :: SlotInv(w, i);
    }

    // ----- The surroundings between calls -----

    /** Time passes: members fork and exit, strangers come and go. */
    method Elapse()
      requires Valid(View())
      modifies this`k
      ensures Valid(View()) && Evolves(old(View()), View())
      ensures View() == old(View()).(k := k) && Interferes(old(k), k)
    {
      ghost var w := View();
      Interfere();
      InterferenceKeeps(w, k);
      assert View() == w.(k := k);
    }

    /** The host changes its own mind about a signal, which it does only while the runtime is closed. */
    method HostSets(s: Signal, d: Disposition)
      requires Valid(View()) && runtime == Closed && d != Handler
      modifies this`host, this`disposition
      ensures Valid(View()) && Evolves(old(View()), View())
      ensures View() == old(View()).(host := old(host).Set(s, d), disposition := old(disposition).Set(s, d))
    {
      ghost var w := View();
      host := host.Set(s, d);
      disposition := disposition.Set(s, d);
      HostKeeps(w, s, d);
      assert View() == w.(host := w.host.Set(s, d), disposition := w.disposition.Set(s, d));
    }

    // ----- System calls -----

    /** Anything may happen around the adapter. */
    method Interfere()
      modifies this`k
      ensures Interferes(old(k), k)
    {
      ghost var k0 := k;
      assert Interferes(k0, k0);
      ghost var k1 :| Interferes(k0, k1);
      k := k1;
    }

    method Errno() returns (errno: int)
      ensures errno > 0
    {
      errno := *;
      if errno <= 0 { errno := EIO; }
    }

    /** close consumes the descriptor whatever it reports. */
    method SystemClose(fd: int) returns (errno: int)
      modifies this`heard, this`k
      ensures errno >= 0
      ensures heard == old(heard) + [HasClosed(fd, errno)]
      ensures Interferes(CloseEffect(old(k), fd), k)
    {
      k := CloseEffect(k, fd);
      Interfere();
      errno := *;
      if errno < 0 { errno := 0; }
      heard := heard + [HasClosed(fd, errno)];
    }

    /** kill on the group led by `leader`. A delivered SIGKILL leaves no member able to run, and ESRCH
        says there is none. */
    method SystemKillGroup(leader: int, action: GroupAction) returns (errno: int)
      modifies this`heard, this`k
      ensures errno >= 0
      ensures heard == old(heard) + [Signalled(ToGroup(leader, action), errno)]
      ensures Interferes(SignalEffect(old(k), ToGroup(leader, action)), k)
      ensures (errno == 0 && action == Kill) || errno == ESRCH ==>
                Mine(old(k), leader) ==> Dead(k, old(k).procs[leader].group)
    {
      errno := *;
      if errno < 0 { errno := 0; }
      ghost var before := k;
      k := SignalEffect(k, ToGroup(leader, action));
      heard := heard + [Signalled(ToGroup(leader, action), errno)];
      if (errno == 0 && action == Kill) || errno == ESRCH {
        ghost var g := if Mine(k, leader) then k.procs[leader].group else 0;
        k := k.(procs := map p | p in k.procs ::
                  if k.procs[p].group == g then k.procs[p].(live := false) else k.procs[p]);
        ghost var hit := k;
        assert Interferes(SignalEffect(before, ToGroup(leader, action)), hit);
        if Mine(before, leader) {
          assert Dead(hit, before.procs[leader].group);
        }
      }
    }

    method SystemKill(pid: int) returns (errno: int)
      modifies this`heard, this`k
      ensures errno >= 0
      ensures heard == old(heard) + [Signalled(ToLeader(pid), errno)]
      ensures Interferes(SignalEffect(old(k), ToLeader(pid)), k)
    {
      k := SignalEffect(k, ToLeader(pid));
      Interfere();
      errno := *;
      if errno < 0 { errno := 0; }
      heard := heard + [Signalled(ToLeader(pid), errno)];
    }

    /** waitid with WNOWAIT: a waitable child is a zombie, and stays in the table. */
    method SystemWaitid(pid: int, block: bool) returns (errno: int, waitable: bool)
      modifies this`heard, this`k
      ensures errno >= 0
      ensures Interferes(old(k), k)
      ensures errno == 0 && block ==> waitable
      ensures errno == 0 && waitable && Mine(old(k), pid) ==> !k.procs[pid].live
      ensures heard == old(heard) + [Waited(pid, errno, waitable)]
    {
      errno := *;
      if errno < 0 { errno := 0; }
      waitable := *;
      if block { waitable := true; }
      if errno == 0 && waitable && Mine(k, pid) {
        k := k.(procs := k.procs[pid := k.procs[pid].(live := false)]);
      }
      heard := heard + [Waited(pid, errno, waitable)];
    }

    /** waitpid on one child. Only the adapter reaps, so ECHILD is never the answer for its own child. */
    method SystemWaitpid(pid: int) returns (errno: int, status: int)
      modifies this`heard, this`k
      ensures errno >= 0
      ensures errno == 0 ==> Interferes(ReapEffect(old(k), pid), k)
      ensures errno != 0 ==> Interferes(old(k), k)
      ensures errno == ECHILD ==> !Mine(old(k), pid)
      ensures heard == old(heard) + [Collected(pid, errno, status)]
    {
      errno := *;
      if errno < 0 || errno == ECHILD { errno := 0; }
      status := *;
      if errno == 0 { k := ReapEffect(k, pid); }
      Interfere();
      heard := heard + [Collected(pid, errno, status)];
    }

    method ClockRead() returns (ok: bool, ms: int)
      modifies this`heard, this`clock
      ensures clock >= old(clock)
      ensures heard == old(heard) + [ClockSaid(ok, ms)]
      ensures ok ==> ms == clock
    {
      ok := *;
      var later: int := *;
      if later < 0 { later := 0; }
      clock := clock + later;
      ms := clock;
      heard := heard + [ClockSaid(ok, ms)];
    }

    /** The wait between two looks at the leader takes at least a millisecond. */
    method Sleep()
      modifies this`clock, this`k
      ensures clock > old(clock)
      ensures Interferes(old(k), k)
    {
      var later: int := *;
      if later < 0 { later := 0; }
      clock := clock + 1 + later;
      Interfere();
    }

    // ----- Table -----

    method FromHandle(handle: nat) returns (i: int)
      ensures i == Lookup(slots[..], handle)
    {
      if handle == 0 { return -1; }
      var index := 0;
      while index < slots.Length
        invariant 0 <= index <= slots.Length
        invariant LookupFrom(slots[..], handle, 0) == LookupFrom(slots[..], handle, index)
      {
        if slots[index].active && slots[index].handle == handle { return index; }
        index := index + 1;
      }
      return -1;
    }

    method AnySlotActive() returns (any: bool)
      ensures any <==> AnyActive(View())
    {
      var index := 0;
      while index < slots.Length
        invariant 0 <= index <= slots.Length
        invariant forall j: nat | j < index :: !slots[j].active
      {
        if slots[index].active {
          assert Active(View(), index);
          return true;
        }
        index := index + 1;
      }
      return false;
    }

    /** OPEN only when no slot remains live. */
    method RuntimeSettle()
      requires Inv(View()) && runtime in {Open, ChildActive}
      modifies this`runtime
      ensures Inv(View())
      ensures View() == old(View()).(runtime := runtime)
      ensures runtime == if AnyActive(View()) then ChildActive else Open
    {
      ghost var w := View();
      var any := AnySlotActive();
      if any {
        runtime := ChildActive;
      } else {
        runtime := Open;
      }
      LatchKeeps(w, runtime);
      assert View() == w.(runtime := runtime);
    }

    // ----- Steps on one slot -----

    /** Clears the field before entering close, so that no path can retry the number. */
    method CloseOwned(ghost w: World, i: nat, c: Channel) returns (errno: int)
      requires w == View() && Inv(w) && Active(w, i) && w.slots[i].Fd(c) >= 0
      modifies this`heard, this`k, this`holder, slots
      ensures errno >= 0
      ensures heard == old(heard) + [HasClosed(w.slots[i].Fd(c), errno)]
      ensures k.sent == w.k.sent
      ensures Inv(View()) && Touches(w, View(), i)
      ensures slots[i] == w.slots[i].WithFd(c, -1) && wire == old(wire)
    {
      hide Inv, Settled, Evolves, Interferes;
      var closing := slots[i].Fd(c);
      slots[i] := slots[i].WithFd(c, -1);
      holder := holder - {closing};
      errno := SystemClose(closing);
      InterferesSent(CloseEffect(w.k, closing), k);
      CloseChannelKeeps(w, i, c);
      ghost var mid := ChannelClosed(w, i, c);
      InterferenceKeeps(mid, k);
      assert View() == mid.(k := k);
    }

    method CloseQuietly(ghost w: World, i: nat, c: Channel)
      requires w == View() && Inv(w) && Active(w, i)
      modifies this`heard, this`k, this`holder, slots
      ensures Inv(View()) && Touches(w, View(), i)
      ensures Closes(old(heard), heard, if w.slots[i].Fd(c) >= 0 then [w.slots[i].Fd(c)] else [])
      ensures k.sent == w.k.sent
      ensures slots[i] == w.slots[i].WithFd(c, -1) && wire == old(wire)
    {
      assert w.slots[i].Fd(c) >= -1;
      if slots[i].Fd(c) >= 0 {
        var _ := CloseOwned(w, i, c);
      }
    }

    /** A close whose failure is the caller's failure. */
    method CloseReporting(ghost w: World, i: nat, c: Channel) returns (rc: int, err: Error)
      requires w == View() && Inv(w) && Active(w, i) && w.slots[i].Fd(c) >= 0
      modifies this`heard, this`k, this`holder, slots
      ensures ClosedAfter(old(heard), heard, w.slots[i].Fd(c), rc, err) && (rc != 0 ==> err.errno > 0)
      ensures k.sent == w.k.sent
      ensures Inv(View()) && Touches(w, View(), i)
      ensures slots[i] == w.slots[i].WithFd(c, -1) && wire == old(wire)
    {
      hide Inv, Touches;
      rc, err := 0, NO_ERROR;
      var closing := slots[i].Fd(c);
      var errno := CloseOwned(w, i, c);
      if errno != 0 {
        err := err.Primary(OP_CLOSE_CHANNEL, errno, 0, closing);
        rc := -1;
      }
    }

    /** The complete member snapshot Darwin offers: true only if every member is a zombie. */
    method SystemZombieOnly(leader: int) returns (proven: bool)
      modifies this`heard, this`k
      ensures heard == old(heard) + [Snapshot(leader, proven)]
      ensures Interferes(old(k), k)
      ensures proven && Mine(old(k), leader) ==> Dead(k, old(k).procs[leader].group)
    {
      ghost var k0 := k;
      assert Interferes(k0, k0);
      proven := *;
      if proven && Mine(k, leader) {
        ghost var g := k.procs[leader].group;
        k := k.(procs := map p | p in k.procs ::
                  if k.procs[p].group == g then k.procs[p].(live := false) else k.procs[p]);
        ghost var k1 := k;
        assert Dead(k1, g);
      }
      heard := heard + [Snapshot(leader, proven)];
    }

    method MarkSwept(ghost w: World, i: nat)
      requires w == View() && Inv(w) && Published(w, i) && Dead(w.k, w.lineage[i])
      modifies slots
      ensures View() == w.(slots := w.slots[i := w.slots[i].(swept := true)])
      ensures Inv(View())
    {
      slots[i] := slots[i].(swept := true);
      SweptKeeps(w, i);
      assert View() == w.(slots := w.slots[i := w.slots[i].(swept := true)]);
    }

    /** One attempt at the group of an unreaped leader, whose number therefore still names it. */
    method KillGroupOnce(ghost w: World, i: nat, action: GroupAction) returns (errno: int)
      requires w == View() && Inv(w) && Published(w, i) && !w.slots[i].reaped
      modifies this`heard, this`k
      ensures errno >= 0
      ensures View() == w.(k := k) && Inv(View())
      ensures k.sent == w.k.sent + [ToGroup(w.slots[i].group, action)]
      ensures heard == old(heard) + [Signalled(ToGroup(w.slots[i].group, action), errno)]
      ensures (errno == 0 && action == Kill) || errno == ESRCH ==> Dead(k, lineage[i])
    {
      assert SlotInv(w, i);
      ghost var s := ToGroup(w.slots[i].group, action);
      errno := SystemKillGroup(slots[i].group, action);
      SignalKeeps(w, s);
      InterferenceKeeps(w.(k := SignalEffect(w.k, s)), k);
      assert View() == w.(k := k);
    }

    method ZombieOnlyOnce(ghost w: World, i: nat) returns (proven: bool)
      requires w == View() && Inv(w) && Published(w, i) && !w.slots[i].reaped
      modifies this`heard, this`k
      ensures View() == w.(k := k) && Inv(View()) && k.sent == w.k.sent
      ensures heard == old(heard) + [Snapshot(w.slots[i].group, proven)]
      ensures proven ==> Dead(k, lineage[i])
    {
      assert SlotInv(w, i);
      proven := SystemZombieOnly(slots[i].group);
      InterferenceKeeps(w, k);
      assert View() == w.(k := k);
    }

    method SleepOnce(ghost w: World)
      requires w == View() && Inv(w)
      modifies this`k, this`clock
      ensures View() == w.(k := View().k) && Inv(View()) && View().k.sent == w.k.sent && k == View().k
      ensures Settled(w) ==> Settled(View())
      ensures clock > old(clock)
    {
      Sleep();
      InterferenceKeeps(w, k);
      assert View() == w.(k := k);
    }

    /** The signalling loop. Only Darwin's transient EPERM is retried, and only so often. */
    method KillGroup(ghost w: World, i: nat, action: GroupAction) returns (errno: int, zombies: bool)
      requires w == View() && Inv(w) && Published(w, i) && !w.slots[i].reaped
      modifies this`heard, this`k, this`clock
      ensures errno >= 0 && (zombies ==> darwin && errno == EPERM && action != Probe)
      ensures View() == w.(k := k) && Inv(View())
      ensures Tried(old(heard), heard, ToGroup(w.slots[i].group, action)) && (!darwin ==> |heard| == |old(heard)| + 1)
      ensures errno == TryErrno(heard[|heard| - 1])
      ensures Accepted(heard[|heard| - 1]) <==> errno == 0 || errno == ESRCH || zombies
      ensures OnlySent(w.k, k, ToGroup(w.slots[i].group, action)) && (!darwin ==> |k.sent| == |w.k.sent| + 1)
      ensures (errno == 0 && action == Kill) || errno == ESRCH || zombies ==> Dead(k, lineage[i])
    {
      hide Inv, Dead, OnlySent, Tried, InVain;
      ghost var s := ToGroup(w.slots[i].group, action);
      var retries := 0;
      zombies := false;
      NothingTried(heard, s);
      while true
        invariant View() == w.(k := k) && Inv(View())
        invariant 0 <= retries <= DARWIN_GROUP_EPERM_RETRIES && !zombies
        invariant if retries == 0 then k.sent == w.k.sent
                  else darwin && OnlySent(w.k, k, s)
        invariant InVain(old(heard), heard, s) && (retries == 0 ==> heard == old(heard))
        decreases DARWIN_GROUP_EPERM_RETRIES - retries
      {
        ghost var k1, h1 := k, heard;
        errno := KillGroupOnce(View(), i, action);
        SentOnce(w.k, k1, k, s);
        TriedOnce(old(heard), h1, heard, s, heard[|heard| - 1]);
        if errno == 0 || errno == ESRCH || !darwin || errno != EPERM || action == Probe { return; }
        ghost var k2, h2 := k, heard;
        zombies := ZombieOnlyOnce(View(), i);
        SentLately(w.k, k2, k, s);
        TriedOnce(old(heard), h2, heard, s, heard[|heard| - 1]);
        if zombies || retries == DARWIN_GROUP_EPERM_RETRIES { return; }
        retries := retries + 1;
        ghost var k3 := k;
        SleepOnce(View());
        SentLately(w.k, k3, k, s);
      }
    }

    /** Signals the owned group of an unreaped leader. */
    method GroupChecked(ghost w: World, i: nat, action: GroupAction)
      returns (rc: int, state: GroupState, err: Error)
      requires w == View() && Inv(w) && Published(w, i) && !w.slots[i].reaped && w.slots[i].group == w.slots[i].leader
      modifies this`heard, this`k, this`clock, slots
      ensures Inv(View()) && Touches(w, View(), i) && wire == w.wire
      ensures Tried(old(heard), heard, ToGroup(w.slots[i].leader, action)) && (!darwin ==> |heard| == |old(heard)| + 1)
      ensures GroupAnswered(heard[|heard| - 1], action, w.slots[i], View().slots[i], rc, state, err)
      ensures OnlySent(w.k, k, ToGroup(w.slots[i].leader, action)) && (!darwin ==> |k.sent| == |w.k.sent| + 1)
    {
      hide Inv, Dead, Tried;
      err := NO_ERROR;
      state := Unset;
      var errno, zombies := KillGroup(w, i, action);
      if errno != 0 && errno != ESRCH && !zombies {
        err := err.Primary(GroupOperation(action), errno, 0, -slots[i].group);
        return -1, Unset, err;
      }
      if errno != 0 || action == Kill {
        MarkSwept(View(), i);
      }
      return 0, if errno == ESRCH then Gone else Present, err;
    }

    /** Clears the record, releases the slot and settles the latch. */
    method FreeProcess(ghost w: World, i: nat)
      requires w == View() && Valid(w) && Published(w, i)
      requires w.slots[i].reaped && w.slots[i].swept && w.slots[i].ChannelsClosed()
      modifies this`runtime, this`freed, slots
      ensures Valid(View()) && Evolves(w, View())
      ensures View() == w.(runtime := runtime, slots := w.slots[i := FREE_SLOT], freed := w.freed + {w.lineage[i]})
      ensures View().runtime == if AnyActive(View()) then ChildActive else Open
    {
      hide Inv, Evolves;
      assert |w.lineage| == |w.slots| by { Untouched(w); }
      slots[i] := FREE_SLOT;
      freed := freed + {lineage[i]};
      FreeKeeps(w, i);
      ghost var w1 := w.(slots := w.slots[i := FREE_SLOT], freed := w.freed + {w.lineage[i]});
      assert View() == w1;
      assert AnyActive(w);
      RuntimeSettle();
      ghost var w2 := View();
      LatchKeeps(w1, runtime);
      EvolvesTransitive(w, w1, w2);
      assert forall j: nat :: Active(w2, j) <==> Active(w, j) && j != i;
    }

    // ----- ABI calls on one process -----

    /** Folds what a step on slot i has kept into what the caller is promised. */
    lemma Concludes(w: World, i: nat)
      requires Valid(w) && Inv(View()) && Touches(w, View(), i) && Published(w, i)
      requires Advances(w.slots[i], slots[i])
      requires Stuck(w, i) ==> !slots[i].swept
      ensures Valid(View()) && Evolves(w, View())
    {
      TouchesSettled(w, View(), i);
      TouchesEvolves(w, View(), i);
    }

    method ProcessGroup(handle: nat, action: GroupAction) returns (rc: int, state: GroupState, err: Error)
      requires Valid(View())
      modifies this`heard, this`k, this`clock, slots
      ensures Valid(View()) && Evolves(old(View()), View())
      ensures var i := Lookup(old(slots[..]), handle);
              if i < 0 || old(slots[i].reaped) then
                rc == -1 && View() == old(View()) && heard == old(heard) && err.errno == EINVAL
              else
                && Touches(old(View()), View(), i)
                && Tried(old(heard), heard, ToGroup(old(slots[i].leader), action))
                && (!darwin ==> |heard| == |old(heard)| + 1)
                && GroupAnswered(heard[|heard| - 1], action, old(View()).slots[i], View().slots[i], rc, state, err)
                && OnlySent(old(k), k, ToGroup(old(slots[i].leader), action))
                && (!darwin ==> |k.sent| == |old(k.sent)| + 1)
    {
      ghost var w := View();
      hide Inv, Evolves, Settled;
      Untouched(w);
      err := NO_ERROR;
      state := Unset;
      var i := FromHandle(handle);
      if i < 0 {
        err := err.Primary(GroupOperation(action), EINVAL, 0, 0);
        return -1, state, err;
      }
      PublishedChild(w, i);
      if slots[i].reaped {
        err := err.Primary(GroupOperation(action), EINVAL, 0, 0);
        return -1, state, err;
      }
      rc, state, err := GroupChecked(w, i, action);
      Concludes(w, i);
    }

    /** waitid on the unreaped leader of slot i, without reaping it. */
    method LookAtLeader(ghost w: World, i: nat, block: bool) returns (errno: int, waitable: bool)
      requires w == View() && Inv(w) && Published(w, i) && !w.slots[i].reaped && !w.slots[i].observed
      modifies this`heard, this`k, slots
      ensures errno >= 0 && (errno == 0 && block ==> waitable)
      ensures Inv(View()) && Touches(w, View(), i) && wire == w.wire && k.sent == w.k.sent
      ensures slots[i] == w.slots[i].(observed := errno == 0 && waitable)
      ensures heard == old(heard) + [Waited(w.slots[i].leader, errno, waitable)]
    {
      hide Inv, Settled, Evolves, Interferes;
      PublishedChild(w, i);
      errno, waitable := SystemWaitid(slots[i].leader, block);
      InterferesSent(w.k, k);
      InterferenceKeeps(w, k);
      ghost var w1 := w.(k := k);
      PublishedChild(w1, i);
      assert View() == w1;
      if errno == 0 && waitable {
        slots[i] := slots[i].(observed := true);
        ObservedKeeps(w1, i);
        assert View() == w1.(slots := w1.slots[i := w1.slots[i].(observed := true)]);
      }
    }

    method ProcessObserve(handle: nat) returns (rc: int, waitable: bool, err: Error)
      requires Valid(View())
      modifies this`heard, this`k, slots
      ensures Valid(View()) && Evolves(old(View()), View())
      ensures k.sent == old(k.sent)
      ensures var i := Lookup(old(slots[..]), handle);
              if i < 0 then
                && rc == -1 && View() == old(View()) && heard == old(heard)
                && err.operation == OP_WAITID && err.errno == EINVAL
              else if old(slots[i].observed) then rc == 0 && waitable && View() == old(View()) && heard == old(heard)
              else
                && Touches(old(View()), View(), i)
                && slots[i] == old(slots[i]).(observed := slots[i].observed)
                && (rc == 0 || rc == -1)
                && (rc == 0 ==>
                      && (waitable <==> slots[i].observed) && err == NO_ERROR
                      && heard == old(heard) + [Waited(old(slots[i].leader), 0, waitable)])
                && (rc == -1 ==>
                      && slots[i] == old(slots[i]) && err.operation == OP_WAITID && err.errno > 0
                      && exists ready :: heard == old(heard) + [Waited(old(slots[i].leader), err.errno, ready)])
    {
      ghost var w := View();
      hide Inv, Evolves, Settled;
      Untouched(w);
      err := NO_ERROR;
      waitable := false;
      var i := FromHandle(handle);
      if i < 0 {
        err := err.Primary(OP_WAITID, EINVAL, 0, 0);
        return -1, waitable, err;
      }
      PublishedChild(w, i);
      if slots[i].reaped || slots[i].observed {
        return 0, true, err;
      }
      var errno;
      errno, waitable := LookAtLeader(w, i, false);
      Concludes(w, i);
      if errno != 0 {
        err := err.Primary(OP_WAITID, errno, 0, slots[i].leader);
        return -1, false, err;
      }
      return 0, waitable, err;
    }

    /** Reaps the zombie leader of slot i. */
    method ReapLeader(ghost w: World, i: nat) returns (errno: int, status: int)
      requires w == View() && Inv(w) && Published(w, i) && w.slots[i].observed && !w.slots[i].reaped
      modifies this`heard, this`k, this`keeper, slots
      ensures errno >= 0
      ensures k.sent == w.k.sent
      ensures Inv(View()) && Touches(w, View(), i) && wire == w.wire
      ensures slots[i] == w.slots[i].(reaped := errno == 0)
      ensures heard == old(heard) + [Collected(w.slots[i].leader, errno, status)]
    {
      hide Inv, Settled, Evolves, Interferes;
      PublishedChild(w, i);
      var leader := slots[i].leader;
      errno, status := SystemWaitpid(leader);
      InterferesSent(if errno == 0 then ReapEffect(w.k, leader) else w.k, k);
      if errno != 0 {
        InterferenceKeeps(w, k);
        assert View() == w.(k := k);
        return;
      }
      slots[i] := slots[i].(reaped := true);
      keeper := keeper - {leader};
      ReapKeeps(w, i);
      ghost var w1 := Reaped(w, i);
      InterferenceKeeps(w1, k);
      assert View() == w1.(k := k);
    }

    method ProcessReap(handle: nat) returns (rc: int, status: int, err: Error)
      requires Valid(View())
      modifies this`heard, this`k, this`keeper, slots
      ensures Valid(View()) && Evolves(old(View()), View())
      ensures k.sent == old(k.sent)
      ensures var i := Lookup(old(slots[..]), handle);
              if i < 0 || !old(slots[i].observed) || old(slots[i].reaped) then
                && rc == -1 && View() == old(View()) && heard == old(heard)
                && err.operation == OP_WAITPID && err.errno == EINVAL
              else
                && Touches(old(View()), View(), i)
                && (rc == 0 || rc == -1)
                && slots[i] == old(slots[i]).(reaped := rc == 0)
                && (rc == 0 ==> heard == old(heard) + [Collected(old(slots[i].leader), 0, status)])
                && (rc == -1 ==>
                      && err.operation == OP_WAITPID && err.errno > 0
                      && exists raw :: heard == old(heard) + [Collected(old(slots[i].leader), err.errno, raw)])
    {
      ghost var w := View();
      hide Inv, Evolves, Settled;
      Untouched(w);
      err := NO_ERROR;
      status := 0;
      var i := FromHandle(handle);
      if i < 0 || !slots[i].observed || slots[i].reaped {
        err := err.Primary(OP_WAITPID, EINVAL, 0, 0);
        return -1, 0, err;
      }
      assert Published(w, i);
      var errno;
      errno, status := ReapLeader(w, i);
      Concludes(w, i);
      if errno != 0 {
        err := err.Primary(OP_WAITPID, errno, 0, slots[i].leader);
        return -1, 0, err;
      }
      return 0, status, err;
    }

    method ProcessChannelClose(handle: nat, c: Channel) returns (rc: int, err: Error)
      requires Valid(View())
      modifies this`heard, this`k, this`holder, slots
      ensures Valid(View()) && Evolves(old(View()), View())
      ensures k.sent == old(k.sent)
      ensures var i := Lookup(old(slots[..]), handle);
              if i < 0 then rc == -1 && View() == old(View()) && heard == old(heard) && err.errno == EINVAL
              else if old(slots[i].Fd(c)) < 0 then rc == 0 && View() == old(View()) && heard == old(heard)
              else
                && Touches(old(View()), View(), i)
                && slots[i] == old(slots[i]).WithFd(c, -1)
                && ClosedAfter(old(heard), heard, old(slots[i].Fd(c)), rc, err)
    {
      ghost var w := View();
      hide Inv, Settled, Evolves;
      Untouched(w);
      err := NO_ERROR;
      var i := FromHandle(handle);
      if i < 0 {
        err := err.Primary(OP_CLOSE_CHANNEL, EINVAL, 0, 0);
        return -1, err;
      }
      assert Published(w, i);
      if slots[i].Fd(c) < 0 { return 0, err; }
      rc, err := CloseReporting(w, i, c);
      Concludes(w, i);
    }

    method ProcessClose(handle: nat) returns (rc: int, err: Error)
      requires Valid(View())
      modifies this`runtime, this`freed, slots
      ensures Valid(View()) && Evolves(old(View()), View())
      ensures var i := Lookup(old(slots[..]), handle);
              if i < 0 then rc == -1 && View() == old(View()) && err.errno == EINVAL
              else if old(slots[i].reaped && slots[i].swept && slots[i].ChannelsClosed()) then
                && rc == 0
                && runtime == (if AnyActive(View()) then ChildActive else Open)
                && View() == old(View()).(runtime := runtime, slots := old(slots[..])[i := FREE_SLOT],
                                          freed := old(freed) + {old(lineage[i])})
              else rc == -1 && View() == old(View()) && err.errno == EBUSY
    {
      ghost var w := View();
      hide Inv, Evolves, Settled;
      Untouched(w);
      err := NO_ERROR;
      var i := FromHandle(handle);
      if i < 0 {
        err := err.Primary(OP_NONE, EINVAL, 0, 0);
        return -1, err;
      }
      assert Published(w, i);
      if !slots[i].reaped || !slots[i].swept || !slots[i].ChannelsClosed() {
        err := err.Primary(OP_NONE, EBUSY, 0, slots[i].leader);
        return -1, err;
      }
      FreeProcess(w, i);
      return 0, err;
    }

    method SystemRead(fd: int, capacity: nat) returns (answer: ReadAnswer)
      requires capacity > 0
      modifies this`heard, this`k
      ensures Interferes(old(k), k)
      ensures answer.Data? ==> 0 < answer.count <= capacity
      ensures answer.ReadError? ==> answer.errno > 0
      ensures heard == old(heard) + [HasRead(fd, answer)]
    {
      Interfere();
      answer := *;
      if (answer.Data? && !(0 < answer.count <= capacity)) || (answer.ReadError? && answer.errno <= 0) {
        answer := WouldBlock;
      }
      heard := heard + [HasRead(fd, answer)];
    }

    method ReadAt(ghost w: World, i: nat, c: Channel, capacity: nat) returns (rc: int, answer: ReadAnswer, err: Error)
      requires w == View() && Valid(w) && Published(w, i) && capacity > 0 && w.slots[i].Fd(c) >= 0
      modifies this`heard, this`k, this`holder, slots
      ensures Valid(View()) && Evolves(w, View()) && Touches(w, View(), i)
      ensures k.sent == w.k.sent
      ensures View().slots[i] == (if answer.EndOfFile? then w.slots[i].WithFd(c, -1) else w.slots[i])
      ensures ReadReported(old(heard), heard, c, w.slots[i].Fd(c), capacity, answer, rc, err)
    {
      hide Inv, Evolves, Settled, Interferes, Touches, ClosedAfter;
      TouchesSelf(w, i);
      rc, err := 0, NO_ERROR;
      ghost var h0 := heard;
      var fd := slots[i].Fd(c);
      answer := SystemRead(fd, capacity);
      InterferesSent(w.k, k);
      InterferenceKeeps(w, k);
      ghost var w1 := w.(k := k);
      assert View() == w1;
      TouchesByKernel(w, w, w1, i);
      if answer.EndOfFile? {
        rc, err := CloseReporting(w1, i, c);
        TouchesTransitive(w, w1, View(), i);
      } else if answer.ReadError? {
        err := err.Primary(ReadOperation(c), answer.errno, 0, fd);
        rc := -1;
      }
      Concludes(w, i);
    }

    method ProcessRead(handle: nat, c: Channel, capacity: nat) returns (rc: int, answer: ReadAnswer, err: Error)
      requires Valid(View())
      modifies this`heard, this`k, this`holder, slots
      ensures Valid(View()) && Evolves(old(View()), View())
      ensures k.sent == old(k.sent)
      ensures var i := Lookup(old(View()).slots, handle);
              if capacity == 0 || capacity > SSIZE_MAX || c == Setup || i < 0 then
                && rc == -1 && View() == old(View()) && heard == old(heard)
                && err.errno == EINVAL && err.operation == ReadOperation(c)
              else if old(View()).slots[i].Fd(c) < 0 then
                rc == 0 && answer == EndOfFile && View() == old(View()) && heard == old(heard)
              else
                && Touches(old(View()), View(), i)
                && ReadReported(old(heard), heard, c, old(View()).slots[i].Fd(c), capacity, answer, rc, err)
                && View().slots[i] == (if answer.EndOfFile? then old(View()).slots[i].WithFd(c, -1)
                                       else old(View()).slots[i])
    {
      ghost var w := View();
      hide Inv, Evolves, Settled, Touches;
      Untouched(w);
      rc, answer, err := -1, WouldBlock, NO_ERROR;
      var i := FromHandle(handle);
      if capacity == 0 || capacity > SSIZE_MAX || c == Setup || i < 0 {
        err := err.Primary(ReadOperation(c), EINVAL, 0, 0);
      } else if slots[i].Fd(c) < 0 {
        rc, answer := 0, EndOfFile;
      } else {
        assert Published(w, i);
        rc, answer, err := ReadAt(w, i, c, capacity);
      }
    }

    /** A read from the setup pipe of slot i: some prefix of what is still to come, the end once nothing is,
        or no news. */
    method SystemReadSetup(i: nat, capacity: nat) returns (answer: SetupAnswer)
      requires i < |wire| && capacity > 0
      modifies this`heard, this`k, this`wire
      ensures Interferes(old(k), k)
      ensures |wire| == |old(wire)| && forall j: nat | j < |wire| && j != i :: wire[j] == old(wire[j])
      ensures if answer.SetupData? then
                0 < |answer.bytes| <= capacity && old(wire[i]) == answer.bytes + wire[i]
              else
                wire[i] == old(wire[i])
      ensures answer.SetupEnd? ==> wire[i] == []
      ensures answer.SetupError? ==> answer.errno > 0
      ensures heard == old(heard) + [HasDrained(answer)]
    {
      Interfere();
      var pending := wire[i];
      var n: int := *;
      var errno := Errno();
      var fails: bool := *;
      if fails {
        answer := SetupError(errno);
      } else if 0 < n <= capacity && n <= |pending| {
        answer := SetupData(pending[..n]);
        wire := wire[i := pending[n..]];
      } else if pending == [] {
        answer := SetupEnd;
      } else {
        answer := SetupWouldBlock;
      }
      var stalls: bool := *;
      if stalls && answer.SetupEnd? { answer := SetupWouldBlock; }
      heard := heard + [HasDrained(answer)];
    }

    method ReadSetup(ghost w: World, i: nat, capacity: nat) returns (answer: SetupAnswer)
      requires w == View() && Inv(w) && Active(w, i) && capacity > 0
      modifies this`heard, this`k, this`wire
      ensures Inv(View()) && |wire| == |w.wire|
      ensures k.sent == w.k.sent
      ensures View() == Delivered(w, i, wire[i], k)
      ensures if answer.SetupData? then
                0 < |answer.bytes| <= capacity && w.wire[i] == answer.bytes + wire[i]
              else
                wire[i] == w.wire[i]
      ensures answer.SetupEnd? ==> wire[i] == []
      ensures answer.SetupError? ==> answer.errno > 0
      ensures heard == old(heard) + [HasDrained(answer)]
    {
      answer := SystemReadSetup(i, capacity);
      InterferenceKeeps(w, k);
      ghost var w1 := w.(k := k);
      WireKeeps(w1, wire);
      hide Inv;
      assert wire == w.wire[i := wire[i]];
      assert View() == w1.(wire := wire);
    }

    /** Reads until the pipe ends, stalls, fails or overflows the record. */
    method DrainBytes(ghost w: World, i: nat, given: SetupState) returns (stop: SetupAnswer, state: SetupState)
      requires w == View() && Inv(w) && Published(w, i)
      requires WellFormed(Line(given, w.wire[i], true)) && given.outcome == Waiting
      modifies this`heard, this`k, this`wire
      ensures Inv(View()) && |wire| == |w.wire|
      ensures k.sent == w.k.sent
      ensures View() == Delivered(w, i, wire[i], k)
      ensures WellFormed(Line(state, wire[i], true)) && state == given.(raw := state.raw, length := state.length)
      ensures if stop.SetupData? then
                |Sent(Line(given, w.wire[i], true))| > RECORD
              else
                Sent(Line(state, wire[i], true)) == Sent(Line(given, w.wire[i], true))
      ensures stop.SetupEnd? ==> wire[i] == []
      ensures stop.SetupError? ==> stop.errno > 0
      ensures HeardLast(old(heard), heard, stop)
    {
      state := given;
      stop := SetupWouldBlock;
      ghost var sent := Sent(Line(given, w.wire[i], true));
      hide Inv, Sent, Delivered;
      DeliveredOn(w, i, wire[i], k, wire[i], k);
      while true
        invariant Inv(View()) && |wire| == |w.wire| && View() == Delivered(w, i, wire[i], k)
        invariant k.sent == w.k.sent && old(heard) <= heard
        invariant WellFormed(Line(state, wire[i], true)) && Sent(Line(state, wire[i], true)) == sent
        invariant state == given.(raw := state.raw, length := state.length)
        decreases |wire[i]|
      {
        var room := if state.length < RECORD then RECORD - state.length else 1;
        ghost var rest, k1 := wire[i], k;
        stop := ReadSetup(View(), i, room);
        DeliveredOn(w, i, rest, k1, wire[i], k);
        if !stop.SetupData? || state.length == RECORD { return; }
        ghost var l := Line(state, stop.bytes + wire[i], true);
        var length := state.length + |stop.bytes|;
        state := state.(raw := state.raw[..state.length] + stop.bytes + state.raw[length..], length := length);
        ReceivedKeepsSent(l, stop.bytes, Line(state, wire[i], true));
      }
    }

    /** What the fields show is what the state as a value holds. */
    lemma Seen()
      ensures View().slots == slots[..] && View().wire == wire && View().k == k
    {
    }

    /** A drain of an open setup pipe. Only the end of the pipe closes it. */
    method DrainOpen(ghost w: World, i: nat, given: SetupState) returns (rc: int, state: SetupState, err: Error)
      requires w == View() && Inv(w) && Published(w, i) && w.slots[i].setupFd >= 0 && i < |w.wire|
      requires WellFormed(Line(given, w.wire[i], true)) && given.outcome == Waiting
      modifies this`heard, this`k, this`holder, this`wire, slots
      ensures Inv(View()) && Touches(w, View(), i) && |View().slots| == |w.slots| && |View().wire| == |w.wire|
      ensures View().k.sent == w.k.sent
      ensures View().slots[i] == w.slots[i].(setupFd := View().slots[i].setupFd)
      ensures View().slots[i].setupFd == w.slots[i].setupFd || View().slots[i].setupFd == -1
      ensures Drains(Line(given, w.wire[i], true), Line(state, View().wire[i], View().slots[i].setupFd >= 0), rc)
      ensures rc == -1 ==> err.errno > 0
      ensures Answered(old(heard), heard, w.slots[i].setupFd, state, rc, err)
    {
      hide Inv, Drains, Sent, Delivered, Touches, Answered, HeardLast, ClosedAfter, View, Judged;
      Seen();
      rc, err := 0, NO_ERROR;
      ghost var before := Line(given, w.wire[i], true);
      var fd := slots[i].setupFd;
      var stop;
      stop, state := DrainBytes(w, i, given);
      Seen();
      ghost var w1, h1 := View(), heard;
      DeliveredTouches(w, i, wire[i], k);
      match stop {
        case SetupWouldBlock =>
          StoppedDrains(before, Line(state, w1.wire[i], true), rc);
        case SetupData(_) =>
          state := state.(outcome := Corrupt);
          OverfullDrains(before, Line(state, w1.wire[i], true));
        case SetupError(errno) =>
          err := err.Primary(OP_READ_SETUP, errno, state.length, fd);
          rc := -1;
          StoppedDrains(before, Line(state, w1.wire[i], true), rc);
        case SetupEnd =>
          ghost var received := state;
          rc, state, err := CloseAtEnd(w1, i, state);
          EndedDrains(before, received, Line(state, w1.wire[i], false), rc);
          TouchesTransitive(w, w1, View(), i);
      }
      AnsweredBy(old(heard), h1, heard, fd, state, rc, err, stop);
    }

    /** The end of the setup pipe: the judgement waits for a close that succeeds. */
    method CloseAtEnd(ghost w: World, i: nat, given: SetupState)
      returns (rc: int, state: SetupState, err: Error)
      requires w == View() && Inv(w) && Active(w, i) && w.slots[i].setupFd >= 0
      requires |given.raw| == RECORD && given.length <= RECORD
      modifies this`heard, this`k, this`holder, slots
      ensures ClosedAfter(old(heard), heard, w.slots[i].setupFd, rc, err)
      ensures Inv(View()) && Touches(w, View(), i) && View().k.sent == w.k.sent && View().wire == w.wire
      ensures |View().slots| == |w.slots| && View().slots[i] == w.slots[i].(setupFd := -1)
      ensures if rc == 0 then state == Judged(given) && state.outcome != Waiting
              else
                rc == -1 && state == given && err.errno > 0
    {
      hide Inv, Touches;
      state := given;
      rc, err := CloseReporting(w, i, Setup);
      if rc == 0 { state := Judged(state); }
    }

    method DrainPublished(ghost w: World, i: nat, given: SetupState) returns (rc: int, state: SetupState, err: Error)
      requires w == View() && Valid(w) && Published(w, i) && i < |w.wire|
      requires |given.raw| == RECORD && given.length <= RECORD
      modifies this`heard, this`k, this`holder, this`wire, slots
      ensures Valid(View()) && Evolves(w, View()) && Touches(w, View(), i)
      ensures k.sent == w.k.sent
      ensures Drains(Line(given, w.wire[i], w.slots[i].setupFd >= 0),
                     Line(state, View().wire[i], View().slots[i].setupFd >= 0), rc)
      ensures View().slots[i] == w.slots[i].(setupFd := View().slots[i].setupFd)
      ensures rc == -1 ==> err.errno > 0
      ensures if given.outcome == Waiting && w.slots[i].setupFd >= 0 then
                Answered(old(heard), heard, w.slots[i].setupFd, state, rc, err)
              else heard == old(heard)
    {
      hide Inv, Evolves, Settled;
      Untouched(w);
      rc, state, err := 0, given, NO_ERROR;
      if given.outcome != Waiting { return; }
      if slots[i].setupFd < 0 {
        state := state.(outcome := if state.length == 0 then ExecSucceeded else Corrupt);
        return;
      }
      rc, state, err := DrainOpen(w, i, given);
      Concludes(w, i);
    }

    method ProcessSetupDrain(handle: nat, given: SetupState) returns (rc: int, state: SetupState, err: Error)
      requires Valid(View()) && |given.raw| == RECORD
      modifies this`heard, this`k, this`holder, this`wire, slots
      ensures Valid(View()) && Evolves(old(View()), View())
      ensures k.sent == old(k.sent)
      ensures var i := Lookup(old(View()).slots, handle);
              if given.length > RECORD || i < 0 then
                rc == -1 && View() == old(View()) && heard == old(heard) && state == given && err.errno == EINVAL
              else
                && Touches(old(View()), View(), i)
                && Drains(Line(given, old(View()).wire[i], old(View()).slots[i].setupFd >= 0),
                          Line(state, View().wire[i], View().slots[i].setupFd >= 0), rc)
                && View().slots[i] == old(View()).slots[i].(setupFd := View().slots[i].setupFd)
                && (rc == -1 ==> err.errno > 0)
                && (if given.outcome == Waiting && old(View()).slots[i].setupFd >= 0 then
                      Answered(old(heard), heard, old(View()).slots[i].setupFd, state, rc, err)
                    else heard == old(heard))
    {
      ghost var w := View();
      hide Inv, Evolves, Settled, Drains;
      Untouched(w);
      err := NO_ERROR;
      state := given;
      var i := FromHandle(handle);
      if given.length > RECORD || i < 0 {
        err := err.Primary(OP_READ_SETUP, EINVAL, 0, 0);
        return -1, state, err;
      }
      assert Published(w, i);
      rc, state, err := DrainPublished(w, i, given);
    }

    // ----- Abort -----

    method CloseChannels(ghost w: World, i: nat)
      requires w == View() && Inv(w) && Published(w, i)
      modifies this`heard, this`k, this`holder, slots
      ensures Inv(View()) && Touches(w, View(), i) && wire == w.wire
      ensures Closes(old(heard), heard, OpenFds(w.slots[i]))
      ensures k.sent == w.k.sent
      ensures slots[i] == w.slots[i].(stdoutFd := -1, stderrFd := -1, setupFd := -1)
    {
      hide Inv, Closes;
      ghost var h0, s := heard, w.slots[i];
      CloseQuietly(View(), i, Stdout);
      ghost var h1 := heard;
      CloseQuietly(View(), i, Stderr);
      ghost var h2 := heard;
      CloseQuietly(View(), i, Setup);
      ghost var out := if s.stdoutFd >= 0 then [s.stdoutFd] else [];
      ghost var err := if s.stderrFd >= 0 then [s.stderrFd] else [];
      ClosesOn(h0, h1, h2, out, err);
      ClosesOn(h0, h2, heard, out + err, if s.setupFd >= 0 then [s.setupFd] else []);
    }

    /** One look at the leader and at the clock. */
    method GraceLook(ghost w: World, ghost i: nat, handle: nat, graceMs: nat, startMs: int, given: Error)
      returns (done: bool, err: Error)
      requires w == View() && Valid(w) && i == Lookup(w.slots, handle) && !w.slots[i].observed
      modifies this`heard, this`k, this`clock, slots
      ensures Valid(View()) && Touches(w, View(), i) && View().k.sent == w.k.sent
      ensures View().slots[i] == w.slots[i].(observed := View().slots[i].observed)
      ensures err.Extends(given)
      ensures !done ==> err == given && old(clock) <= clock < startMs + graceMs && !View().slots[i].observed
      ensures |old(heard)| < |heard|
      ensures given.Silent() ==> (err.Silent() <==> !Trouble(heard, |old(heard)|))
      ensures !done ==> !Trouble(heard, |old(heard)|)
      ensures done ==> GraceNamed(given, err, heard[|heard| - 1])
      ensures done ==> (View().slots[i].observed <==> Sees(heard[|heard| - 1]))
      ensures if done then GraceOver(old(heard), heard, w.slots[i].leader, startMs, graceMs)
              else GraceRuns(old(heard), heard, w.slots[i].leader, startMs, graceMs)
    {
      hide Inv, Settled, Evolves, Touches, GraceRuns, GraceOver, Trouble;
      ghost var leader := w.slots[i].leader;
      var rc, waitable, observeErr := ProcessObserve(handle);
      if rc != 0 {
        OneLook(old(heard), heard, leader, startMs, graceMs);
        return true, given.Cleanup(observeErr.operation, observeErr.errno);
      }
      OneLook(old(heard), heard, leader, startMs, graceMs);
      if waitable { return true, given; }
      ghost var h1 := heard;
      var ok, nowMs := ClockRead();
      ThenTheClock(old(heard), h1, heard, leader, startMs, graceMs);
      if !ok {
        var clockErrno := Errno();
        return true, given.Cleanup(OP_CLOCK_MONOTONIC, clockErrno);
      }
      return nowMs - startMs >= graceMs, given;
    }

    /** So far the wait that began in state `w` has only looked, and found nothing. */
    ghost predicate Idling(w: World, i: nat, before: seq<Reply>, startMs: int, graceMs: nat)
      reads this, slots
    {
      && Valid(View()) && Touches(w, View(), i) && View().k.sent == w.k.sent
      && i < slots.Length && |w.slots| == slots.Length && Lookup(w.slots, w.slots[i].handle) == i
      && slots[i] == w.slots[i] && GraceRuns(before, heard, w.slots[i].leader, startMs, graceMs)
      && |before| <= |heard| && before <= heard && !Trouble(heard, |before|)
    }

    /** One round of the wait. */
    method GraceRound(ghost w: World, ghost i: nat, ghost before: seq<Reply>, handle: nat, graceMs: nat, startMs: int,
                      given: Error)
      returns (done: bool, err: Error)
      requires Idling(w, i, before, startMs, graceMs) && handle == w.slots[i].handle && !w.slots[i].observed
      modifies this`heard, this`k, this`clock, slots
      ensures Valid(View()) && Touches(w, View(), i) && View().k.sent == w.k.sent
      ensures View().slots[i] == w.slots[i].(observed := View().slots[i].observed)
      ensures err.Extends(given)
      ensures given.Silent() ==> (err.Silent() <==> !Trouble(heard, |before|))
      ensures |heard| > 0 && (done ==> GraceNamed(given, err, heard[|heard| - 1]))
      ensures |heard| > 0 && (done ==> (View().slots[i].observed <==> Sees(heard[|heard| - 1])))
      ensures if done then GraceOver(before, heard, w.slots[i].leader, startMs, graceMs)
              else
                && Idling(w, i, before, startMs, graceMs) && err == given
                && old(clock) < clock && old(clock) < startMs + graceMs
    {
      hide Inv, Settled, Evolves, Touches, EndsGrace, GraceRuns, GraceOver, Trouble, Lookup;
      ghost var w1, h1 := View(), heard;
      TouchedLookup(w, w1, handle, i);
      done, err := GraceLook(w1, i, handle, graceMs, startMs, given);
      ghost var w2 := View();
      RoundKeepsGrace(before, h1, heard, done, w.slots[i].leader, startMs, graceMs);
      TouchesTransitive(w, w1, w2, i);
      if !done {
        SleepOnce(w2);
        TouchesByKernel(w, w2, View(), i);
      }
    }

    /** Waits until the leader is waitable, the grace period is over, or the clock or the observation fails.
        A start reading of zero counts as no reading. */
    method GraceWait(ghost w: World, i: nat, handle: nat, graceMs: nat, startMs: int, given: Error)
      returns (err: Error)
      requires w == View() && Valid(w) && i == Lookup(w.slots, handle)
      modifies this`heard, this`k, this`clock, slots
      ensures Valid(View()) && Touches(w, View(), i) && View().k.sent == w.k.sent
      ensures View().slots[i] == w.slots[i].(observed := View().slots[i].observed)
      ensures w.slots[i].observed ==> View().slots[i].observed
      ensures err.Extends(given)
      ensures given.Silent() ==> (err.Silent() <==> !Trouble(heard, |old(heard)|))
      ensures old(heard) <= heard
      ensures if w.slots[i].observed || startMs == 0 then
                heard == old(heard) && View().slots[i].observed == w.slots[i].observed && err == given
              else
                && |old(heard)| < |heard| && (View().slots[i].observed <==> Sees(heard[|heard| - 1]))
                && GraceOver(old(heard), heard, w.slots[i].leader, startMs, graceMs)
                && GraceNamed(given, err, heard[|heard| - 1])
    {
      hide Inv, Settled, Evolves, Touches, EndsGrace, GraceRuns, GraceOver, Trouble, Lookup;
      err := given;
      ghost var before := heard;
      GraceStarts(before, w.slots[i].leader, startMs, graceMs);
      NoTrouble(before, |before|);
      TouchesSelf(w, i);
      while !slots[i].observed && startMs != 0
        invariant Idling(w, i, before, startMs, graceMs) && err == given
        invariant w.slots[i].observed || startMs == 0 ==> heard == before
        decreases startMs + graceMs - clock
      {
        var done;
        done, err := GraceRound(w, i, before, handle, graceMs, startMs, err);
        if done {
          GraceOverMeans(before, heard, w.slots[i].leader, startMs, graceMs);
          break;
        }
      }
    }

    /** SIGKILL to the leader itself. */
    method KillLeader(ghost w: World, i: nat) returns (errno: int)
      requires w == View() && Inv(w) && Published(w, i) && !w.slots[i].reaped
      modifies this`heard, this`k
      ensures errno >= 0 && View() == w.(k := k) && Inv(View())
      ensures k.sent == w.k.sent + [ToLeader(w.slots[i].leader)]
      ensures heard == old(heard) + [Signalled(ToLeader(w.slots[i].leader), errno)]
    {
      assert SlotInv(w, i);
      ghost var s := ToLeader(w.slots[i].leader);
      errno := SystemKill(slots[i].leader);
      SignalKeeps(w, s);
      InterferenceKeeps(w.(k := SignalEffect(w.k, s)), k);
      assert View() == w.(k := k);
    }

    /** Kills the leader itself and waits for the zombie. */
    method TerminateLeader(ghost w: World, i: nat, given: Error) returns (proceed: bool, err: Error)
      requires w == View() && Inv(w) && Published(w, i) && !w.slots[i].reaped && !w.slots[i].observed
      modifies this`heard, this`k, slots
      ensures Inv(View()) && Touches(w, View(), i) && wire == w.wire
      ensures proceed <==> |heard| == |old(heard)| + 2
      ensures LeaderKilled(old(heard), heard, w.slots[i].leader, slots[i].observed)
      ensures k.sent == w.k.sent + [ToLeader(w.slots[i].leader)]
      ensures slots[i] == w.slots[i].(observed := slots[i].observed)
      ensures err.Extends(given) && if slots[i].observed then err == given else err.cleanupOperation != OP_NONE
      ensures !slots[i].observed ==> ForceNamed(given, err, heard[|heard| - 1])
    {
      hide Inv;
      err := given;
      var errno := KillLeader(w, i);
      if errno != 0 && errno != ESRCH {
        return false, err.Cleanup(OP_GROUP_KILL, errno);
      }
      var status, _ := LookAtLeader(View(), i, true);
      if status != 0 { err := err.Cleanup(OP_WAITID, status); }
      return true, err;
    }

    /** Terminates and reaps the leader of a swept group. Without a terminated leader there is nothing to wait for. */
    method ReapSwept(ghost w: World, i: nat, given: Error) returns (proceed: bool, err: Error)
      requires w == View() && Inv(w) && Published(w, i) && !w.slots[i].reaped && w.slots[i].swept
      modifies this`heard, this`k, this`keeper, slots
      ensures Inv(View()) && Touches(w, View(), i) && wire == w.wire
      ensures LeaderForced(old(heard), heard, w.slots[i].leader, w.slots[i].observed)
      ensures ForceEnds(heard, w.slots[i].leader, slots[i].reaped, proceed)
      ensures AllTo(w.k, k, w.slots[i].leader)
      ensures slots[i] == w.slots[i].(observed := slots[i].observed, reaped := slots[i].reaped)
      ensures w.slots[i].observed ==> slots[i].observed
      ensures err.Extends(given) && if slots[i].reaped then err == given else err.cleanupOperation != OP_NONE
      ensures ForceNamed(given, err, heard[|heard| - 1])
    {
      hide Inv, Touches;
      TouchesSelf(w, i);
      proceed, err := true, given;
      ghost var h0 := heard;
      if !slots[i].observed {
        proceed, err := TerminateLeader(w, i, given);
      }
      ghost var w1, h1 := View(), heard;
      if slots[i].observed {
        var errno, _ := ReapLeader(w1, i);
        TouchesTransitive(w, w1, View(), i);
        if errno != 0 {
          err := err.Cleanup(OP_WAITPID, errno);
        }
      }
      ReapedLeader(h0, h1, heard, w.slots[i].leader, w.slots[i].observed, w1.slots[i].observed);
    }

    /** The forced part of an abort: sweep if still needed, then terminate and reap. */
    method SweepAndReap(ghost w: World, i: nat, given: Error) returns (proceed: bool, err: Error)
      requires w == View() && Inv(w) && Published(w, i) && !w.slots[i].reaped
      modifies this`heard, this`k, this`clock, this`keeper, slots
      ensures Inv(View()) && Touches(w, View(), i) && wire == w.wire
      ensures Forced(old(heard), heard, w.slots[i].leader, w.slots[i].observed, w.slots[i].swept)
      ensures ForceEnds(heard, w.slots[i].leader, slots[i].reaped, proceed)
      ensures AllTo(w.k, k, w.slots[i].leader)
      ensures slots[i] == w.slots[i].(observed := slots[i].observed, reaped := slots[i].reaped,
                                      swept := slots[i].swept)
      ensures w.slots[i].observed ==> slots[i].observed
      ensures w.slots[i].swept ==> slots[i].swept
      ensures err.Extends(given)
      ensures if slots[i].reaped then slots[i].swept && err == given else err.cleanupOperation != OP_NONE
      ensures ForceNamed(given, err, heard[|heard| - 1])
    {
      hide Inv, Settled, Touches, Tried, LeaderForced, OnlySent, AllTo;
      PublishedChild(w, i);
      TouchesSelf(w, i);
      err := given;
      ghost var h0, k0 := heard, k;
      AllToNone(k0, w.slots[i].leader);
      if !slots[i].swept {
        var rc, _, groupErr := GroupChecked(w, i, Kill);
        SentToOne(k0, k, w.slots[i].leader, Kill);
        LastTry(h0, heard, ToGroup(w.slots[i].leader, Kill));
        if rc != 0 {
          return false, err.Cleanup(groupErr.operation, groupErr.errno);
        }
      }
      ghost var w1, h1, k1 := View(), heard, k;
      proceed, err := ReapSwept(w1, i, err);
      assert w.slots[i].swept || GroupForced(h0, h1, heard, w.slots[i].leader, w.slots[i].observed);
      TouchesTransitive(w, w1, View(), i);
      AllToOn(k0, k1, k, w.slots[i].leader);
    }

    /** TERM and the start of the grace period; zero when the clock cannot be read. */
    method AbortTerm(ghost w: World, i: nat) returns (startMs: int, err: Error)
      requires w == View() && Valid(w) && Published(w, i) && !w.slots[i].reaped
      modifies this`heard, this`k, this`clock, slots
      ensures Valid(View()) && Touches(w, View(), i)
      ensures OnlySent(w.k, k, ToGroup(w.slots[i].leader, Term))
      ensures |heard| > 1 && old(heard) <= heard && TermThenClock(old(heard), heard, w.slots[i].leader)
      ensures startMs == Reading(heard[|heard| - 1])
      ensures err.Silent() <==> !Trouble(heard, |old(heard)|)
      ensures err.operation == OP_NONE ==> err.errno == 0
      ensures GentlyNamed(err, heard, heard)
      ensures View().slots[i] == w.slots[i].(swept := w.slots[i].swept || TermSwept(heard[|heard| - 2]))
    {
      hide Inv, Settled, Touches, OnlySent, Tried, Trouble, TermThenClock;
      PublishedChild(w, i);
      err := NO_ERROR;
      ghost var h0 := heard;
      var rc, _, groupErr := GroupChecked(w, i, Term);
      ghost var h1 := heard;
      TouchesSettled(w, View(), i);
      if rc != 0 {
        err := err.Cleanup(groupErr.operation, groupErr.errno);
      }
      var ok;
      ok, startMs := ClockRead();
      ClockAfterTerm(h0, h1, heard, w.slots[i].leader);
      if !ok {
        startMs := 0;
        var clockErrno := Errno();
        err := err.Primary(OP_CLOCK_MONOTONIC, clockErrno, 0, 0);
      }
    }

    /** TERM and the grace period. */
    method AbortGently(handle: nat, graceMs: nat, ghost w: World, i: nat) returns (err: Error, ghost h1: seq<Reply>)
      requires w == View() && Valid(w) && i == Lookup(w.slots, handle) && !w.slots[i].reaped && Published(w, i)
      modifies this`heard, this`k, this`clock, slots
      ensures Valid(View()) && Touches(w, View(), i) && |View().slots| == |w.slots|
      ensures OnlySent(w.k, View().k, ToGroup(w.slots[i].leader, Term))
      ensures View().slots[i] == w.slots[i].(observed := View().slots[i].observed, swept := View().slots[i].swept)
      ensures old(heard) <= heard
      ensures Gently(old(heard), h1, heard, w.slots[i].leader, graceMs, w.slots[i].observed, w.slots[i].swept,
                     View().slots[i].observed, View().slots[i].swept)
      ensures err.Silent() <==> !Trouble(heard, |old(heard)|)
      ensures err.operation == OP_NONE ==> err.errno == 0
      ensures GentlyNamed(err, h1, heard)
    {
      hide Inv, Settled, Touches, OnlySent, TermThenClock, EndsGrace, GraceOver, Trouble, TermSwept, Sees,
           GentlyNamed, GraceNamed;
      ghost var h0 := heard;
      var startMs;
      startMs, err := AbortTerm(w, i);
      ghost var w1 := View();
      h1 := heard;
      TouchedLookup(w, w1, handle, i);
      ghost var given := err;
      err := GraceWait(w1, i, handle, graceMs, startMs, err);
      GraceNamesOn(h1, heard, given, err);
      TroubleOn(h0, h1, heard);
      SentLately(w.k, w1.k, View().k, ToGroup(w.slots[i].leader, Term));
      TouchesTransitive(w, w1, View(), i);
    }

    /** TERM, the grace period, then whatever force is left to apply. */
    method AbortLive(handle: nat, graceMs: nat, ghost w: World, i: nat) returns (proceed: bool, err: Error)
      requires w == View() && Valid(w) && i == Lookup(w.slots, handle) && !w.slots[i].reaped
      requires Published(w, i)
      modifies this`heard, this`k, this`clock, this`keeper, slots
      ensures Valid(View()) && Touches(w, View(), i)
      ensures TermFirst(w.k, k, w.slots[i].leader)
      ensures Graceful(old(heard), heard, w.slots[i].leader, graceMs, w.slots[i].observed, w.slots[i].swept)
      ensures ForceEnds(heard, w.slots[i].leader, slots[i].reaped, proceed)
      ensures slots[i] == w.slots[i].(observed := slots[i].observed, reaped := slots[i].reaped,
                                      swept := slots[i].swept)
      ensures w.slots[i].observed ==> slots[i].observed
      ensures w.slots[i].swept ==> slots[i].swept
      ensures if slots[i].reaped then slots[i].swept && (err.Silent() <==> !Trouble(heard, |old(heard)|))
              else err.cleanupOperation != OP_NONE
      ensures err.operation == OP_NONE ==> err.errno == 0
      ensures |old(heard)| < |heard| && old(heard) <= heard && NamesFirst(heard, |old(heard)|, err)
    {
      hide Inv, Settled, Touches, OnlySent, AllTo, TermFirst, Graceful, Gently, Forced, Trouble, Reaps, NamesFirst,
           GentlyNamed, ForceNamed;
      ghost var h0, s, h1 := heard, w.slots[i], heard;
      err, h1 := AbortGently(handle, graceMs, w, i);
      ghost var w2, h2 := View(), heard;
      GentlyMeans(h0, h1, h2, s.leader, graceMs, s.observed, s.swept, w2.slots[i].observed, w2.slots[i].swept);
      ghost var given := err;
      proceed, err := SweepAndReap(w2, i, err);
      NamesTheFirst(h0, h1, h2, heard, s.leader, graceMs, s.observed, s.swept, w2.slots[i].observed,
                    w2.slots[i].swept, given, err);
      GraceKept(h0, h1, h2, heard, s.leader, graceMs, s.observed, s.swept, w2.slots[i].observed, w2.slots[i].swept);
      ForcedQuietly(h2, heard, s.leader, w2.slots[i].observed, w2.slots[i].swept);
      TroubleOn(h0, h2, heard);
      BeginsWithTerm(w.k, w2.k, w2.k, k, s.leader);
      TouchesTransitive(w, w2, View(), i);
      TouchesSettled(w2, View(), i);
    }

    /** Sweeps, terminates, reaps and, if all of that succeeded, frees. A refused signal ends it before that. */
    method AbortUnreaped(handle: nat, graceMs: nat, ghost w: World, i: nat) returns (rc: int, err: Error)
      requires w == View() && Valid(w) && i == Lookup(slots[..], handle) && Published(w, i)
      requires !w.slots[i].reaped && w.slots[i].ChannelsClosed()
      modifies this`heard, this`runtime, this`freed, this`k, this`clock, this`keeper, slots
      ensures Valid(View()) && Evolves(w, View())
      ensures TermFirst(w.k, View().k, w.slots[i].leader)
      ensures Graceful(old(heard), heard, w.slots[i].leader, graceMs, w.slots[i].observed, w.slots[i].swept)
      ensures ForceAnswered(heard, |old(heard)|, w.slots[i].leader, View().slots[i] == FREE_SLOT, rc, err)
      ensures |old(heard)| < |heard| && old(heard) <= heard && NamesFirst(heard, |old(heard)|, err)
      ensures AbortOutcome(w, View(), i, rc, err)
    {
      hide Inv, Settled, Evolves, Graceful, TermFirst, Trouble, NamesFirst;
      var proceed;
      proceed, err := AbortLive(handle, graceMs, w, i);
      ghost var w2 := View();
      Concludes(w, i);
      if !proceed { return -1, err; }
      if !slots[i].reaped || !slots[i].swept {
        if err.operation == OP_NONE {
          SameNames(heard, |old(heard)|, err, err.Primary(OP_NONE, EBUSY, 0, slots[i].leader));
          err := err.Primary(OP_NONE, EBUSY, 0, slots[i].leader);
        }
        return -1, err;
      }
      FreeProcess(w2, i);
      EvolvesTransitive(w, w2, View());
      rc := if err.Silent() then 0 else -1;
    }

    /** The part of an abort after the channels are closed. */
    method AbortClosed(handle: nat, graceMs: nat, ghost w: World, i: nat) returns (rc: int, err: Error)
      requires w == View() && Valid(w) && i == Lookup(slots[..], handle) && Published(w, i)
      requires w.slots[i].ChannelsClosed()
      modifies this`heard, this`runtime, this`freed, this`k, this`clock, this`keeper, slots
      ensures Valid(View()) && Evolves(w, View())
      ensures if w.slots[i].reaped then View().k.sent == w.k.sent else TermFirst(w.k, View().k, w.slots[i].leader)
      ensures AbortAnswered(old(heard), heard, w.slots[i], graceMs, View().slots[i] == FREE_SLOT, rc, err)
      ensures AbortOutcome(w, View(), i, rc, err)
    {
      hide Inv, Settled, Evolves, Graceful, ForceAnswered, NamesFirst;
      Untouched(w);
      err := NO_ERROR;
      assert heard[..|heard|] == heard;
      if slots[i].reaped {
        if !slots[i].swept {
          err := err.Primary(OP_NONE, EBUSY, 0, slots[i].leader);
          return -1, err;
        }
        FreeProcess(w, i);
        return 0, err;
      }
      ghost var h0 := heard;
      rc, err := AbortUnreaped(handle, graceMs, w, i);
      assert heard[..|h0|] == h0;
    }

    method ProcessAbort(handle: nat, graceMs: nat) returns (rc: int, err: Error)
      requires Valid(View())
      modifies this`heard, this`runtime, this`freed, this`k, this`clock, this`holder, this`keeper, slots
      ensures Valid(View()) && Evolves(old(View()), View())
      ensures var i := Lookup(old(View()).slots, handle);
              if i < 0 then rc == -1 && View() == old(View()) && heard == old(heard) && err.errno == EINVAL
              else
                && AbortOutcome(old(View()), View(), i, rc, err)
                && AbortAnswered(old(heard), heard, old(View()).slots[i], graceMs, View().slots[i] == FREE_SLOT, rc,
                                 err)
                && (if old(View()).slots[i].reaped then View().k.sent == old(View()).k.sent
                    else TermFirst(old(View()).k, View().k, old(View()).slots[i].leader))
    {
      ghost var w := View();
      hide Inv, Settled, Evolves, AbortOutcome, AbortAnswered, Closes;
      Untouched(w);
      err := NO_ERROR;
      var i := FromHandle(handle);
      if i < 0 {
        err := err.Primary(OP_NONE, EINVAL, 0, 0);
        return -1, err;
      }
      assert Published(w, i);
      ghost var table, h0 := slots[..], heard;
      CloseChannels(w, i);
      ghost var w1, h1 := View(), heard;
      Concludes(w, i);
      LookupFromStable(table, slots[..], handle, 0);
      rc, err := AbortClosed(handle, graceMs, w1, i);
      AbortAfterClose(w, w1, View(), i, rc, err);
      AnsweredAfterClose(h0, h1, heard, w.slots[i], graceMs, View().slots[i] == FREE_SLOT, rc, err);
      EvolvesTransitive(w, w1, View());
    }

    // ----- Open -----

    /** pipe: two new descriptors, which may be standard ones if those were closed. */
    method SystemPipe(operation: nat) returns (errno: int, p: Pipe)
      modifies this`heard, this`k
      ensures errno >= 0
      ensures heard == old(heard) + [PipeMade(operation, errno)]
      ensures errno == 0 ==>
                && p.r >= 0 && p.w >= 0 && p.r != p.w && p.r !in old(k).fds && p.w !in old(k).fds
                && Becomes(old(k), old(k).fds + {p.r, p.w}, k)
      ensures errno != 0 ==> Interferes(old(k), k)
    {
      p := NO_PIPE;
      errno := Errno();
      Interfere();
      heard := heard + [PipeMade(operation, errno)];
    }

    /** fcntl F_DUPFD_CLOEXEC above the standard descriptors. */
    method SystemDuplicate(fd: int) returns (errno: int, copy: int)
      modifies this`heard, this`k
      ensures errno >= 0
      ensures heard == old(heard) + [Copied(fd, errno)]
      ensures errno == 0 ==> copy > 2 && copy !in old(k).fds && Becomes(old(k), old(k).fds + {copy}, k)
      ensures errno != 0 ==> Interferes(old(k), k)
    {
      copy := -1;
      errno := Errno();
      Interfere();
      heard := heard + [Copied(fd, errno)];
    }

    /** fcntl reading and setting one descriptor flag. */
    method SystemSetFlag(fd: int, operation: nat) returns (errno: int)
      modifies this`heard, this`k
      ensures errno >= 0
      ensures heard == old(heard) + [Flagged(fd, operation, errno)]
      ensures Interferes(old(k), k)
    {
      Interfere();
      errno := *;
      if errno < 0 { errno := 0; }
      heard := heard + [Flagged(fd, operation, errno)];
    }

    /** fork in the parent. */
    method SystemFork() returns (errno: int, pid: int)
      modifies this`heard, this`k
      ensures errno >= 0
      ensures heard == old(heard) + [ForkSaid(errno)]
      ensures errno == 0 ==> pid > 0 && !Mine(old(k), pid) && Interferes(ForkEffect(old(k), pid), k)
      ensures errno != 0 ==> Interferes(old(k), k)
    {
      pid := -1;
      errno := Errno();
      Interfere();
      heard := heard + [ForkSaid(errno)];
    }

    method SystemSetpgid(pid: int) returns (errno: int)
      modifies this`heard, this`k
      ensures errno >= 0
      ensures heard == old(heard) + [GroupSet(pid, errno)]
      ensures Interferes(old(k), k)
    {
      Interfere();
      errno := *;
      if errno < 0 { errno := 0; }
      heard := heard + [GroupSet(pid, errno)];
    }

    method CloseLocal(fd: int) returns (errno: int)
      requires fd >= 0 ==> fd in k.fds
      modifies this`heard, this`k
      ensures errno >= 0
      ensures Closing(old(heard), heard)
      ensures heard == if fd < 0 then old(heard) else old(heard) + [HasClosed(fd, errno)]
      ensures Becomes(old(k), old(k).fds - Owned(fd), k)
    {
      ghost var k0 := k;
      if fd < 0 {
        assert Becomes(k0, k0.fds - Owned(fd), k0);
        return 0;
      }
      errno := SystemClose(fd);
      assert CloseEffect(k0, fd) == k0.(fds := k0.fds - Owned(fd));
    }

    /** Moves a pipe end above the standard descriptors. A failed close of the original gives up both. */
    method Relocate(fd: int) returns (errno: int, moved: int)
      requires fd >= 0 && fd in k.fds
      modifies this`heard, this`k
      ensures errno >= 0
      ensures errno == 0 ==> moved > 2
      ensures moved >= 0 && moved != fd ==> moved !in old(k).fds
      ensures Becomes(old(k), old(k).fds - {fd} + Owned(moved), k)
      ensures if errno == 0 then Smooth(old(heard), heard) else GaveUp(old(heard), heard, OP_FD_CLOEXEC, errno)
    {
      hide Smooth, GaveUp, Closing;
      ghost var k0, h0 := k, heard;
      NoCalls(h0);
      if fd > 2 {
        assert Becomes(k0, k0.fds - {fd} + Owned(fd), k0) by { assert k0.fds - {fd} + {fd} == k0.fds; }
        return 0, fd;
      }
      var copy;
      errno, copy := SystemDuplicate(fd);
      ghost var k1, h1 := k, heard;
      OneAnswer(h0, h1, OP_FD_CLOEXEC, errno);
      if errno != 0 {
        assert k0.fds - {fd} + Owned(fd) == k0.fds;
        return errno, fd;
      }
      assert k1.fds == k0.fds + {copy};
      var closed := CloseLocal(fd);
      ghost var k2, h2 := k, heard;
      OneAnswer(h1, h2, OP_FD_CLOEXEC, closed);
      BecomesTransitive(k0, k0.fds + {copy}, k1, k1.fds - {fd}, k2);
      assert k1.fds - {fd} == k0.fds - {fd} + {copy};
      if closed != 0 {
        GaveUpLater(h0, h1, h2, OP_FD_CLOEXEC, closed);
        var _ := CloseLocal(copy);
        GaveUpClosing(h0, h2, heard, OP_FD_CLOEXEC, closed);
        BecomesTransitive(k0, k1.fds - {fd}, k2, k2.fds - {copy}, k);
        assert k2.fds - {copy} == k0.fds - {fd} + Owned(-1);
        return closed, -1;
      }
      SmoothOn(h0, h1, h2);
      return 0, copy;
    }

    method ClosePipe(p: Pipe)
      requires p.Ends() <= k.fds && (p.r >= 0 ==> p.r != p.w)
      modifies this`heard, this`k
      ensures Becomes(old(k), old(k).fds - p.Ends(), k)
      ensures Closing(old(heard), heard)
    {
      ghost var k0, h0 := k, heard;
      var _ := CloseLocal(p.r);
      ghost var k1, h1 := k, heard;
      var _ := CloseLocal(p.w);
      ClosingOn(h0, h1, heard);
      BecomesTransitive(k0, k0.fds - Owned(p.r), k1, k1.fds - Owned(p.w), k);
      assert k1.fds - Owned(p.w) == k0.fds - p.Ends();
    }

    method RelocatePipe(p: Pipe) returns (errno: int, q: Pipe)
      requires p.r >= 0 && p.w >= 0 && p.r != p.w && {p.r, p.w} <= k.fds
      modifies this`heard, this`k
      ensures errno >= 0
      ensures errno == 0 ==> q.r > 2 && q.w > 2
      ensures q.r >= 0 ==> q.r != q.w
      ensures q.Ends() !! old(k).fds - {p.r, p.w}
      ensures Becomes(old(k), old(k).fds - {p.r, p.w} + q.Ends(), k)
      ensures if errno == 0 then Smooth(old(heard), heard) else GaveUp(old(heard), heard, OP_FD_CLOEXEC, errno)
    {
      hide Smooth, GaveUp;
      ghost var k0, h0 := k, heard;
      var r;
      errno, r := Relocate(p.r);
      ghost var k1, h1 := k, heard;
      assert p.w in k1.fds;
      if errno != 0 {
        assert k0.fds - {p.r} + Owned(r) == k0.fds - {p.r, p.w} + Pipe(r, p.w).Ends();
        return errno, Pipe(r, p.w);
      }
      var w;
      errno, w := Relocate(p.w);
      if errno == 0 {
        SmoothOn(h0, h1, heard);
      } else {
        GaveUpLater(h0, h1, heard, OP_FD_CLOEXEC, errno);
      }
      BecomesTransitive(k0, k0.fds - {p.r} + Owned(r), k1, k1.fds - {p.w} + Owned(w), k);
      assert k1.fds - {p.w} + Owned(w) == k0.fds - {p.r, p.w} + Pipe(r, w).Ends();
      q := Pipe(r, w);
    }

    /** The flags of a relocated pipe: both ends close-on-exec, the read end non-blocking. */
    method FlagPipe(p: Pipe) returns (operation: nat, errno: int)
      modifies this`heard, this`k
      ensures errno >= 0 && operation in {OP_FD_CLOEXEC, OP_FD_NONBLOCK}
      ensures Interferes(old(k), k)
      ensures if errno == 0 then Smooth(old(heard), heard) else GaveUp(old(heard), heard, operation, errno)
    {
      hide Smooth, GaveUp, Interferes;
      ghost var k0, h0 := k, heard;
      errno := SystemSetFlag(p.r, OP_FD_CLOEXEC);
      ghost var k1, h1 := k, heard;
      OneAnswer(h0, h1, OP_FD_CLOEXEC, errno);
      if errno != 0 { return OP_FD_CLOEXEC, errno; }
      errno := SystemSetFlag(p.w, OP_FD_CLOEXEC);
      ghost var k2, h2 := k, heard;
      OneAnswer(h1, h2, OP_FD_CLOEXEC, errno);
      InterferesTransitive(k0, k1, k2);
      if errno != 0 {
        GaveUpLater(h0, h1, h2, OP_FD_CLOEXEC, errno);
        return OP_FD_CLOEXEC, errno;
      }
      SmoothOn(h0, h1, h2);
      errno := SystemSetFlag(p.r, OP_FD_NONBLOCK);
      OneAnswer(h2, heard, OP_FD_NONBLOCK, errno);
      InterferesTransitive(k0, k2, k);
      if errno == 0 {
        SmoothOn(h0, h2, heard);
      } else {
        GaveUpLater(h0, h2, heard, OP_FD_NONBLOCK, errno);
      }
      return OP_FD_NONBLOCK, errno;
    }

    /** A new pipe moved above the standard descriptors and flagged; one that could not be is still open. */
    method MakePipe(operation: nat) returns (step: nat, errno: int, p: Pipe)
      modifies this`heard, this`k
      ensures errno >= 0 && step in {operation, OP_FD_CLOEXEC, OP_FD_NONBLOCK}
      ensures errno == 0 ==> p.r > 2 && p.w > 2
      ensures (p.r >= 0 ==> p.r != p.w) && p.Ends() !! old(k).fds
      ensures Becomes(old(k), old(k).fds + p.Ends(), k)
      ensures if errno == 0 then Smooth(old(heard), heard) else GaveUp(old(heard), heard, step, errno)
    {
      hide Smooth, GaveUp;
      ghost var k0, h0 := k, heard;
      var made;
      errno, made := SystemPipe(operation);
      ghost var k1, h1 := k, heard;
      OneAnswer(h0, h1, operation, errno);
      if errno != 0 {
        assert k0.(fds := k0.fds + NO_PIPE.Ends()) == k0;
        return operation, errno, NO_PIPE;
      }
      errno, p := RelocatePipe(made);
      ghost var k2, h2 := k, heard;
      BecomesTransitive(k0, k0.fds + {made.r, made.w}, k1, k1.fds - {made.r, made.w} + p.Ends(), k2);
      assert k1.fds - {made.r, made.w} == k0.fds;
      step := OP_FD_CLOEXEC;
      if errno != 0 {
        GaveUpLater(h0, h1, h2, step, errno);
        return;
      }
      SmoothOn(h0, h1, h2);
      step, errno := FlagPipe(p);
      assert k2.(fds := k2.fds) == k2;
      BecomesTransitive(k0, k0.fds + p.Ends(), k2, k2.fds, k);
      if errno == 0 {
        SmoothOn(h0, h2, heard);
      } else {
        GaveUpLater(h0, h2, heard, step, errno);
      }
    }

    /** A pipe with both ends above the standard descriptors and its flags set, or nothing at all. */
    method PreparePipe(operation: nat) returns (rc: int, p: Pipe, err: Error)
      modifies this`heard, this`k
      ensures if rc == 0 then
                && p.r > 2 && p.w > 2 && p.r != p.w && p.r !in old(k).fds && p.w !in old(k).fds
                && Becomes(old(k), old(k).fds + p.Ends(), k)
                && Smooth(old(heard), heard)
              else
                rc == -1 && p == NO_PIPE
                && err.errno > 0 && err == NO_ERROR.Primary(err.operation, err.errno, 0, err.subject)
                && err.operation in {operation, OP_FD_CLOEXEC, OP_FD_NONBLOCK}
                && Becomes(old(k), old(k).fds, k)
                && GaveUp(old(heard), heard, err.operation, err.errno)
    {
      hide Smooth, GaveUp, Closing;
      ghost var k0, h0 := k, heard;
      err := NO_ERROR;
      var step, errno;
      step, errno, p := MakePipe(operation);
      ghost var k1, h1 := k, heard;
      if errno != 0 {
        err := err.Primary(step, errno, 0, p.r);
        ClosePipe(p);
        GaveUpClosing(h0, h1, heard, step, errno);
        BecomesTransitive(k0, k0.fds + p.Ends(), k1, k1.fds - p.Ends(), k);
        assert k1.fds - p.Ends() == k0.fds;
        return -1, NO_PIPE, err;
      }
      rc := 0;
    }

    method CleanupPipes(p: Pipes)
      requires p.Ends() <= k.fds
      requires p.out.r >= 0 ==> p.out.r != p.out.w
      requires p.err.r >= 0 ==> p.err.r != p.err.w
      requires p.setup.r >= 0 ==> p.setup.r != p.setup.w
      requires p.out.Ends() !! p.err.Ends() && p.out.Ends() !! p.setup.Ends() && p.err.Ends() !! p.setup.Ends()
      modifies this`heard, this`k
      ensures Becomes(old(k), old(k).fds - p.Ends(), k)
      ensures Closing(old(heard), heard)
    {
      hide Closing;
      ghost var k0, h0 := k, heard;
      ClosePipe(p.out);
      ghost var k1, h1 := k, heard;
      ClosePipe(p.err);
      ghost var k2, h2 := k, heard;
      BecomesTransitive(k0, k0.fds - p.out.Ends(), k1, k1.fds - p.err.Ends(), k2);
      ClosePipe(p.setup);
      ClosingOn(h0, h1, h2);
      ClosingOn(h0, h2, heard);
      BecomesTransitive(k0, k1.fds - p.err.Ends(), k2, k2.fds - p.setup.Ends(), k);
      assert k2.fds - p.setup.Ends() == k0.fds - p.Ends();
    }

    /** Three prepared pipes, or none of the descriptors made on the way. */
    method PreparePipes() returns (rc: int, p: Pipes, err: Error)
      modifies this`heard, this`k
      ensures if rc == 0 then
                && p.Ready() && p.Ends() !! old(k).fds
                && Becomes(old(k), old(k).fds + p.Ends(), k)
                && Smooth(old(heard), heard)
              else
                && rc == -1 && err.errno > 0 && err == NO_ERROR.Primary(err.operation, err.errno, 0, err.subject)
                && Becomes(old(k), old(k).fds, k)
                && err.operation in {OP_PIPE_STDOUT, OP_PIPE_STDERR, OP_PIPE_SETUP, OP_FD_CLOEXEC, OP_FD_NONBLOCK}
                && GaveUp(old(heard), heard, err.operation, err.errno)
    {
      hide Interferes, Becomes, Smooth, GaveUp, Closing;
      ghost var k0, h0 := k, heard;
      p := Pipes(NO_PIPE, NO_PIPE, NO_PIPE);
      var out;
      rc, out, err := PreparePipe(OP_PIPE_STDOUT);
      if rc != 0 { return; }
      ghost var k1, h1 := k, heard;
      p := p.(out := out);
      BecomesFds(k0, k0.fds + out.Ends(), k1);
      var e;
      rc, e, err := PreparePipe(OP_PIPE_STDERR);
      ghost var k2, h2 := k, heard;
      if rc == 0 {
        SmoothOn(h0, h1, h2);
        p := p.(err := e);
        BecomesTransitive(k0, k1.fds, k1, k1.fds + e.Ends(), k2);
        BecomesFds(k1, k1.fds + e.Ends(), k2);
        var s;
        rc, s, err := PreparePipe(OP_PIPE_SETUP);
        if rc == 0 {
          SmoothOn(h0, h2, heard);
          p := p.(setup := s);
          BecomesTransitive(k0, k2.fds, k2, k2.fds + s.Ends(), k);
          assert k2.fds + s.Ends() == k0.fds + p.Ends();
          return;
        }
        GaveUpLater(h0, h2, heard, err.operation, err.errno);
        BecomesFds(k2, k2.fds, k);
        BecomesTransitive(k0, k2.fds, k2, k2.fds, k);
      } else {
        GaveUpLater(h0, h1, h2, err.operation, err.errno);
        BecomesFds(k1, k1.fds, k2);
        BecomesTransitive(k0, k1.fds, k1, k1.fds, k2);
      }
      ghost var k3, h3 := k, heard;
      assert k3.fds == k0.fds + p.Ends();
      CleanupPipes(p);
      GaveUpClosing(h0, h3, heard, err.operation, err.errno);
      BecomesTransitive(k0, k3.fds, k3, k3.fds - p.Ends(), k);
      assert k3.fds - p.Ends() == k0.fds;
    }

    /** Wins the first free slot. */
    method ClaimSlot(ghost w: World) returns (i: int)
      requires w == View() && Inv(w) && w.runtime in {Open, ChildActive}
      modifies slots
      ensures if i < 0 then View() == w && forall j: nat | j < |w.slots| :: w.slots[j].active
              else
                && i < |w.slots| && !w.slots[i].active && (forall j: nat | j < i :: w.slots[j].active)
                && View() == w.(slots := w.slots[i := CLAIMED_SLOT])
      ensures Inv(View())
    {
      var index := 0;
      while index < slots.Length
        invariant 0 <= index <= slots.Length
        invariant forall j: nat | j < index :: slots[j].active
        invariant View() == w
      {
        if !slots[index].active {
          slots[index] := CLAIMED_SLOT;
          ClaimKeeps(w, index);
          assert View() == w.(slots := w.slots[index := CLAIMED_SLOT]);
          return index;
        }
        index := index + 1;
      }
      return -1;
    }

    method OpenPipes(ghost w0: World, ghost w: World, i: nat) returns (rc: int, p: Pipes, err: Error)
      requires w == View() && Claimed(w0, w, i)
      modifies this`heard, this`k, this`loose
      ensures k.sent == old(k.sent)
      ensures if rc == 0 then Piped(w0, View(), i, p) && Smooth(old(heard), heard)
              else
                && rc == -1 && err.errno > 0 && err == NO_ERROR.Primary(err.operation, err.errno, 0, err.subject)
                && Claimed(w0, View(), i) && GaveUp(old(heard), heard, err.operation, err.errno)
                && err.operation in {OP_PIPE_STDOUT, OP_PIPE_STDERR, OP_PIPE_SETUP, OP_FD_CLOEXEC, OP_FD_NONBLOCK}
    {
      hide Inv, Claimed, Piped, Becomes, Pipes.Ends, Pipes.Ready, Smooth, GaveUp;
      ClaimedFacts(w0, w, i);
      rc, p, err := PreparePipes();
      if rc == 0 {
        loose := p.Ends();
        ClaimedPiped(w0, w, i, p, k);
        assert View() == w.(loose := p.Ends(), k := k);
      } else {
        ClaimedUnpiped(w0, w, i, k);
        assert View() == w.(k := k);
      }
    }

    /** Drops a claim whose child was never made, and settles. */
    method Unclaim(ghost w0: World, ghost w: World, i: nat)
      requires w == View() && Claimed(w0, w, i)
      modifies this`runtime, slots
      ensures Valid(View()) && Evolves(w0, View()) && Refused(w0, View())
    {
      slots[i] := FREE_SLOT;
      UnclaimKeeps(w, i);
      assert View() == w.(slots := w.slots[i := FREE_SLOT]);
      hide Inv;
      RuntimeSettle();
      ClaimReleased(w0, w, i, View());
    }

    method CloseLocals(ghost w0: World, ghost w: World, i: nat, p: Pipes)
      requires w == View() && Piped(w0, w, i, p)
      modifies this`heard, this`loose, this`k
      ensures k.sent == old(k.sent)
      ensures Claimed(w0, View(), i) && Closing(old(heard), heard)
    {
      hide Inv, Claimed, Piped, Becomes;
      PipedFacts(w0, w, i, p);
      CleanupPipes(p);
      loose := {};
      PipedUndone(w0, w, i, p, k);
      assert View() == w.(loose := {}, k := k);
    }

    method RecordLeader(ghost w: World, i: nat, leader: int)
      requires View() == w.(k := View().k) && i < |w.slots| == |w.lineage| && w.slots[i] == CLAIMED_SLOT
      modifies this`lineage, this`keeper, slots
      ensures View() == Forked(w, i, leader).(k := old(k)) && k == old(k)
    {
      slots[i] := slots[i].(leader := leader, group := leader);
      lineage := lineage[i := w.k.nextGroup];
      keeper := keeper[leader := i];
    }

    /** fork, and in the parent the record of who leads the new group. */
    method ForkChild(ghost w0: World, ghost w: World, i: nat, p: Pipes) returns (errno: int, leader: int)
      requires w == View() && Piped(w0, w, i, p)
      modifies this`heard, this`k, this`lineage, this`keeper, slots
      ensures k.sent == old(k.sent)
      ensures errno >= 0 && heard == old(heard) + [ForkSaid(errno)]
      ensures if errno == 0 then Launched(w0, View(), i, p, p.Ends()) && View().slots[i].leader == leader
              else Piped(w0, View(), i, p)
    {
      hide Inv, Launched, Piped, Interferes, Mine, Becomes, Forked;
      PipedFacts(w0, w, i, p);
      errno, leader := SystemFork();
      if errno != 0 {
        PipedStays(w0, w, i, p, k);
        assert View() == w.(k := k);
        return;
      }
      RecordLeader(w, i, leader);
      LaunchedFork(w0, w, i, p, leader, k);
    }

    method SetpgidChild(ghost w0: World, ghost w: World, i: nat, p: Pipes, leader: int) returns (errno: int)
      requires w == View() && Launched(w0, w, i, p, p.Ends()) && w.slots[i].leader == leader
      modifies this`heard, this`k
      ensures k.sent == old(k.sent)
      ensures errno >= 0 && heard == old(heard) + [GroupSet(leader, errno)]
      ensures Launched(w0, View(), i, p, p.Ends()) && View().slots[i].leader == leader
    {
      hide Launched, Interferes;
      errno := SystemSetpgid(leader);
      LaunchedStays(w0, w, i, p, k);
      assert View() == w.(k := k);
    }

    method KillChild(ghost w0: World, ghost w: World, i: nat, p: Pipes, leader: int)
      requires w == View() && Launched(w0, w, i, p, p.Ends()) && w.slots[i].leader == leader
      modifies this`heard, this`k
      ensures Launched(w0, View(), i, p, p.Ends()) && View().slots[i].leader == leader
      ensures k.sent == old(k.sent) + [ToGroup(leader, Kill), ToLeader(leader)]
      ensures exists e, f ::
                heard == old(heard) + [Signalled(ToGroup(leader, Kill), e), Signalled(ToLeader(leader), f)]
    {
      hide Launched, Inv, Interferes, Dead;
      var _ := SystemKillGroup(leader, Kill);
      LaunchedSignalled(w0, w, i, p, p.Ends(), ToGroup(leader, Kill), k);
      ghost var w1 := w.(k := k);
      var _ := SystemKill(leader);
      LaunchedSignalled(w0, w1, i, p, p.Ends(), ToLeader(leader), k);
      assert View() == w1.(k := k);
    }

    /** Waits for the killed child, closes the pipes and, if the child was reaped, gives the slot back. */
    method ReapUnpublished(ghost w0: World, ghost w: World, i: nat, p: Pipes, leader: int) returns (errno: int)
      requires w == View() && Launched(w0, w, i, p, p.Ends()) && w.slots[i].leader == leader
      modifies this`heard, this`runtime, this`loose, this`keeper, this`k, slots
      ensures k.sent == old(k.sent)
      ensures errno >= 0 && Valid(View()) && Evolves(w0, View())
      ensures CollectedThenClosed(old(heard), heard, leader, errno)
      ensures if errno == 0 then Refused(w0, View()) else WedgedBy(w0, View(), i)
    {
      hide Launched, Valid, Inv, Evolves, Refused, WedgedBy, Becomes, Interferes, Mine, CollectedThenClosed;
      LaunchedFacts(w0, w, i, p, p.Ends());
      errno := WaitAndClean(w, p, leader);
      if errno != 0 {
        ghost var k1 :| Interferes(w.k, k1) && Becomes(k1, k1.fds - p.Ends(), View().k);
        LaunchedKept(w0, w, i, p, k1, View().k);
        return;
      }
      ghost var k1 :| Interferes(ReapEffect(w.k, leader), k1) && Becomes(k1, k1.fds - p.Ends(), View().k);
      LaunchedDiscarded(w0, w, i, p, k1, View().k);
      GiveBack(w0, w, i, p);
    }

    /** The wait for the killed child, and the six ends. */
    method WaitAndClean(ghost w: World, p: Pipes, leader: int) returns (errno: int)
      requires w == View() && p.Ready() && p.Ends() <= w.k.fds && Mine(w.k, leader)
      modifies this`heard, this`k, this`loose
      ensures errno >= 0 && View() == w.(loose := {}, k := View().k)
      ensures CollectedThenClosed(old(heard), heard, leader, errno)
      ensures if errno == 0 then
                exists k1 :: Interferes(ReapEffect(w.k, leader), k1) && Becomes(k1, k1.fds - p.Ends(), View().k)
              else
                exists k1 :: Interferes(w.k, k1) && Becomes(k1, k1.fds - p.Ends(), View().k)
    {
      hide Interferes, Becomes, Closing;
      var status;
      ghost var h0 := heard;
      errno, status := SystemWaitpid(leader);
      ghost var h1 := heard;
      assert p.Ends() <= k.fds by { ReadyAfterWait(w.k, leader, k, errno); }
      CleanupPipes(p);
      CollectedFirst(h0, h1, heard, leader, errno);
      loose := {};
      assert View() == w.(loose := {}, k := k);
    }

    lemma ReadyAfterWait(k0: Kernel, leader: int, k1: Kernel, errno: int)
      requires if errno == 0 then Interferes(ReapEffect(k0, leader), k1) else Interferes(k0, k1)
      ensures k1.fds == k0.fds
    {
    }

    /** The reaped child's slot is released and the latch settled. */
    method GiveBack(ghost w0: World, ghost w: World, i: nat, p: Pipes)
      requires Launched(w0, w, i, p, p.Ends()) && View() == w.(loose := {}, k := View().k)
      requires View().k.fds == w0.k.fds
      requires Inv(w.(slots := w.slots[i := FREE_SLOT], loose := {}, keeper := w.keeper - {w.slots[i].leader},
                      k := View().k))
      modifies this`runtime, this`keeper, slots
      ensures Valid(View()) && Evolves(w0, View()) && Refused(w0, View())
    {
      DiscardedIsBack(w0, w, i, p);
      LaunchedFacts(w0, w, i, p, p.Ends());
      hide Inv, Evolves, Refused, AnyActive;
      keeper := keeper - {slots[i].leader};
      slots[i] := FREE_SLOT;
      assert View() == w.(slots := w.slots[i := FREE_SLOT], loose := {}, keeper := w.keeper - {w.slots[i].leader},
                          k := k);
      RuntimeSettle();
      DiscardSettled(w0, w, i, View());
    }

    /** The parent's copies of the write ends go. */
    method CloseWriteEnds(ghost w0: World, ghost w: World, i: nat, p: Pipes)
      requires w == View() && Launched(w0, w, i, p, p.Ends())
      modifies this`heard, this`k, this`loose
      ensures k.sent == old(k.sent) && Closing(old(heard), heard)
      ensures Launched(w0, View(), i, p, ReadEnds(p)) && View() == w.(loose := ReadEnds(p), k := View().k)
    {
      hide Becomes, Inv, Interferes, Closing;
      ghost var k0, h0 := k, heard;
      var _ := CloseLocal(p.out.w);
      ghost var k1, h1 := k, heard;
      BecomesFds(k0, k0.fds - {p.out.w}, k1);
      var _ := CloseLocal(p.err.w);
      ghost var k2, h2 := k, heard;
      ClosingOn(h0, h1, h2);
      BecomesTransitive(k0, k1.fds, k1, k1.fds - {p.err.w}, k2);
      BecomesFds(k1, k1.fds - {p.err.w}, k2);
      var _ := CloseLocal(p.setup.w);
      ClosingOn(h0, h2, heard);
      BecomesTransitive(k0, k2.fds, k2, k2.fds - {p.setup.w}, k);
      BecomesFds(k0, k2.fds - {p.setup.w}, k);
      assert k2.fds - {p.setup.w} == w0.k.fds + ReadEnds(p);
      loose := ReadEnds(p);
      LaunchedMoves(w0, w, i, p, p.Ends(), ReadEnds(p), k);
      assert View() == w.(loose := ReadEnds(p), k := k);
    }

    /** The read ends and the next token go into the record. What the child will write on its setup pipe is
        from here on determined. */
    method FillRecord(ghost w: World, i: nat, p: Pipes) returns (handle: nat)
      requires w == View() && i < |w.slots| == |w.wire| && w.nextHandle == HandleOf(w.published)
      modifies this`nextHandle, this`wire, slots
      ensures |View().wire| == |w.wire| && handle == w.nextHandle && SameWires(w, w.(wire := View().wire), i)
      ensures View() == w.(slots := w.slots[i := w.slots[i].(stdoutFd := p.out.r, stderrFd := p.err.r,
                                                              setupFd := p.setup.r, handle := handle)],
                           nextHandle := HandleOf(w.published + 1), wire := View().wire)
    {
      hide HandleOf;
      handle := nextHandle;
      wire := DeterminedWire(i);
      slots[i] := slots[i].(stdoutFd := p.out.r, stderrFd := p.err.r, setupFd := p.setup.r, handle := handle);
      nextHandle := TokenAfter(nextHandle, published);
    }

    ghost method EnterPublished(w: World, i: nat, p: Pipes)
      requires w == View() && i < |w.serial|
      modifies this`loose, this`holder, this`serial, this`published
      ensures View() == w.(serial := w.serial[i := w.published], published := w.published + 1, loose := {},
                           holder := w.holder[p.out.r := (i, Stdout)][p.err.r := (i, Stderr)][p.setup.r := (i, Setup)])
    {
      serial := serial[i := published];
      published := published + 1;
      loose := {};
      holder := holder[p.out.r := (i, Stdout)][p.err.r := (i, Stderr)][p.setup.r := (i, Setup)];
    }

    method DeterminedWire(i: nat) returns (after: seq<seq<byte>>)
      requires i < |wire|
      ensures |after| == |wire| && forall j: nat | j < |wire| && j != i :: after[j] == wire[j]
    {
      var sent: seq<byte> := *;
      after := wire[i := sent];
    }

    method PublishChild(ghost w0: World, ghost w: World, i: nat, p: Pipes, leader: int) returns (handle: nat)
      requires w == View() && Launched(w0, w, i, p, ReadEnds(p)) && w.slots[i].leader == leader
      modifies this`loose, this`holder, this`serial, this`published, this`nextHandle, this`wire, slots
      ensures Valid(View()) && Evolves(w0, View()) && Opened(w0, View(), i, handle, leader)
    {
      hide *;
      LaunchedFacts(w0, w, i, p, ReadEnds(p));
      handle := FillRecord(w, i, p);
      ghost var w1 := View();
      EnterPublished(w1, i, p);
      FilledIsAnnounced(w, w1, View(), i, p);
      SameWiresLaunched(w0, w, i, p, ReadEnds(p), w1.wire);
      LaunchedPublished(w0, w, i, p, w1.wire);
    }

    /** The part of an open that has a slot: pipes, child, group, publication. */
    method OpenClaimed(ghost w0: World, i: nat)
      returns (rc: int, handle: nat, leader: int, err: Error)
      requires Claimed(w0, View(), i)
      modifies this`heard, this`runtime, this`nextHandle, this`k, this`loose, this`holder, this`keeper, this`lineage,
               this`serial, this`published, this`wire, slots
      ensures Valid(View()) && Evolves(w0, View())
      ensures rc == -1 ==> (err.operation == OP_PARENT_SETPGID <==> k.sent != old(k.sent))
      ensures k.sent == old(k.sent)
           || (rc == -1 && exists l :: k.sent == old(k.sent) + [ToGroup(l, Kill), ToLeader(l)])
      ensures OpenAnswered(old(heard), heard, leader, rc, err)
      ensures if rc == 0 then Opened(w0, View(), i, handle, leader)
              else
                && rc == -1
                && err.errno > 0
                && err.operation in {OP_PIPE_STDOUT, OP_PIPE_STDERR, OP_PIPE_SETUP, OP_FD_CLOEXEC, OP_FD_NONBLOCK,
                                     OP_FORK, OP_PARENT_SETPGID}
                && (err.cleanupOperation == OP_NONE ==> Refused(w0, View()))
                && (err.cleanupOperation != OP_NONE ==>
                      && WedgedBy(w0, View(), i) && err.cleanupOperation == OP_WAITPID
                      && err.operation == OP_PARENT_SETPGID)
    {
      hide Adapter.View, Claimed, Piped, Launched, Valid, Evolves, Refused, WedgedBy, Opened, Smooth, GaveUp, Closing,
        OpenAnswered, CollectedThenClosed;
      handle, leader := 0, 0;
      ghost var h0 := heard;
      var p;
      rc, p, err := OpenPipes(w0, View(), i);
      if rc != 0 {
        Unclaim(w0, View(), i);
        OpenWithoutPipes(h0, heard, leader, err);
        return;
      }
      ghost var pipes := heard;
      var errno;
      errno, leader := ForkChild(w0, View(), i, p);
      if errno != 0 {
        CloseLocals(w0, View(), i, p);
        Unclaim(w0, View(), i);
        err := NO_ERROR.Primary(OP_FORK, errno, 0, 0);
        OpenWithoutFork(h0, pipes, heard, 0, err);
        return -1, 0, 0, err;
      }
      errno := SetpgidChild(w0, View(), i, p, leader);
      ghost var grouped := heard;
      if errno != 0 && errno != EACCES && errno != ESRCH && errno != EPERM {
        KillChild(w0, View(), i, p, leader);
        ghost var killed := heard;
        err := NO_ERROR.Primary(OP_PARENT_SETPGID, errno, 0, leader);
        var waitErrno := ReapUnpublished(w0, View(), i, p, leader);
        if waitErrno != 0 {
          err := err.Cleanup(OP_WAITPID, waitErrno);
        }
        OpenWithoutGroup(h0, pipes, grouped, killed, heard, leader, waitErrno, err);
        return -1, 0, 0, err;
      }
      CloseWriteEnds(w0, View(), i, p);
      OpenedSmoothly(h0, pipes, grouped, heard, leader, errno);
      handle := PublishChild(w0, View(), i, p, leader);
      rc, err := 0, NO_ERROR;
    }

    method ProcessOpen(plan: Plan) returns (rc: int, handle: nat, leader: int, err: Error, ghost at: int)
      requires Valid(View())
      modifies this`heard, this`runtime, this`nextHandle, this`k, this`loose, this`holder, this`keeper, this`lineage,
               this`serial, this`published, this`wire, slots
      ensures Valid(View()) && Evolves(old(View()), View())
      ensures rc == 0 || rc == -1
      ensures old(runtime) !in {Open, ChildActive} ==>
                rc == -1 && View() == old(View()) && heard == old(heard) && err.errno == EINVAL
      ensures old(runtime) in {Open, ChildActive} && plan.Unbuildable? ==>
                rc == -1 && View() == old(View()) && heard == old(heard) && err == plan.err
      ensures old(runtime) in {Open, ChildActive} && plan.Built?
              && (forall j: nat | j < |old(View()).slots| :: Active(old(View()), j)) ==>
                rc == -1 && View() == old(View()) && heard == old(heard) && err.errno == EBUSY
      ensures old(runtime) in {Open, ChildActive} && plan.Built?
              && !(forall j: nat | j < |old(View()).slots| :: Active(old(View()), j)) ==>
                OpenAnswered(old(heard), heard, leader, rc, err)
      ensures rc == 0 ==> Opened(old(View()), View(), at, handle, leader)
      ensures rc == -1 ==> plan.Unbuildable? || err.errno > 0
      ensures rc == -1 && plan.Built? ==> (err.operation == OP_PARENT_SETPGID <==> k.sent != old(k.sent))
      ensures k.sent == old(k.sent)
           || (rc == -1 && exists l :: k.sent == old(k.sent) + [ToGroup(l, Kill), ToLeader(l)])
      ensures rc == -1 && plan.Built? && err.cleanupOperation == OP_NONE ==> Refused(old(View()), View())
      ensures rc == -1 && plan.Built? && err.cleanupOperation != OP_NONE ==> WedgedBy(old(View()), View(), at)
    {
      ghost var w := View();
      hide Inv, Evolves, Settled, Opened, Refused, WedgedBy, Claimed, OpenAnswered;
      Untouched(w);
      RefusedAtOnce(w);
      handle, leader, at, err := 0, 0, -1, NO_ERROR;
      if runtime != Open && runtime != ChildActive {
        err := err.Primary(OP_NONE, EINVAL, 0, 0);
        return -1, handle, leader, err, at;
      }
      runtime := ChildActive;
      LatchKeeps(w, ChildActive);
      ghost var w1 := w.(runtime := ChildActive);
      assert View() == w1;
      if plan.Unbuildable? {
        SettleBack(w);
        return -1, handle, leader, plan.err, at;
      }
      var i := ClaimSlot(w1);
      if i < 0 {
        SettleBack(w);
        err := err.Primary(OP_NONE, EBUSY, 0, 0);
        return -1, handle, leader, err, at;
      }
      at := i;
      assert !Active(w, i);
      EntersClaimed(w, View(), i);
      rc, handle, leader, err := OpenClaimed(w, i);
    }

    /** An open that stops before it claims a slot settles the latch where it was. */
    method SettleBack(ghost w: World)
      requires Valid(w) && w.runtime in {Open, ChildActive}
      requires View() == w.(runtime := ChildActive) && Inv(View())
      modifies this`runtime
      ensures View() == w
    {
      hide Inv, AnyActive;
      RuntimeSettle();
      SlotsBackSettled(w, View());
    }

    // ----- Runtime -----

    /** sigaction reading a disposition. */
    method SystemQuery(s: Signal) returns (errno: int, d: Disposition)
      modifies this`heard, this`k
      ensures errno >= 0 && Interferes(old(k), k)
      ensures heard == old(heard) + [Queried(s, errno)]
      ensures errno == 0 ==> d == disposition.Get(s)
    {
      Interfere();
      d := disposition.Get(s);
      errno := *;
      if errno < 0 { errno := 0; }
      heard := heard + [Queried(s, errno)];
    }

    /** sigaction setting a disposition; a failing one changes nothing. */
    method SystemSigaction(s: Signal, d: Disposition) returns (errno: int)
      modifies this`heard, this`k, this`disposition
      ensures errno >= 0 && Interferes(old(k), k)
      ensures heard == old(heard) + [Disposed(s, d, errno)]
      ensures disposition == if errno == 0 then old(disposition).Set(s, d) else old(disposition)
    {
      Interfere();
      errno := *;
      if errno < 0 { errno := 0; }
      if errno == 0 { disposition := disposition.Set(s, d); }
      heard := heard + [Disposed(s, d, errno)];
    }

    method Save(ghost w: World, s: Signal) returns (errno: int)
      requires w == View() && Inv(w) && w.runtime == Opening && !w.installed.Get(s)
      modifies this`heard, this`k, this`saved, this`prior
      ensures errno >= 0 && Inv(View())
      ensures heard == old(heard) + [Queried(s, errno)]
      ensures View() == w.(saved := if errno == 0 then w.saved.Set(s, true) else w.saved,
                           prior := View().prior, k := View().k)
    {
      hide Inv, Settled, Evolves, Interferes;
      var d;
      errno, d := SystemQuery(s);
      if errno == 0 {
        prior := prior.Set(s, d);
        saved := saved.Set(s, true);
        SaveKeeps(w, s, k);
      } else {
        InterferenceKeeps(w, k);
      }
      assert View() == w.(saved := saved, prior := prior, k := k);
    }

    method Install(ghost w: World, s: Signal) returns (errno: int)
      requires w == View() && Inv(w) && w.runtime == Opening && w.saved.Get(s) && !w.installed.Get(s)
      modifies this`heard, this`k, this`installed, this`disposition
      ensures errno >= 0 && Inv(View())
      ensures heard == old(heard) + [Disposed(s, Ours(s), errno)]
      ensures View() == w.(installed := if errno == 0 then w.installed.Set(s, true) else w.installed,
                           disposition := View().disposition, k := View().k)
    {
      hide Inv, Settled, Evolves, Interferes;
      errno := SystemSigaction(s, Ours(s));
      if errno == 0 {
        installed := installed.Set(s, true);
        InstallKeeps(w, s, k);
      } else {
        InterferenceKeeps(w, k);
      }
      assert View() == w.(installed := installed, disposition := disposition, k := k);
    }

    /** Puts the saved disposition back; a failure keeps the flag for a later retry. */
    method Restore(ghost w: World, s: Signal) returns (errno: int)
      requires w == View() && Inv(w) && w.runtime == Opening && w.saved.Get(s) && w.installed.Get(s)
      modifies this`heard, this`k, this`installed, this`disposition
      ensures errno >= 0 && Inv(View())
      ensures heard == old(heard) + [Disposed(s, w.prior.Get(s), errno)]
      ensures View() == w.(installed := if errno == 0 then w.installed.Set(s, false) else w.installed,
                           disposition := View().disposition, k := View().k)
    {
      hide Inv, Settled, Evolves, Interferes;
      errno := SystemSigaction(s, prior.Get(s));
      if errno == 0 {
        installed := installed.Set(s, false);
        RestoreKeeps(w, s, k);
      } else {
        InterferenceKeeps(w, k);
      }
      assert View() == w.(installed := installed, disposition := disposition, k := k);
    }

    /** Forgets a saved disposition that is not needed for a restore. */
    method Forget(ghost w: World, s: Signal)
      requires w == View() && Inv(w) && w.runtime == Opening && !w.installed.Get(s)
      modifies this`saved
      ensures Inv(View()) && View() == w.(saved := w.saved.Set(s, false))
    {
      hide Inv;
      saved := saved.Set(s, false);
      ForgetKeeps(w, s);
      assert View() == w.(saved := saved);
    }

    method Latch(ghost w: World, r: RuntimeState)
      requires w == View() && Inv(w) && w.runtime == Opening
      requires r == Closed ==> forall s :: !w.installed.Get(s) && !w.saved.Get(s)
      requires r == Open ==> forall s :: w.installed.Get(s)
      requires r == RestoreRequired ==> exists s :: w.installed.Get(s)
      requires r != ChildActive
      modifies this`runtime
      ensures Inv(View()) && View() == w.(runtime := r)
    {
      runtime := r;
      ghost var w' := w.(runtime := r);
      assert View() == w';
      assert forall t :: SignalInv(w, t) ==> SignalInv(w', t);
      assert forall i: nat :: Active(w', i) <==> Active(w, i);
      assert AnyActive(w') <==> AnyActive(w);
      assert Interferes(w.k, w.k);
      SignalsKeep(w, w');
    }

    /** Nothing is installed any more: the saved dispositions are forgotten and the runtime is closed. */
    method Abandon(ghost w: World)
      requires w == View() && Inv(w) && w.runtime == Opening && !w.saved.onPipe
      requires w.installed == PerSignal(false, false, false, false)
      modifies this`saved, this`runtime
      ensures Inv(View())
      ensures View() == w.(runtime := Closed, saved := PerSignal(false, false, false, false))
    {
      hide Inv, Adapter.View;
      Forget(View(), SigInt);
      Forget(View(), SigTerm);
      Forget(View(), SigChld);
      Latch(View(), Closed);
    }

    /** One more restore; only the first failure is kept. */
    method RestoreNext(ghost w: World, s: Signal, operation: nat, ghost before: seq<Reply>, given: nat, number: int,
                       ghost r0: Refusal)
      returns (failed: nat, errno: int, ghost r: Refusal)
      requires w == View() && Inv(w) && w.runtime == Opening && w.saved.Get(s) && w.installed.Get(s)
      requires number >= 0 && Restored(before, heard, r0) && Undone(r0, given, number)
      requires operation == RestoreOperation(s)
      modifies this`heard, this`k, this`installed, this`disposition
      ensures errno >= 0 && Inv(View())
      ensures Restored(before, heard, r) && Undone(r, failed, errno) && (number != 0 ==> r == r0)
      ensures View() == w.(installed := View().installed, disposition := View().disposition, k := View().k)
      ensures View().installed == w.installed.Set(s, false) || (View().installed == w.installed && errno != 0)
      ensures number == 0 && errno != 0 ==> View().installed == w.installed
    {
      hide Inv, Restored;
      ghost var h1 := heard;
      errno := Restore(w, s);
      OneRestored(h1, heard);
      r := Earlier(r0, SetRefused(s, errno));
      RestoredOn(before, h1, heard, r0, SetRefused(s, errno));
      failed := given;
      if number != 0 { return given, number, r; }
      if errno != 0 { failed := operation; }
    }

    /** Rolls the given signals back in order. The first failure is the one reported; every signal is tried. */
    method Rollback(ghost w: World, chldInstalled: bool, termInstalled: bool)
      returns (operation: nat, errno: int, ghost r: Refusal)
      requires w == View() && Inv(w) && w.runtime == Opening
      requires w.installed == PerSignal(true, termInstalled, chldInstalled, false)
      requires chldInstalled ==> termInstalled
      requires w.saved.onInt && w.saved.onTerm && w.saved.onChld && !w.saved.onPipe
      modifies this`heard, this`k, this`installed, this`disposition, this`saved, this`runtime
      ensures errno >= 0 && Inv(View())
      ensures Restored(old(heard), heard, r) && Undone(r, operation, errno)
      ensures View() == w.(runtime := View().runtime, saved := View().saved, installed := View().installed,
                           disposition := View().disposition, k := View().k)
      ensures View().runtime == if errno == 0 then Closed else RestoreRequired
    {
      hide Inv, Adapter.View, Restored;
      operation, errno, r := OP_NONE, 0, UNREFUSED;
      ghost var h0 := heard;
      NothingRestored(h0);
      if chldInstalled {
        errno := Restore(w, SigChld);
        OneRestored(h0, heard);
        r := SetRefused(SigChld, errno);
      }
      ghost var w1 := View();
      if termInstalled {
        operation, errno, r := RestoreNext(w1, SigTerm, OP_SIGACTION_RESTORE_TERM, h0, operation, errno, r);
      }
      ghost var w2 := View();
      operation, errno, r := RestoreNext(w2, SigInt, OP_SIGACTION_RESTORE_INT, h0, operation, errno, r);
      ghost var w3 := View();
      if errno != 0 {
        assert w3.installed.Get(SigInt) || w3.installed.Get(SigTerm) || w3.installed.Get(SigChld);
        Latch(w3, RestoreRequired);
        return;
      }
      Abandon(w3);
    }

    /** Saves the three dispositions installed first. A failure forgets what was saved before it. */
    method SaveFirst(ghost w: World) returns (operation: nat, errno: int)
      requires w == View() && Inv(w) && w.runtime == Opening
      requires w.saved == w.installed == PerSignal(false, false, false, false)
      modifies this`heard, this`k, this`saved, this`prior
      ensures errno >= 0 && Inv(View())
      ensures StopsAtRefusal(old(heard), heard, if errno == 0 then UNREFUSED else Refusal(errno, operation, OP_NONE))
      ensures View() == w.(saved := View().saved, prior := View().prior, k := View().k)
      ensures View().saved == if errno == 0 then PerSignal(true, true, true, false) else w.saved
    {
      hide Inv, Adapter.View, StopsAtRefusal;
      ghost var h0 := heard;
      operation := OP_SIGACTION_QUERY_INT;
      errno := Save(w, SigInt);
      OneCall(h0, heard);
      if errno != 0 { return; }
      ghost var w1, h1 := View(), heard;
      operation := OP_SIGACTION_QUERY_TERM;
      errno := Save(w1, SigTerm);
      ghost var w2, h2 := View(), heard;
      OneCall(h1, h2);
      StopsOn(h0, h1, h2, RefusalIn(h2[|h1|]));
      if errno != 0 {
        Forget(w2, SigInt);
        return;
      }
      operation := OP_NONE;
      errno := Save(w2, SigChld);
      OneCall(h2, heard);
      StopsOn(h0, h2, heard, RefusalIn(heard[|h2|]));
      if errno != 0 {
        Forget(View(), SigInt);
        Forget(View(), SigTerm);
      }
    }

    /** The sigset calls that prepare the handler's mask. */
    method SystemMask() returns (errno: int)
      modifies this`heard
      ensures errno >= 0
      ensures heard == old(heard) + [Masked(errno)]
    {
      errno := *;
      if errno < 0 { errno := 0; }
      heard := heard + [Masked(errno)];
    }

    /** SIGPIPE's disposition is saved and SIG_IGN installed, or it is forgotten again. */
    method InstallPipe(ghost w: World) returns (errno: int)
      requires w == View() && Inv(w) && w.runtime == Opening && !w.installed.onPipe && !w.saved.onPipe
      modifies this`heard, this`k, this`installed, this`disposition, this`saved, this`prior
      ensures errno >= 0 && Inv(View()) && StopsAtRefusal(old(heard), heard, SetRefused(SigPipe, errno))
      ensures View() == w.(saved := View().saved, prior := View().prior, installed := View().installed,
                           disposition := View().disposition, k := View().k)
      ensures if errno == 0 then View().installed == w.installed.(onPipe := true)
              else View().installed == w.installed && View().saved == w.saved
    {
      hide Inv, Adapter.View, StopsAtRefusal;
      ghost var h0 := heard;
      errno := Save(w, SigPipe);
      OneCall(h0, heard);
      if errno != 0 { return; }
      ghost var w1, h1 := View(), heard;
      errno := Install(w1, SigPipe);
      OneCall(h1, heard);
      StopsOn(h0, h1, heard, SetRefused(SigPipe, errno));
      if errno != 0 {
        Forget(View(), SigPipe);
      }
    }

    /** An installation that was refused is undone and reported. */
    method GiveUp(ghost w: World, chldInstalled: bool, termInstalled: bool, operation: nat, errno: int,
                  ghost before: seq<Reply>, ghost r: Refusal)
      returns (err: Error)
      requires w == View() && Inv(w) && w.runtime == Opening
      requires w.installed == PerSignal(true, termInstalled, chldInstalled, false)
      requires chldInstalled ==> termInstalled
      requires w.saved.onInt && w.saved.onTerm && w.saved.onChld && !w.saved.onPipe
      requires errno > 0 && StopsAtRefusal(before, heard, r) && r.errno == errno && r.doing == operation
      modifies this`heard, this`k, this`installed, this`disposition, this`saved, this`runtime
      ensures Inv(View()) && SignalsOnly(w, View())
      ensures Transacted(before, heard, -1, err) && err.errno > 0
      ensures View().runtime == if err.cleanupErrno == 0 then Closed else RestoreRequired
    {
      hide Inv, Adapter.View, StopsAtRefusal, Transacted, Restored;
      ghost var h1 := heard;
      var undo, undone, back := Rollback(w, chldInstalled, termInstalled);
      err := Diagnosed(operation, errno, undo, undone);
      RestoredQuietly(h1, heard, back);
      TransactedBack(before, h1, heard, r, err);
    }

    /** Installs in the order SIGINT, SIGTERM, SIGCHLD, SIGPIPE; any failure rolls back what is installed. */
    method InstallAll(ghost w: World) returns (rc: int, err: Error)
      requires w == View() && Inv(w) && w.runtime == Opening
      requires w.installed == PerSignal(false, false, false, false)
      requires w.saved == PerSignal(true, true, true, false)
      modifies this`heard, this`k, this`installed, this`disposition, this`saved, this`prior, this`runtime
      ensures Inv(View())
      ensures SignalsOnly(w, View()) && Transacted(old(heard), heard, rc, err)
      ensures if rc == 0 then View().runtime == Open
              else
                && rc == -1 && err.errno > 0
                && View().runtime == if err.cleanupErrno == 0 then Closed else RestoreRequired
    {
      hide Inv, Adapter.View, StopsAtRefusal, Transacted, FirstRefusal;
      rc, err := -1, NO_ERROR;
      ghost var h0 := heard;
      var errno := Install(w, SigInt);
      ghost var w1, h1 := View(), heard;
      OneCall(h0, h1);
      if errno != 0 {
        Abandon(w1);
        err := err.Primary(OP_SIGACTION_INSTALL_INT, errno, 0, 0);
        NoCall(h1);
        TransactedBack(h0, h1, heard, RefusalIn(h1[|h0|]), err);
        return;
      }
      errno := Install(w1, SigTerm);
      ghost var w2, h2 := View(), heard;
      OneCall(h1, h2);
      StopsOn(h0, h1, h2, SetRefused(SigTerm, errno));
      if errno != 0 {
        err := GiveUp(w2, false, false, OP_SIGACTION_INSTALL_TERM, errno, h0, SetRefused(SigTerm, errno));
        return;
      }
      rc, err := InstallRest(w2, h0);
    }

    /** The two that only ever fail without a number of their own. */
    method InstallRest(ghost w: World, ghost before: seq<Reply>) returns (rc: int, err: Error)
      requires w == View() && Inv(w) && w.runtime == Opening
      requires w.installed == PerSignal(true, true, false, false)
      requires w.saved == PerSignal(true, true, true, false)
      requires StopsAtRefusal(before, heard, UNREFUSED)
      modifies this`heard, this`k, this`installed, this`disposition, this`saved, this`prior, this`runtime
      ensures Inv(View())
      ensures SignalsOnly(w, View()) && Transacted(before, heard, rc, err)
      ensures if rc == 0 then View().runtime == Open
              else
                && rc == -1 && err.errno > 0
                && View().runtime == if err.cleanupErrno == 0 then Closed else RestoreRequired
    {
      hide Inv, Adapter.View, StopsAtRefusal, Transacted, FirstRefusal;
      rc, err := -1, NO_ERROR;
      ghost var h0 := heard;
      var errno := Install(w, SigChld);
      ghost var w1, h1 := View(), heard;
      OneCall(h0, h1);
      StopsOn(before, h0, h1, SetRefused(SigChld, errno));
      if errno != 0 {
        err := GiveUp(w1, false, true, OP_NONE, errno, before, SetRefused(SigChld, errno));
        return;
      }
      errno := InstallPipe(w1);
      ghost var w2 := View();
      StopsOn(before, h1, heard, SetRefused(SigPipe, errno));
      if errno != 0 {
        err := GiveUp(w2, true, true, OP_NONE, errno, before, SetRefused(SigPipe, errno));
        return;
      }
      Latch(w2, Open);
      rc := 0;
      TransactedWell(before, heard, err);
    }

    method RuntimeOpen() returns (rc: int, err: Error)
      requires Valid(View())
      modifies this`heard, this`k, this`installed, this`disposition, this`saved, this`prior, this`runtime
      ensures Valid(View()) && Evolves(old(View()), View())
      ensures SignalsOnly(old(View()), View())
      ensures old(runtime) != Closed ==>
                rc == -1 && View() == old(View()) && heard == old(heard) && err.errno == EBUSY
      ensures old(runtime) == Closed ==> Transacted(old(heard), heard, rc, err)
      ensures old(runtime) == Closed ==>
                if rc == 0 then
                  runtime == Open && prior == host && forall s :: disposition.Get(s) == Ours(s)
                else
                  && rc == -1 && err.errno > 0
                  && runtime == (if err.cleanupErrno == 0 then Closed else RestoreRequired)
                  && (runtime == Closed ==> disposition == host)
    {
      ghost var w := View();
      hide Inv, Settled, Evolves, Transacted;
      err := NO_ERROR;
      if runtime != Closed {
        Untouched(w);
        err := err.Primary(OP_NONE, EBUSY, 0, 0);
        return -1, err;
      }
      runtime := Opening;
      EnteringKeeps(w);
      ghost var w1 := w.(runtime := Opening);
      assert View() == w1;
      rc, err := OpenTransaction(w1);
      SessionSettled(w, View());
    }

    /** The mask, the three queries and the installation, up to the first refusal. */
    method OpenTransaction(ghost w: World) returns (rc: int, err: Error)
      requires w == View() && Inv(w) && w.runtime == Opening
      requires w.saved == w.installed == PerSignal(false, false, false, false)
      modifies this`heard, this`k, this`installed, this`disposition, this`saved, this`prior, this`runtime
      ensures Inv(View())
      ensures SignalsOnly(w, View()) && Transacted(old(heard), heard, rc, err)
      ensures if rc == 0 then View().runtime == Open
              else
                && rc == -1 && err.errno > 0
                && View().runtime == if err.cleanupErrno == 0 then Closed else RestoreRequired
    {
      hide Inv, StopsAtRefusal, Transacted, FirstRefusal;
      rc, err := -1, NO_ERROR;
      ghost var h0 := heard;
      var errno := SystemMask();
      assert View() == w;
      ghost var h1 := heard;
      OneCall(h0, h1);
      NoCall(h1);
      if errno != 0 {
        Latch(w, Closed);
        err := err.Primary(OP_NONE, errno, 0, 0);
        TransactedBack(h0, h1, heard, RefusalIn(h1[|h0|]), err);
        return;
      }
      var operation;
      operation, errno := SaveFirst(w);
      ghost var w2, h2 := View(), heard;
      ghost var r := if errno == 0 then UNREFUSED else Refusal(errno, operation, OP_NONE);
      StopsOn(h0, h1, h2, r);
      if errno != 0 {
        Latch(w2, Closed);
        err := err.Primary(operation, errno, 0, 0);
        NoCall(h2);
        TransactedBack(h0, h2, heard, r, err);
        return;
      }
      rc, err := InstallAll(w2);
      TransactedLater(h0, h2, heard, rc, err);
    }

    /** The first live token, or zero when every active slot is still without one. */
    method FirstLiveHandle() returns (handle: nat)
      ensures handle == 0 ==> forall i: nat :: !Published(View(), i)
      ensures handle != 0 ==> Lookup(slots[..], handle) >= 0
    {
      var index := 0;
      while index < slots.Length
        invariant 0 <= index <= slots.Length
        invariant forall j: nat | j < index :: !(slots[j].active && slots[j].handle != 0)
      {
        if slots[index].active && slots[index].handle != 0 {
          assert slots[..][index].handle == slots[index].handle;
          return slots[index].handle;
        }
        index := index + 1;
      }
      return 0;
    }

    /** Restores a signal that is installed and forgets it; a failed restore leaves it for the next close. */
    method RestoreOne(ghost w: World, s: Signal) returns (errno: int)
      requires w == View() && Inv(w) && w.runtime == Opening
      modifies this`heard, this`k, this`installed, this`disposition, this`saved
      ensures errno >= 0 && Inv(View())
      ensures Restored(old(heard), heard, SetRefused(s, errno))
      ensures View() == w.(saved := View().saved, installed := View().installed,
                           disposition := View().disposition, k := View().k)
      ensures View().installed == w.installed.Set(s, errno != 0) && (errno != 0 ==> w.installed.Get(s))
      ensures View().saved == if errno == 0 then w.saved.Set(s, false) else w.saved
    {
      hide Inv, Settled, Evolves, Interferes, Restored;
      errno := 0;
      ghost var h0 := heard;
      NothingRestored(h0);
      if installed.Get(s) {
        InstalledIsSaved(w, s);
        errno := Restore(w, s);
        OneRestored(h0, heard);
        if errno != 0 { return; }
      } else {
        Interfere();
        InterferenceKeeps(w, k);
        assert View() == w.(k := k);
      }
      Forget(View(), s);
    }

    /** SIGPIPE, SIGCHLD, SIGTERM, SIGINT, each tried whatever happened to the others. */
    method RestoreEach(ghost w: World) returns (e: PerSignal<int>)
      requires w == View() && Inv(w) && w.runtime == Opening
      modifies this`heard, this`k, this`installed, this`disposition, this`saved
      ensures Inv(View())
      ensures Restored(old(heard), heard, FirstOfFour(e))
      ensures View() == w.(saved := View().saved, installed := View().installed,
                           disposition := View().disposition, k := View().k)
      ensures forall s :: e.Get(s) >= 0 && (e.Get(s) != 0 ==> w.installed.Get(s))
      ensures forall s :: View().installed.Get(s) == (e.Get(s) != 0) && (e.Get(s) == 0 ==> !View().saved.Get(s))
    {
      hide Inv, Adapter.View, Restored;
      ghost var h0 := heard;
      var onPipe := RestoreOne(w, SigPipe);
      ghost var h1 := heard;
      var onChld := RestoreOne(View(), SigChld);
      ghost var h2 := heard;
      ghost var r1 := Earlier(SetRefused(SigPipe, onPipe), SetRefused(SigChld, onChld));
      RestoredOn(h0, h1, h2, SetRefused(SigPipe, onPipe), SetRefused(SigChld, onChld));
      var onTerm := RestoreOne(View(), SigTerm);
      ghost var h3 := heard;
      RestoredOn(h0, h2, h3, r1, SetRefused(SigTerm, onTerm));
      var onInt := RestoreOne(View(), SigInt);
      RestoredOn(h0, h3, heard, Earlier(r1, SetRefused(SigTerm, onTerm)), SetRefused(SigInt, onInt));
      e := PerSignal(onInt, onTerm, onChld, onPipe);
    }

    /** All four restores, the first failure reported. */
    method RestoreAll(ghost w: World) returns (operation: nat, errno: int, ghost r: Refusal)
      requires w == View() && Inv(w) && w.runtime == Opening
      modifies this`heard, this`k, this`installed, this`disposition, this`saved, this`runtime
      ensures errno >= 0 && Inv(View()) && SignalsOnly(w, View())
      ensures Restored(old(heard), heard, r) && Undone(r, operation, errno)
      ensures View().runtime == if errno == 0 then Closed else RestoreRequired
      ensures forall s | View().installed.Get(s) :: w.installed.Get(s)
    {
      hide Inv, Adapter.View, Restored;
      var e := RestoreEach(w);
      r := FirstOfFour(e);
      assert e.Get(SigPipe) == e.onPipe && e.Get(SigChld) == e.onChld;
      assert e.Get(SigTerm) == e.onTerm && e.Get(SigInt) == e.onInt;
      operation, errno := OP_NONE, e.onPipe;
      if errno == 0 { errno := e.onChld; }
      if e.onTerm != 0 && errno == 0 { operation, errno := OP_SIGACTION_RESTORE_TERM, e.onTerm; }
      if e.onInt != 0 && errno == 0 { operation, errno := OP_SIGACTION_RESTORE_INT, e.onInt; }
      if errno != 0 {
        Latch(View(), RestoreRequired);
      } else {
        Latch(View(), Closed);
      }
    }

    /** The restoring half of a close, from a runtime without children. */
    method CloseIdle(ghost w: World) returns (rc: int, err: Error, ghost r: Refusal)
      requires w == View() && Valid(w) && w.runtime in {Open, RestoreRequired}
      modifies this`heard, this`k, this`installed, this`disposition, this`saved, this`runtime
      ensures Valid(View()) && Evolves(w, View()) && CloseOutcome(w, View(), rc, err)
      ensures !AnyActive(View()) && View().runtime == if rc == 0 then Closed else RestoreRequired
      ensures Restored(old(heard), heard, r) && if rc == 0 then r == UNREFUSED else RestoreFailed(err, r)
    {
      hide Inv, Evolves, Restored;
      rc, err := 0, NO_ERROR;
      runtime := Opening;
      EnteringKeeps(w);
      ghost var w1 := w.(runtime := Opening);
      assert View() == w1;
      var operation, errno;
      operation, errno, r := RestoreAll(w1);
      if errno != 0 {
        err := err.Primary(operation, errno, 0, 0);
        rc := -1;
      }
      SessionSettled(w, View());
    }

    /** One pass of the drain: aborts the first live child without grace. */
    method AbortFirst(ghost w: World) returns (rc: int, err: Error)
      requires w == View() && Valid(w) && w.runtime == ChildActive
      modifies this`heard, this`runtime, this`freed, this`k, this`clock, this`holder, this`keeper, slots
      ensures Valid(View()) && Evolves(w, View())
      ensures View().installed == w.installed && View().host == w.host && View().published == w.published
      ensures old(heard) <= heard && FirstRefusal(heard, |old(heard)|) == UNREFUSED
      ensures if rc == 0 then
                && View().runtime in {Open, ChildActive} && ActiveCount(View().slots) < ActiveCount(w.slots)
                && !Trouble(heard, |old(heard)|)
              else
                && CloseOutcome(w, View(), -1, err) && View().runtime in {Open, ChildActive}
                && (AnyActive(View()) ==> Remains(View(), heard, |old(heard)|, err))
                && (!AnyActive(View()) ==> Trouble(heard, |old(heard)|))
    {
      hide Inv, Evolves, TermFirst, AbortAnswered, Trouble, FirstRefusal, CloseOutcome;
      Untouched(w);
      err := NO_ERROR;
      ghost var h0 := heard;
      var handle := FirstLiveHandle();
      assert View() == w;
      if handle == 0 {
        err := err.Primary(OP_NONE, EBUSY, 1, 0);
        NoneHasAToken(w, heard, err);
        return -1, err;
      }
      rc, err := ProcessAbort(handle, 0);
      ghost var i := Lookup(w.slots, handle);
      AbortInClose(w, View(), i, rc, err, h0, heard);
      if rc == 0 {
        assert View().slots == w.slots[i := FREE_SLOT];
        FreeingCounts(w.slots, i);
      }
    }

    /** Aborts one live child per pass until none is left or an abort cannot be completed in silence. */
    method DrainChildren(ghost w: World) returns (rc: int, err: Error)
      requires w == View() && Valid(w)
      modifies this`heard, this`runtime, this`freed, this`k, this`clock, this`holder, this`keeper, slots
      ensures Valid(View()) && Evolves(w, View())
      ensures View().installed == w.installed && View().host == w.host && View().published == w.published
      ensures old(heard) <= heard && FirstRefusal(heard, |old(heard)|) == UNREFUSED
      ensures w.runtime != ChildActive ==> rc == 0 && View() == w && heard == old(heard)
      ensures w.runtime == ChildActive && rc == 0 ==> View().runtime == Open
      ensures rc == 0 ==> !Trouble(heard, |old(heard)|)
      ensures rc != 0 ==>
                && rc == -1 && CloseOutcome(w, View(), -1, err) && View().runtime in {Open, ChildActive}
                && (AnyActive(View()) ==> Remains(View(), heard, |old(heard)|, err))
                && (!AnyActive(View()) ==> Trouble(heard, |old(heard)|))
    {
      hide Inv, Settled, Evolves, Trouble, FirstRefusal, Remains, AnyActive;
      Untouched(w);
      rc, err := 0, NO_ERROR;
      ghost var h0 := heard;
      NoCall(h0);
      NoTrouble(h0, |h0|);
      while runtime == ChildActive
        invariant Valid(View()) && Evolves(w, View())
        invariant if w.runtime == ChildActive then View().runtime in {Open, ChildActive} else View() == w && heard == h0
        invariant View().installed == w.installed && View().host == w.host && View().published == w.published
        invariant rc == 0
        invariant h0 <= heard && FirstRefusal(heard, |h0|) == UNREFUSED && !Trouble(heard, |h0|)
        decreases ActiveCount(View().slots)
      {
        ghost var w1, h1 := View(), heard;
        rc, err := AbortFirst(w1);
        RefusalOn(h0, h1, heard);
        TroubleOn(h0, h1, heard);
        EvolvesTransitive(w, w1, View());
        if rc != 0 {
          if AnyActive(View()) { RemainsToo(View(), h0, h1, heard, err); }
          return -1, err;
        }
      }
    }

    method RuntimeClose() returns (rc: int, err: Error)
      requires Valid(View())
      modifies this`heard, this`runtime, this`freed, this`k, this`clock, this`holder, this`keeper, slots,
               this`installed, this`disposition, this`saved
      ensures Valid(View()) && Evolves(old(View()), View())
      ensures CloseOutcome(old(View()), View(), rc, err)
      ensures CloseAnswered(old(View()), View(), old(heard), heard, rc, err)
    {
      ghost var w, h0 := View(), heard;
      hide Inv, Settled, Evolves, CloseOutcome, CloseAnswered, AnyActive, Trouble, FirstRefusal, Remains, Restored;
      Untouched(w);
      rc, err := DrainChildren(w);
      ghost var w1, h1 := View(), heard;
      if rc != 0 {
        StoppedClose(w, w1, h0, h1, err);
      } else if runtime != Open && runtime != RestoreRequired {
        ClosedAlready(w, h0);
        err := NO_ERROR.Primary(OP_NONE, EINVAL, 0, 0);
        rc := -1;
      } else {
        ghost var r;
        rc, err, r := CloseIdle(w1);
        EvolvesTransitive(w, w1, View());
        CloseAfterDrain(w, w1, View(), rc, err, h0, h1, heard, r);
      }
    }
  }
}

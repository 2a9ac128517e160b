/** What holds over whole runs of the adapter: any sequence of ABI calls, with any system call failing
    anywhere, members forking between and during calls, and the host changing its own dispositions while
    the runtime is closed. */
module Histories {
  import opened Kernel
  import opened World
  import opened Steps
  import opened SetupProtocol
  import opened Answers
  import opened AbortAnswers
  import opened Outcomes
  import Adapter
  import Errors

  datatype Call =
    | OpenRuntime
    | CloseRuntime
    | OpenChild(plan: Plan)
    | Read(handle: nat, channel: Channel, capacity: nat)
    | DrainSetup(handle: nat, state: SetupState)
    | CloseChannel(handle: nat, channel: Channel)
    | SignalGroup(handle: nat, action: GroupAction)
    | Observe(handle: nat)
    | Reap(handle: nat)
    | CloseChild(handle: nat)
    | Abort(handle: nat, graceMs: nat)
    | Pass
    | HostWants(signal: Signal, disposition: Disposition)

  /** Consecutive states of one adapter. */
  ghost predicate History(ws: seq<World>) {
    && |ws| > 0
    && (forall i | 0 <= i < |ws| :: Valid(ws[i]))
    && (forall i | 0 <= i < |ws| - 1 :: Evolves(ws[i], ws[i + 1]))
  }

  /** What an event can do to the setup pipe of the child in slot s: drain it, close it, or get rid of the child. */
  ghost predicate MayDisturb(call: Call, w: World, s: nat) {
    match call
    case CloseRuntime => true
    case DrainSetup(h, _) => Lookup(w.slots, h) == s
    case CloseChannel(h, c) => c == Setup && Lookup(w.slots, h) == s
    case CloseChild(h) => Lookup(w.slots, h) == s
    case Abort(h, _) => Lookup(w.slots, h) == s
    case _ => false
  }

  /** Slot s still holds the same token and the same setup pipe, with the same bytes to come. */
  ghost predicate SamePipe(w: World, w': World, s: nat) {
    && Active(w, s) && Active(w', s) && w'.slots[s].handle == w.slots[s].handle
    && w'.slots[s].setupFd == w.slots[s].setupFd
    && s < |w.wire| == |w'.wire| && w'.wire[s] == w.wire[s]
  }

  /** The pipes that an event keeps, and how many children it publishes. */
  ghost predicate KeepsPipes(call: Call, w: World, w': World) {
    && w'.published <= w.published + 1
    && forall s: nat | Published(w, s) && !MayDisturb(call, w, s) :: SamePipe(w, w', s)
  }

  lemma UnchangedPipes(call: Call, w: World, w': World)
    requires Shape(w) && w'.slots == w.slots && w'.wire == w.wire && w'.published == w.published
    ensures KeepsPipes(call, w, w')
  {
  }

  lemma TouchedPipes(call: Call, w: World, w': World, i: nat)
    requires Shape(w) && Touches(w, w', i) && Published(w, i)
    requires MayDisturb(call, w, i) || SamePipe(w, w', i)
    ensures KeepsPipes(call, w, w')
  {
  }

  /** The calls on one child that have nothing to do with its setup pipe. */
  method PerformOnChild(adapter: Adapter.Adapter, call: Call)
    requires Valid(adapter.View()) && (call.Read? || call.SignalGroup? || call.Observe? || call.Reap?)
    modifies adapter, adapter.slots
    ensures Valid(adapter.View()) && Evolves(old(adapter.View()), adapter.View())
    ensures KeepsPipes(call, old(adapter.View()), adapter.View())
  {
    hide Inv, Settled, Evolves;
    ghost var w := adapter.View();
    ghost var i := Lookup(w.slots, call.handle);
    assert Shape(w) by { hide *; ValidShape(w); }
    match call {
      case Read(h, c, capacity) => var _, _, _ := adapter.ProcessRead(h, c, capacity);
      case SignalGroup(h, action) => var _, _, _ := adapter.ProcessGroup(h, action);
      case Observe(h) => var _, _, _ := adapter.ProcessObserve(h);
      case Reap(h) => var _, _, _ := adapter.ProcessReap(h);
    }
    ghost var w' := adapter.View();
    if w' == w {
      UnchangedPipes(call, w, w');
    } else {
      TouchedPipes(call, w, w', i);
    }
  }

  lemma ValidShape(w: World)
    requires Valid(w)
    ensures Shape(w)
  {
  }

  /** The calls on one child that may end its setup pipe. */
  method PerformOnPipe(adapter: Adapter.Adapter, call: Call)
    requires Valid(adapter.View())
    requires call.DrainSetup? || call.CloseChannel? || call.CloseChild? || call.Abort?
    modifies adapter, adapter.slots
    ensures Valid(adapter.View()) && Evolves(old(adapter.View()), adapter.View())
    ensures KeepsPipes(call, old(adapter.View()), adapter.View())
  {
    hide Inv, Settled, Evolves, Drains, Answered, TermFirst, AbortAnswered, ClosedAfter;
    ghost var w := adapter.View();
    assert Shape(w) by { hide *; ValidShape(w); }
    UntouchedEvolves(w, w);
    match call {
      case DrainSetup(h, state) =>
        if |state.raw| == RECORD { var _, _, _ := adapter.ProcessSetupDrain(h, state); }
      case CloseChannel(h, c) => var _, _ := adapter.ProcessChannelClose(h, c);
      case CloseChild(h) => var _, _ := adapter.ProcessClose(h);
      case Abort(h, graceMs) => var _, _ := adapter.ProcessAbort(h, graceMs);
    }
  }

  /** Opening a child. */
  method PerformOpen(adapter: Adapter.Adapter, plan: Plan)
    requires Valid(adapter.View())
    modifies adapter, adapter.slots
    ensures Valid(adapter.View()) && Evolves(old(adapter.View()), adapter.View())
    ensures KeepsPipes(OpenChild(plan), old(adapter.View()), adapter.View())
  {
    hide Inv, Settled, Evolves;
    ghost var w := adapter.View();
    assert Shape(w) by { hide *; ValidShape(w); }
    var rc, _, _, err, at := adapter.ProcessOpen(plan);
  }

  /** One event of a run. The host's own sigaction calls are part of the run only while the runtime is closed,
      and the drain buffer is always eight bytes. */
  method Perform(adapter: Adapter.Adapter, call: Call)
    requires Valid(adapter.View())
    modifies adapter, adapter.slots
    ensures Valid(adapter.View()) && Evolves(old(adapter.View()), adapter.View())
    ensures KeepsPipes(call, old(adapter.View()), adapter.View())
  {
    ghost var w := adapter.View();
    UntouchedEvolves(w, w);
    UnchangedPipes(call, w, w);
    hide Inv, Settled, Evolves;
    match call
    case OpenRuntime => var _, _ := adapter.RuntimeOpen();
    case CloseRuntime => var _, _ := adapter.RuntimeClose();
    case OpenChild(plan) => PerformOpen(adapter, plan);
    case Pass => adapter.Elapse();
    case HostWants(s, d) =>
      if adapter.runtime == Closed && d != Handler { adapter.HostSets(s, d); }
    case Read(_, _, _) => PerformOnChild(adapter, call);
    case SignalGroup(_, _) => PerformOnChild(adapter, call);
    case Observe(_) => PerformOnChild(adapter, call);
    case Reap(_) => PerformOnChild(adapter, call);
    case _ => PerformOnPipe(adapter, call);
  }

  /** Each call keeps the pipes it has nothing to do with. */
  ghost predicate Obeys(calls: seq<Call>, ws: seq<World>) {
    |ws| == |calls| + 1 && forall n: nat | n < |calls| :: KeepsPipes(calls[n], ws[n], ws[n + 1])
  }

  lemma HistoryStarts(ws: seq<World>)
    requires |ws| == 1 && Valid(ws[0])
    ensures History(ws) && Obeys([], ws)
  {
  }

  lemma HistoryGrows(calls: seq<Call>, ws: seq<World>, call: Call, w: World)
    requires History(ws) && Obeys(calls, ws) && Valid(w)
    requires Shape(ws[|calls|]) && Shape(w) && Evolves(ws[|calls|], w) && KeepsPipes(call, ws[|calls|], w)
    ensures History(ws + [w]) && Obeys(calls + [call], ws + [w])
  {
    hide Valid, Evolves, KeepsPipes;
  }

  /** Every run of the adapter from any state is a history. */
  method Run(adapter: Adapter.Adapter, calls: seq<Call>) returns (ghost ws: seq<World>)
    requires Valid(adapter.View())
    modifies adapter, adapter.slots
    ensures History(ws) && |ws| == |calls| + 1
    ensures ws[0] == old(adapter.View()) && ws[|calls|] == adapter.View()
    ensures Obeys(calls, ws)
  {
    ws := [adapter.View()];
    hide *;
    HistoryStarts(ws);
    for i := 0 to |calls|
      invariant Valid(adapter.View()) && History(ws) && |ws| == i + 1
      invariant Obeys(calls[..i], ws)
      invariant ws[0] == old(adapter.View()) && ws[i] == adapter.View()
    {
      Perform(adapter, calls[i]);
      ValidShape(ws[i]);
      ValidShape(adapter.View());
      HistoryGrows(calls[..i], ws, calls[i], adapter.View());
      assert calls[..i + 1] == calls[..i] + [calls[i]];
      ws := ws + [adapter.View()];
    }
    assert calls[..|calls|] == calls;
  }

  /** A run only ever does what single calls may do. */
  lemma {:induction false} EvolvesOver(ws: seq<World>, i: nat, j: nat)
    requires History(ws) && i <= j < |ws|
    ensures Evolves(ws[i], ws[j])
    decreases j - i
  {
    if i == j {
      UntouchedEvolves(ws[i], ws[i]);
    } else {
      EvolvesOver(ws, i, j - 1);
      assert Evolves(ws[j - 1], ws[j - 1 + 1]);
      EvolvesTransitive(ws[i], ws[j - 1], ws[j]);
    }
  }

  // ----- Lost children -----

  /** A child reaped before its group was swept can never be released: its slot keeps its handle, and the
      runtime can never be closed, or even idle, again. */
  lemma StuckForever(ws: seq<World>, i: nat, j: nat, s: nat)
    requires History(ws) && i <= j < |ws| && Stuck(ws[i], s)
    ensures Stuck(ws[j], s) && ws[j].slots[s].handle == ws[i].slots[s].handle
    ensures ws[j].runtime == ChildActive
  {
    EvolvesOver(ws, i, j);
    assert Active(ws[j], s);
  }

  /** A child that could not be reaped during its own open pins its slot, and with it the runtime, for good;
      the child stays an unreaped zombie or a running process of ours, and no handle ever finds it. */
  lemma WedgedForever(ws: seq<World>, i: nat, j: nat, s: nat, handle: nat)
    requires History(ws) && i <= j < |ws| && Wedged(ws[i], s)
    ensures s < |ws[j].slots| == |ws[i].slots| && ws[j].slots[s] == ws[i].slots[s] && ws[j].runtime == ChildActive
    ensures Mine(ws[j].k, ws[i].slots[s].leader)
    ensures Lookup(ws[j].slots, handle) != s
  {
    EvolvesOver(ws, i, j);
    assert Active(ws[j], s);
    assert SlotInv(ws[j], s);
  }

  // ----- Released children -----

  /** A released group is dead at every later moment, holds no child of ours, and belongs to no slot. */
  lemma ReleasedForever(ws: seq<World>, i: nat, j: nat, g: nat)
    requires History(ws) && i <= j < |ws| && g in ws[i].freed
    ensures Dead(ws[j].k, g)
    ensures forall p | Mine(ws[j].k, p) :: ws[j].k.procs[p].group != g
    ensures forall s: nat | Held(ws[j], s) :: ws[j].lineage[s] != g
  {
    EvolvesOver(ws, i, j);
    var w := ws[j];
    forall p | Mine(w.k, p)
      ensures w.k.procs[p].group != g
    {
      var s := w.keeper[p];
      assert SlotInv(w, s) && Held(w, s);
    }
  }

  /** From the moment its handle is published a child is held, with nothing about it undone, until its slot
      is released; and from then on nothing of its group is left that could run. */
  lemma HeldUntilSwept(ws: seq<World>, i: nat, j: nat, s: nat)
    requires History(ws) && i <= j < |ws| && Published(ws[i], s)
    ensures (Keeps(ws[i], ws[j], s) && Published(ws[j], s)) || Dead(ws[j].k, ws[i].lineage[s])
  {
    EvolvesOver(ws, i, j);
    if ws[i].lineage[s] in ws[j].freed {
      ReleasedForever(ws, j, j, ws[i].lineage[s]);
    }
  }

  /** No signal ever went through a number that did not name an unreaped child, and no descriptor was ever
      closed twice. */
  lemma NothingStray(ws: seq<World>, i: nat)
    requires History(ws) && i < |ws|
    ensures ws[i].k.straySignals == 0 && ws[i].k.strayCloses == 0
  {
  }

  // ----- Handles -----

  /** Two tokens are equal exactly if their places in the order of publication differ by a multiple of
      2^64 - 1. */
  lemma TokensCollide(a: nat, b: nat)
    ensures HandleOf(a) == HandleOf(b) <==> (a - b) % TOKENS == 0
    ensures 0 < HandleOf(a) <= TOKENS
  {
  }

  /** Fewer than 2^64 - 1 opens separate the oldest live handle from the newest. */
  ghost predicate Young(w: World)
    requires Shape(w)
  {
    forall i: nat | Published(w, i) :: w.published < w.serial[i] + TOKENS
  }

  /** While no live handle is too old, live handles are distinct, and a lookup finds exactly the published,
      unconsumed ones. */
  lemma LookupFindsThePublished(w: World, i: nat)
    requires Valid(w) && Young(w) && Published(w, i)
    ensures Lookup(w.slots, w.slots[i].handle) == i
    ensures forall j: nat | Published(w, j) && j != i :: w.slots[j].handle != w.slots[i].handle
  {
    forall j: nat | Published(w, j) && j != i
      ensures w.slots[j].handle != w.slots[i].handle
    {
      assert SlotInv(w, i) && SlotInv(w, j);
      assert w.serial[i] != w.serial[j];
      TokensApart(w.serial[i], w.serial[j]);
    }
    var found := Lookup(w.slots, w.slots[i].handle);
    assert found != i ==> Published(w, found);
  }

  lemma TokensApart(a: nat, b: nat)
    requires a != b && -TOKENS < a - b < TOKENS
    ensures HandleOf(a) != HandleOf(b)
  {
  }

  /** A handle once handed out finds its own child as long as that child is held and nothing at all once it
      was consumed, provided neither it nor any live handle has become too old. */
  lemma ConsumedHandlesStayStale(ws: seq<World>, i: nat, j: nat, s: nat)
    requires History(ws) && i <= j < |ws| && Published(ws[i], s)
    requires Young(ws[j]) && ws[j].published < ws[i].serial[s] + TOKENS
    ensures Lookup(ws[j].slots, ws[i].slots[s].handle)
            == if Published(ws[j], s) && Keeps(ws[i], ws[j], s) then s else -1
  {
    var w, w', h := ws[i], ws[j], ws[i].slots[s].handle;
    EvolvesOver(ws, i, j);
    if Published(w', s) && Keeps(w, w', s) {
      LookupFindsThePublished(w', s);
    } else {
      var found := Lookup(w'.slots, h);
      if found >= 0 {
        assert SlotInv(w, s) && SlotInv(w', found);
        assert Published(w', found) && w'.serial[found] < w'.published;
        if Published(w, found) && Keeps(w, w', found) {
          assert w.serial[found] != w.serial[s];
        }
        TokensApart(w.serial[s], w'.serial[found]);
      }
    }
  }

  /** The bound is tight: the token handed out 2^64 - 1 opens after another is the same token. */
  lemma TokensComeBack(n: nat)
    ensures HandleOf(n + TOKENS) == HandleOf(n)
  {
  }

  // ----- Descriptors and children -----

  /** The descriptors the adapter opened and has not closed are exactly the open fields of the active slots,
      no two fields share one, and none is a standard descriptor. */
  lemma DescriptorsConserved(w: World)
    requires Valid(w)
    ensures forall fd :: fd in w.k.fds <==> exists i: nat, c :: Active(w, i) && w.slots[i].Fd(c) == fd && fd >= 0
    ensures forall i: nat, j: nat, c, d | Active(w, i) && Active(w, j) && w.slots[i].Fd(c) == w.slots[j].Fd(d) >= 0 ::
              i == j && c == d
    ensures forall fd | fd in w.k.fds :: fd > 2
  {
    forall fd | fd in w.k.fds
      ensures exists i: nat, c :: Active(w, i) && w.slots[i].Fd(c) == fd && fd >= 0
    {
      var i, c := w.holder[fd].0, w.holder[fd].1;
      assert Active(w, i) && w.slots[i].Fd(c) == fd;
    }
    forall i: nat, j: nat, c, d | Active(w, i) && Active(w, j) && w.slots[i].Fd(c) == w.slots[j].Fd(d) >= 0
      ensures i == j && c == d
    {
      assert w.holder[w.slots[i].Fd(c)] == (i, c);
      assert w.holder[w.slots[j].Fd(d)] == (j, d);
    }
  }

  /** The adapter's children are exactly the unreaped leaders it holds, each in a slot and a group of its own. */
  lemma ChildrenConserved(w: World)
    requires Valid(w)
    ensures forall p :: Mine(w.k, p) <==>
              exists i: nat :: Held(w, i) && !w.slots[i].reaped && w.slots[i].leader == p
    ensures forall i: nat, j: nat | Held(w, i) && Held(w, j) && i != j ::
              && w.lineage[i] != w.lineage[j]
              && (!w.slots[i].reaped && !w.slots[j].reaped ==> w.slots[i].leader != w.slots[j].leader)
    ensures forall i: nat | Held(w, i) && !w.slots[i].reaped ::
              w.k.procs[w.slots[i].leader].group == w.lineage[i]
  {
    forall p | Mine(w.k, p)
      ensures exists i: nat :: Held(w, i) && !w.slots[i].reaped && w.slots[i].leader == p
    {
      assert Held(w, w.keeper[p]);
    }
    forall i: nat | Held(w, i) && !w.slots[i].reaped
      ensures Mine(w.k, w.slots[i].leader) && w.k.procs[w.slots[i].leader].group == w.lineage[i]
      ensures w.keeper[w.slots[i].leader] == i
    {
      assert SlotInv(w, i);
    }
  }

  /** An abort that freed its slot reaped the leader it found unreaped, left nothing of the group able to run,
      and closed every descriptor of the slot and no other. */
  lemma AbortThatFreed(w: World, w': World, i: nat, rc: int, err: Errors.Error)
    requires Valid(w) && Valid(w') && Published(w, i) && AbortOutcome(w, w', i, rc, err)
    requires w'.slots[i] == FREE_SLOT
    ensures !w.slots[i].reaped ==> !Mine(w'.k, w.slots[i].leader)
    ensures Dead(w'.k, w.lineage[i])
    ensures forall fd :: fd in w'.k.fds <==> fd in w.k.fds && forall c :: w.slots[i].Fd(c) != fd
  {
  }

  // ----- Setup -----

  /** What a caller does between two moments: drain the child it is interested in, or anything else. */
  datatype Turn = Drain | Else(call: Call)

  /** The event names another handle, or does not end the setup pipe of the one it names. */
  predicate Spares(call: Call, handle: nat) {
    match call
    case CloseRuntime => false
    case DrainSetup(h, _) => h != handle
    case CloseChannel(h, c) => h != handle || c != Setup
    case CloseChild(h) => h != handle
    case Abort(h, _) => h != handle
    case _ => true
  }

  function DrainCount(script: seq<Turn>): nat {
    if script == [] then 0 else DrainCount(script[..|script| - 1]) + if script[|script| - 1].Drain? then 1 else 0
  }

  /** Nothing published since shadows a handle that is not too old. */
  lemma StillFound(w: World, w': World, i: nat)
    requires Valid(w) && Valid(w') && Evolves(w, w') && Published(w, i) && Active(w', i)
    requires Lookup(w.slots, w.slots[i].handle) == i && w'.slots[i].handle == w.slots[i].handle
    requires w'.published <= w.serial[i] + TOKENS
    ensures Lookup(w'.slots, w.slots[i].handle) == i
  {
    var h := w.slots[i].handle;
    var found := Lookup(w'.slots, h);
    LookupIsFirst(w.slots, h, 0);
    LookupIsFirst(w'.slots, h, 0);
    if found < i {
      assert SlotInv(w, i) && SlotInv(w', found) && Published(w', found);
      TokensApart(w.serial[i], w'.serial[found]);
    }
  }

  lemma {:induction false} LookupIsFirst(slots: seq<Slot>, h: nat, from: nat)
    requires from <= |slots|
    ensures forall j: nat | from <= j < LookupFrom(slots, h, from) :: !(slots[j].active && slots[j].handle == h)
    ensures forall j: nat | from <= j < |slots| && slots[j].active && slots[j].handle == h ::
              0 <= LookupFrom(slots, h, from) <= j
    decreases |slots| - from
  {
    if from < |slots| && !(slots[from].active && slots[from].handle == h) {
      LookupIsFirst(slots, h, from + 1);
    }
  }

  /** The setup pipe of slot i as a drain sees it. */
  ghost function PipeLine(w: World, i: nat, state: SetupState): Line
    requires i < |w.slots| && i < |w.wire|
  {
    Line(state, w.wire[i], w.slots[i].setupFd >= 0)
  }

  /** Between the two states slot i has kept the child that the handle names, and the lookup still finds it. */
  ghost predicate Follows(w: World, w': World, i: nat, handle: nat) {
    && Valid(w) && Valid(w') && Evolves(w, w')
    && i < |w.slots| && Lookup(w.slots, handle) == i
    && i < |w'.slots| == |w'.wire| && Lookup(w'.slots, handle) == i
  }

  lemma FollowsOn(w: World, w1: World, w2: World, i: nat, handle: nat)
    requires Follows(w, w1, i, handle) && Valid(w2) && Evolves(w1, w2)
    requires Active(w2, i) && w2.slots[i].handle == handle && w2.published <= w.serial[i] + TOKENS
    ensures Follows(w, w2, i, handle)
  {
    hide Inv, Settled, Evolves, Lookup;
    ValidShape(w2);
    EvolvesTransitive(w, w1, w2);
    FoundIsPublished(w, handle);
    StillFound(w, w2, i);
  }

  lemma FoundIsPublished(w: World, handle: nat)
    requires Lookup(w.slots, handle) >= 0
    ensures Published(w, Lookup(w.slots, handle)) && w.slots[Lookup(w.slots, handle)].handle == handle
  {
  }

  /** One more drain of the child in slot i. */
  method DrainOnce(adapter: Adapter.Adapter, handle: nat, given: SetupState, ghost w: World, ghost i: nat)
    returns (rc: int, state: SetupState)
    requires Follows(w, adapter.View(), i, handle) && adapter.View().published <= w.serial[i] + TOKENS
    requires |given.raw| == RECORD && given.length <= RECORD
    modifies adapter, adapter.slots
    ensures Follows(w, adapter.View(), i, handle)
    ensures adapter.View().published == old(adapter.View()).published
    ensures Drains(PipeLine(old(adapter.View()), i, given), PipeLine(adapter.View(), i, state), rc)
  {
    hide Inv, Settled, Evolves, Drains, Answered;
    ghost var w1 := adapter.View();
    FoundIsPublished(w1, handle);
    var err;
    rc, state, err := adapter.ProcessSetupDrain(handle, given);
    FollowsOn(w, w1, adapter.View(), i, handle);
  }

  /** Anything but the end of that pipe. */
  method ElseOnce(adapter: Adapter.Adapter, handle: nat, call: Call, ghost state: SetupState, ghost w: World,
                  ghost i: nat)
    requires Follows(w, adapter.View(), i, handle) && adapter.View().published < w.serial[i] + TOKENS
    requires Spares(call, handle)
    modifies adapter, adapter.slots
    ensures Follows(w, adapter.View(), i, handle)
    ensures adapter.View().published <= old(adapter.View()).published + 1
    ensures PipeLine(adapter.View(), i, state) == PipeLine(old(adapter.View()), i, state)
  {
    hide Inv, Settled, Evolves, Lookup, Adapter.Adapter.View;
    ghost var w1 := adapter.View();
    FoundIsPublished(w1, handle);
    ValidShape(w1);
    Perform(adapter, call);
    assert !MayDisturb(call, w1, i) && SamePipe(w1, adapter.View(), i);
    FollowsOn(w, w1, adapter.View(), i, handle);
  }

  /** Draining the same child again and again, whatever the reads and closes answer and whatever else is done to
      the adapter in between, is a drain run: only draining that pipe into another record, closing it by other
      means and getting rid of the child are left out, and opening so many children that its token comes round
      again. */
  method DrainAgainAndAgain(adapter: Adapter.Adapter, handle: nat, script: seq<Turn>)
    returns (state: SetupState, ghost lines: seq<Line>, ghost rcs: seq<int>)
    requires Valid(adapter.View()) && Lookup(adapter.View().slots, handle) >= 0
    requires forall n: nat | n < |script| && script[n].Else? :: Spares(script[n].call, handle)
    requires var w := adapter.View();
             Shape(w) && w.published + |script| <= w.serial[Lookup(w.slots, handle)] + TOKENS
    modifies adapter, adapter.slots
    ensures Valid(adapter.View()) && DrainRun(lines, rcs) && |rcs| == DrainCount(script)
    ensures var w, w', i := old(adapter.View()), adapter.View(), Lookup(old(adapter.View()).slots, handle);
            && i < |w'.slots| == |w'.wire| && Shape(w) && Lookup(w'.slots, handle) == i
            && lines[0] == PipeLine(w, i, FRESH) && lines[|rcs|] == PipeLine(w', i, state)
  {
    ghost var w := adapter.View();
    ghost var i: nat := Lookup(w.slots, handle);
    hide Inv, Settled, Evolves, Adapter.Adapter.View, Drains, Lookup, DrainRun, DrainCount, WellFormed;
    state := FRESH;
    lines, rcs := [PipeLine(w, i, FRESH)], [];
    Untouched(w);
    RunStarts(lines, rcs, script);
    for n := 0 to |script|
      invariant Follows(w, adapter.View(), i, handle) && adapter.View().published <= w.published + n
      invariant DrainRun(lines, rcs) && |lines| == |rcs| + 1 && |rcs| == DrainCount(script[..n])
      invariant lines[0] == PipeLine(w, i, FRESH) && lines[|rcs|] == PipeLine(adapter.View(), i, state)
      invariant |state.raw| == RECORD && state.length <= RECORD
    {
      CountOneMore(script, n);
      if script[n].Drain? {
        ghost var before := lines[|rcs|];
        var rc;
        rc, state := DrainOnce(adapter, handle, state, w, i);
        DrainRunGrows(lines, rcs, PipeLine(adapter.View(), i, state), rc);
        rcs := rcs + [rc];
        lines := lines + [PipeLine(adapter.View(), i, state)];
      } else {
        ElseOnce(adapter, handle, script[n].call, state, w, i);
      }
    }
    assert script[..|script|] == script;
  }

  lemma RunStarts(lines: seq<Line>, rcs: seq<int>, script: seq<Turn>)
    requires |lines| == 1 && lines[0].state == FRESH && rcs == []
    ensures DrainRun(lines, rcs) && DrainCount(script[..0]) == 0
  {
  }

  lemma CountOneMore(script: seq<Turn>, n: nat)
    requires n < |script|
    ensures DrainCount(script[..n + 1]) == DrainCount(script[..n]) + if script[n].Drain? then 1 else 0
  {
    assert script[..n + 1][..n] == script[..n];
  }

  lemma DrainRunGrows(lines: seq<Line>, rcs: seq<int>, l: Line, rc: int)
    requires DrainRun(lines, rcs) && |lines| == |rcs| + 1
    requires |lines[|rcs|].state.raw| == RECORD && lines[|rcs|].state.length <= RECORD
    requires Drains(lines[|rcs|], l, rc)
    ensures DrainRun(lines + [l], rcs + [rc]) && |l.state.raw| == RECORD && l.state.length <= RECORD
  {
  }

  // ----- Signals -----

  /** At every moment of a run, a set flag means that the kernel holds the adapter's disposition and that what
      will be restored is the host's own, and a clear flag means that the kernel holds the host's. */
  lemma FlagsTellTheDisposition(ws: seq<World>, i: nat, s: Signal)
    requires History(ws) && i < |ws|
    ensures ws[i].installed.Get(s) ==>
              ws[i].disposition.Get(s) == Ours(s) && ws[i].prior.Get(s) == ws[i].host.Get(s) != Handler
    ensures !ws[i].installed.Get(s) ==> ws[i].disposition.Get(s) == ws[i].host.Get(s)
    ensures (ws[i].installed.Get(s) <==> ws[i].disposition.Get(s) == Ours(s))
       <==> (ws[i].installed.Get(s) || ws[i].host.Get(s) != Ours(s))
  {
    assert SignalInv(ws[i], s);
  }

  /** A runtime nobody ever opened, on a host that leaves SIGCHLD at its default: the kernel holds the
      disposition the adapter would install, and no flag is set. */
  lemma DefaultHostLooksInstalled()
    ensures exists w: World :: Valid(w) && !w.installed.onChld && w.disposition.onChld == Ours(SigChld)
  {
    var quiet := PerSignal(Default, Default, Default, Default);
    var clear := PerSignal(false, false, false, false);
    var w := World(Closed, [], [], [], [], 1, 0, clear, clear, quiet, quiet, quiet, {}, map[], map[], {},
                   Kernel(map[], 0, {}, 0, 0, []));
    assert forall s :: SignalInv(w, s) by {
      assert forall s :: quiet.Get(s) == Default && !clear.Get(s);
    }
    assert HandleOf(0) == 1;
    assert Valid(w);
  }

  /** What the latch says about the signals: a closed runtime has given all four back, a runtime that still
      owes a restore has a flag set, and one in use holds all four. */
  lemma LatchTellsTheSignals(ws: seq<World>, i: nat)
    requires History(ws) && i < |ws|
    ensures ws[i].runtime == Closed ==> ws[i].disposition == ws[i].host
    ensures ws[i].runtime == RestoreRequired ==>
              exists s :: ws[i].installed.Get(s) && ws[i].disposition.Get(s) == Ours(s)
    ensures ws[i].runtime in {Open, ChildActive} ==>
              ws[i].prior == ws[i].host && forall s :: ws[i].installed.Get(s) && ws[i].disposition.Get(s) == Ours(s)
    ensures ws[i].runtime in {Closed, Open, RestoreRequired} <==> forall s: nat :: !Active(ws[i], s)
    ensures ws[i].runtime != Opening
  {
    var w := ws[i];
    assert AnyActive(w) <==> exists s: nat :: Active(w, s);
    forall s: Signal
      ensures !w.installed.Get(s) ==> w.disposition.Get(s) == w.host.Get(s)
      ensures w.installed.Get(s) ==> w.disposition.Get(s) == Ours(s) && w.prior.Get(s) == w.host.Get(s)
    {
      assert SignalInv(w, s);
    }
    if w.runtime == Closed {
      SameDispositions(w.disposition, w.host);
    }
    if w.runtime in {Open, ChildActive} {
      SameDispositions(w.prior, w.host);
    }
  }

  // ----- A close that stops half-way -----

  /** Everything a close can owe its end in OPEN to: one child, the answers heard while it was aborted, and the
      states around that abort. */
  ghost predicate EndsOpen(w: World, w': World, err: Errors.Error, log: seq<Reply>) {
    && Valid(w) && Valid(w') && w.runtime == ChildActive && w'.runtime == Open
    && Evolves(w, w') && Published(w, 0)
    && AbortOutcome(w, w', 0, -1, err)
    && AbortAnswered([], log, w.slots[0], 0, true, -1, err)
    && TermFirst(w.k, w'.k, w.slots[0].leader)
    && CloseOutcome(w, w', -1, err) && CloseAnswered(w, w', [], log, -1, err)
  }

  const HELD_SLOT := Slot(true, 1, 100, 100, -1, -1, -1, true, false, true)

  /** One observed and swept child, or none any more. */
  function OneChild(held: bool): World {
    var quiet := PerSignal(Ignore, Ignore, Default, Default);
    var ours := PerSignal(Handler, Handler, Default, Ignore);
    var set4 := PerSignal(true, true, true, true);
    if held then
      World(ChildActive, [HELD_SLOT], [0], [0], [[]], 2, 1, set4, set4, quiet, quiet, ours, {}, map[], map[100 := 0],
            {}, Kernel(map[100 := Proc(0, false, true)], 1, {}, 0, 0, []))
    else
      World(Open, [FREE_SLOT], [0], [0], [[]], 2, 1, set4, set4, quiet, quiet, ours, {}, map[], map[],
            {0}, Kernel(map[], 1, {}, 0, 0, [ToGroup(100, Term)]))
  }

  lemma OneChildIsValid(held: bool)
    ensures Valid(OneChild(held))
  {
    var w := OneChild(held);
    assert w.slots[0] == if held then HELD_SLOT else FREE_SLOT;
    assert Active(w, 0) <==> held;
    assert SlotInv(w, 0);
    assert HandleOf(0) == 1 && HandleOf(1) == 2;
    assert forall s :: SignalInv(w, s) by {
      forall s ensures SignalInv(w, s) {
        match s case SigInt => case SigTerm => case SigChld => case SigPipe =>
      }
    }
  }

  const UNREADABLE_CLOCK := Errors.Error(Errors.OP_CLOCK_MONOTONIC, EIO, 0, 0, 0, 0)

  lemma OneChildAborted()
    ensures Published(OneChild(true), 0) && Shape(OneChild(true)) && !AnyActive(OneChild(false))
    ensures AbortOutcome(OneChild(true), OneChild(false), 0, -1, UNREADABLE_CLOCK)
  {
    hide Inv, Settled, Evolves;
    var w, w' := OneChild(true), OneChild(false);
    assert w.slots[0] == HELD_SLOT && w'.slots[0] == FREE_SLOT;
    assert forall j: nat :: !Active(w', j);
    assert !UNREADABLE_CLOCK.Silent();
  }

  lemma OneChildEvolves()
    ensures Evolves(OneChild(true), OneChild(false))
  {
    var w, w' := OneChild(true), OneChild(false);
    assert w.slots[0] == HELD_SLOT && w'.slots[0] == FREE_SLOT;
    assert w.lineage[0] in w'.freed;
  }

  const ABORT_LOG := [Signalled(ToGroup(100, Term), 0), ClockSaid(false, 0), Collected(100, 0, 0)]

  lemma OneChildAnswered()
    ensures AbortAnswered([], ABORT_LOG, HELD_SLOT, 0, true, -1, UNREADABLE_CLOCK)
    ensures Trouble(ABORT_LOG, 0)
  {
    var asked := ABORT_LOG[..2];
    assert ABORT_LOG[..0] == [] && asked == [Signalled(ToGroup(100, Term), 0), ClockSaid(false, 0)];
    assert asked[..1] == [Signalled(ToGroup(100, Term), 0)];
    assert Tried([], asked[..1], ToGroup(100, Term));
    assert ABORT_LOG[2..] == [Collected(100, 0, 0)];
    assert Forced(asked, ABORT_LOG, 100, true, true);
    GraceKept([], asked, asked, ABORT_LOG, 100, 0, true, true, true, true);
    assert Troubled(ABORT_LOG, 1);
  }

  /** The failure is real: the last child is observed and swept, the clock cannot be read after the TERM, the
      child is reaped and its slot freed, and the close gives up on that diagnostic, OPEN and with no child. */
  lemma CloseCanEndOpen()
    ensures exists w: World, w': World, err: Errors.Error, log: seq<Reply> :: EndsOpen(w, w', err, log)
  {
    hide Inv, Settled, Evolves, AbortOutcome, AbortAnswered, Trouble;
    var w, w' := OneChild(true), OneChild(false);
    OneChildIsValid(true);
    OneChildIsValid(false);
    OneChildAborted();
    OneChildEvolves();
    OneChildAnswered();
    assert w.slots[0] == HELD_SLOT;
    assert EndsOpen(w, w', UNREADABLE_CLOCK, ABORT_LOG);
  }
}

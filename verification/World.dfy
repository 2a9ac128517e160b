/** The state of the exec adapter as one value: its static variables, its slot table, and the kernel
    around it, with the invariant every ABI call keeps and the relation every ABI call stays inside. */
module World {
  import opened Kernel

  /** Runtime latch. */
  datatype RuntimeState = Closed | Opening | Open | ChildActive | RestoreRequired

  datatype Channel = Stdout | Stderr | Setup

  /** One record of the slot table together with its lifecycle latch. */
  datatype Slot = Slot(
    active: bool,
    handle: nat,
    leader: int,
    group: int,
    stdoutFd: int,
    stderrFd: int,
    setupFd: int,
    observed: bool,
    reaped: bool,
    swept: bool)
  {
    function Fd(c: Channel): int {
      match c
      case Stdout => stdoutFd
      case Stderr => stderrFd
      case Setup => setupFd
    }

    function WithFd(c: Channel, fd: int): Slot {
      match c
      case Stdout => this.(stdoutFd := fd)
      case Stderr => this.(stderrFd := fd)
      case Setup => this.(setupFd := fd)
    }

    predicate ChannelsClosed() {
      stdoutFd < 0 && stderrFd < 0 && setupFd < 0
    }
  }

  /** A released record is zeroed. */
  const FREE_SLOT := Slot(false, 0, 0, 0, 0, 0, 0, false, false, false)

  /** A claimed record before its child exists. */
  const CLAIMED_SLOT := Slot(true, 0, 0, 0, -1, -1, -1, false, false, false)

  const TOKENS := 0xFFFF_FFFF_FFFF_FFFF

  /** The generation token of the n-th published child: 1, 2, ..., 2^64-1, then 1 again. */
  function HandleOf(n: nat): nat {
    n % TOKENS + 1
  }

  /** `lineage[i]` is the group incarnation of slot i's leader and `serial[i]` its place in the order of
      publication. `wire[i]` holds the setup bytes its child has still to deliver. `host` is what the
      embedding program asked for each signal. `loose` holds descriptors kept in local variables of a
      call in progress, `holder` and `keeper` say which slot a descriptor or an unreaped child belongs
      to, and `freed` collects the groups of the slots released so far. */
  datatype World = World(
    runtime: RuntimeState,
    slots: seq<Slot>,
    lineage: seq<nat>,
    serial: seq<nat>,
    wire: seq<seq<byte>>,
    nextHandle: nat,
    published: nat,
    saved: PerSignal<bool>,
    installed: PerSignal<bool>,
    prior: PerSignal<Disposition>,
    host: PerSignal<Disposition>,
    disposition: PerSignal<Disposition>,
    loose: set<int>,
    holder: map<int, (nat, Channel)>,
    keeper: map<int, nat>,
    freed: set<nat>,
    k: Kernel)

  ghost predicate Active(w: World, i: nat) {
    i < |w.slots| && w.slots[i].active
  }

  ghost predicate AnyActive(w: World) {
    exists i: nat :: Active(w, i)
  }

  /** The slot's token has been handed to a caller and not consumed. */
  ghost predicate Published(w: World, i: nat) {
    Active(w, i) && w.slots[i].handle != 0
  }

  /** An open that could not prove its child reaped: the slot stays claimed and has no token. */
  ghost predicate Wedged(w: World, i: nat) {
    Active(w, i) && w.slots[i].handle == 0 && w.slots[i].leader != 0
  }

  /** The leader was reaped before its group was swept. */
  ghost predicate Stuck(w: World, i: nat) {
    Published(w, i) && w.slots[i].reaped && !w.slots[i].swept
  }

  ghost predicate Shape(w: World) {
    |w.lineage| == |w.slots| && |w.serial| == |w.slots| && |w.wire| == |w.slots|
  }

  /** The kernel holds the adapter's disposition where the installed flag is set and the host's own
      everywhere else, and whatever was saved is the host's. */
  ghost predicate SignalInv(w: World, s: Signal) {
    && w.disposition.Get(s) == (if w.installed.Get(s) then Ours(s) else w.host.Get(s))
    && (w.installed.Get(s) ==> w.saved.Get(s))
    && (w.saved.Get(s) ==> w.prior.Get(s) == w.host.Get(s))
    && w.host.Get(s) != Handler
  }

  ghost predicate RuntimeInv(w: World) {
    && (w.runtime == Closed ==> forall s :: !w.installed.Get(s) && !w.saved.Get(s))
    && (w.runtime in {Open, ChildActive} ==> forall s :: w.installed.Get(s))
    && (w.runtime == RestoreRequired ==> exists s :: w.installed.Get(s))
    && (w.runtime in {Closed, Opening, RestoreRequired} ==> !AnyActive(w))
  }

  ghost predicate SlotInv(w: World, i: nat)
    requires Shape(w) && i < |w.slots|
  {
    var s := w.slots[i];
    if !s.active then s == FREE_SLOT
    else
      && s.group == s.leader
      && (s.leader != 0 ==> w.lineage[i] < w.k.nextGroup)
      && (s.leader == 0 ==> s == CLAIMED_SLOT)
      && (s.handle == 0 ==> s.ChannelsClosed() && !s.observed && !s.reaped && !s.swept)
      && (s.handle != 0 ==> s.leader != 0 && w.serial[i] < w.published && s.handle == HandleOf(w.serial[i]))
      && (s.leader != 0 && !s.reaped ==>
            && Mine(w.k, s.leader)
            && w.k.procs[s.leader].group == w.lineage[i]
            && (s.observed ==> !w.k.procs[s.leader].live))
      && (s.reaped ==> s.observed)
      && (s.swept ==> Dead(w.k, w.lineage[i]))
  }

  ghost predicate HandlesInv(w: World)
    requires Shape(w)
  {
    && w.nextHandle == HandleOf(w.published)
    && forall i: nat, j: nat | i < j && Published(w, i) && Published(w, j) :: w.serial[i] != w.serial[j]
  }

  /** Every open descriptor is in exactly one slot field or in one local variable, and none is a
      standard descriptor once it has reached a slot. */
  ghost predicate FdsInv(w: World) {
    && w.k.fds == w.holder.Keys + w.loose
    && w.holder.Keys !! w.loose
    && (forall fd | fd in w.holder ::
          && fd > 2
          && Active(w, w.holder[fd].0)
          && w.slots[w.holder[fd].0].Fd(w.holder[fd].1) == fd)
    && (forall i: nat, c | Active(w, i) && w.slots[i].Fd(c) >= 0 ::
          w.slots[i].Fd(c) in w.holder && w.holder[w.slots[i].Fd(c)] == (i, c))
    && (forall i: nat, c | Active(w, i) :: w.slots[i].Fd(c) >= -1)
  }

  /** The unreaped children of the adapter are exactly the unreaped leaders of its active slots. */
  ghost predicate ChildrenInv(w: World) {
    && (forall p :: Mine(w.k, p) <==> p in w.keeper)
    && (forall p | p in w.keeper ::
          && Active(w, w.keeper[p])
          && w.slots[w.keeper[p]].leader == p
          && p != 0
          && !w.slots[w.keeper[p]].reaped)
    && (forall i: nat | Active(w, i) && w.slots[i].leader != 0 && !w.slots[i].reaped ::
          w.slots[i].leader in w.keeper && w.keeper[w.slots[i].leader] == i)
  }

  ghost predicate FreedInv(w: World) {
    forall g | g in w.freed :: g < w.k.nextGroup && Dead(w.k, g)
  }

  /** Slot i holds a child, published or not. */
  ghost predicate Held(w: World, i: nat) {
    Active(w, i) && w.slots[i].leader != 0
  }

  /** No two held children share a group, and none is in a group already released. */
  ghost predicate LineageInv(w: World)
    requires Shape(w)
  {
    && (forall i: nat | Held(w, i) :: w.lineage[i] !in w.freed)
    && (forall i: nat, j: nat | i < j && Held(w, i) && Held(w, j) :: w.lineage[i] != w.lineage[j])
  }

  /** The part of the invariant that every single step keeps, in the middle of a call too. */
  ghost predicate Inv(w: World) {
    && Shape(w)
    && (forall s :: SignalInv(w, s))
    && RuntimeInv(w)
    && (forall i: nat | i < |w.slots| :: SlotInv(w, i))
    && HandlesInv(w)
    && FdsInv(w)
    && ChildrenInv(w)
    && FreedInv(w)
    && LineageInv(w)
    && GroupsBelow(w.k)
    && w.k.strayCloses == 0
    && w.k.straySignals == 0
  }

  /** No call is in progress. */
  ghost predicate Settled(w: World) {
    && w.loose == {}
    && w.runtime != Opening
    && (w.runtime == ChildActive <==> AnyActive(w))
    && (forall i: nat | Active(w, i) :: w.slots[i].leader != 0)
  }

  ghost predicate Valid(w: World) {
    Inv(w) && Settled(w)
  }

  /** A record that is still held only closes channels and sets flags. */
  ghost predicate Advances(s: Slot, s': Slot) {
    && s'.active == s.active && s'.handle == s.handle && s'.leader == s.leader && s'.group == s.group
    && (forall c :: s'.Fd(c) == s.Fd(c) || s'.Fd(c) == -1)
    && (s.observed ==> s'.observed)
    && (s.reaped ==> s'.reaped)
    && (s.swept ==> s'.swept)
  }

  /** Slot i still holds the same child. */
  ghost predicate Keeps(w: World, w': World, i: nat)
    requires Shape(w) && Shape(w') && Active(w, i)
  {
    && Active(w', i)
    && w'.serial[i] == w.serial[i]
    && w'.lineage[i] == w.lineage[i]
    && Advances(w.slots[i], w'.slots[i])
  }

  /** What any number of ABI calls can do to the adapter. A published child is still held, or its slot was
      released and its group recorded as freed. A wedged slot does not change, and a slot reaped before its
      sweep stays that way. Whatever is published and was not held before is newer than all that was. */
  ghost predicate Evolves(w: World, w': World)
    requires Shape(w) && Shape(w')
  {
    && |w'.slots| == |w.slots|
    && w.published <= w'.published
    && w.freed <= w'.freed
    && (forall i: nat | Published(w, i) :: Keeps(w, w', i) || w.lineage[i] in w'.freed)
    && (forall i: nat | Wedged(w, i) :: Keeps(w, w', i) && w'.slots[i] == w.slots[i])
    && (forall i: nat | Stuck(w, i) :: Keeps(w, w', i) && Stuck(w', i))
    && (forall i: nat | Published(w', i) :: (Published(w, i) && Keeps(w, w', i)) || w.published <= w'.serial[i])
  }

  lemma EvolvesTransitive(a: World, b: World, c: World)
    requires Inv(a) && Inv(b) && Inv(c)
    requires Evolves(a, b) && Evolves(b, c)
    ensures Evolves(a, c)
  {
    forall i: nat | Published(a, i)
      ensures Keeps(a, c, i) || a.lineage[i] in c.freed
    {
      if Keeps(a, b, i) {
        assert Published(b, i);
      }
    }
    forall i: nat | Wedged(a, i)
      ensures Keeps(a, c, i) && c.slots[i] == a.slots[i]
    {
      assert Wedged(b, i);
    }
    forall i: nat | Stuck(a, i)
      ensures Keeps(a, c, i) && Stuck(c, i)
    {
      assert Stuck(b, i);
    }
    forall i: nat | Published(c, i)
      ensures (Published(a, i) && Keeps(a, c, i)) || a.published <= c.serial[i]
    {
      if Published(b, i) && Keeps(b, c, i) {
        assert (Published(a, i) && Keeps(a, b, i)) || a.published <= b.serial[i];
      }
    }
  }

  /** Only slot i, its bookkeeping and the kernel differ. */
  ghost predicate Touches(w: World, w': World, i: nat) {
    && |w'.slots| == |w.slots|
    && |w'.wire| == |w.wire|
    && w' == w.(slots := w'.slots, wire := w'.wire, holder := w'.holder, keeper := w'.keeper, k := w'.k)
    && (forall j: nat | j < |w.slots| && j != i :: w'.slots[j] == w.slots[j])
    && (forall j: nat | j < |w.wire| && j != i :: w'.wire[j] == w.wire[j])
  }

  /** Some setup bytes of slot i's child were delivered. */
  ghost function Delivered(w: World, i: nat, rest: seq<byte>, k: Kernel): World
    requires i < |w.wire|
  {
    w.(wire := w.wire[i := rest], k := k)
  }

  lemma DeliveredOn(w: World, i: nat, rest: seq<byte>, k: Kernel, less: seq<byte>, k': Kernel)
    requires i < |w.wire|
    ensures |Delivered(w, i, rest, k).wire| == |w.wire|
    ensures Delivered(Delivered(w, i, rest, k), i, less, k') == Delivered(w, i, less, k')
    ensures Delivered(w, i, w.wire[i], w.k) == w
  {
    assert w.wire[i := w.wire[i]] == w.wire;
  }

  lemma DeliveredTouches(w: World, i: nat, rest: seq<byte>, k: Kernel)
    requires i < |w.wire|
    ensures var w' := Delivered(w, i, rest, k);
            Touches(w, w', i) && w'.slots == w.slots && w'.wire == w.wire[i := rest]
  {
  }

  lemma TouchesSelf(w: World, i: nat)
    ensures Touches(w, w, i)
  {
  }

  lemma TouchesByKernel(a: World, b: World, c: World, i: nat)
    requires Touches(a, b, i) && c == b.(k := c.k)
    ensures Touches(a, c, i)
  {
  }

  lemma TouchesTransitive(a: World, b: World, c: World, i: nat)
    requires Touches(a, b, i) && Touches(b, c, i)
    ensures Touches(a, c, i)
  {
  }

  lemma TouchesEvolves(w: World, w': World, i: nat)
    requires Inv(w) && Inv(w') && Touches(w, w', i) && Published(w, i)
    requires Advances(w.slots[i], w'.slots[i])
    requires Stuck(w, i) ==> Stuck(w', i)
    ensures Evolves(w, w')
  {
  }

  lemma TouchesSettled(w: World, w': World, i: nat)
    requires Valid(w) && Inv(w') && Touches(w, w', i) && Active(w, i)
    requires Advances(w.slots[i], w'.slots[i])
    ensures Settled(w')
  {
    assert forall j: nat :: Active(w, j) <==> Active(w', j);
    assert AnyActive(w) <==> AnyActive(w');
  }

  /** A call that only filled a free slot, or filled and emptied it again. */
  lemma FreshSlotEvolves(w: World, w': World, i: nat)
    requires Shape(w) && Shape(w') && |w'.slots| == |w.slots| && !Active(w, i)
    requires w.published <= w'.published && w.freed <= w'.freed
    requires forall j: nat | j < |w.slots| && j != i ::
               w'.slots[j] == w.slots[j] && w'.lineage[j] == w.lineage[j] && w'.serial[j] == w.serial[j]
    requires Published(w', i) ==> w.published <= w'.serial[i]
    ensures Evolves(w, w')
  {
  }

  lemma UntouchedEvolves(w: World, w': World)
    requires Shape(w) && Shape(w')
    requires w'.slots == w.slots && w'.lineage == w.lineage && w'.serial == w.serial
    requires w.published <= w'.published && w.freed <= w'.freed
    ensures Evolves(w, w')
  {
  }

  lemma Untouched(w: World)
    requires Inv(w)
    ensures Evolves(w, w) && Shape(w)
  {
  }

  /** A call that leaves the slots as they were and settles leaves the latch as it was. */
  lemma SlotsBackSettled(w: World, w': World)
    requires Valid(w) && Inv(w') && w.runtime in {Open, ChildActive}
    requires w'.slots == w.slots && w'.loose == {}
    requires w'.runtime == if AnyActive(w') then ChildActive else Open
    ensures Valid(w') && w'.runtime == w.runtime
  {
    assert forall j: nat :: Active(w, j) <==> Active(w', j);
    assert AnyActive(w) <==> AnyActive(w');
  }

  /** A call that filled slot i settles with the latch at CHILD_ACTIVE. */
  lemma SlotFilledSettled(w: World, w': World, i: nat)
    requires Valid(w) && Inv(w') && |w'.slots| == |w.slots|
    requires forall j: nat | j < |w.slots| && j != i :: w'.slots[j] == w.slots[j]
    requires Active(w', i) && w'.slots[i].leader != 0
    requires w'.loose == {} && w'.runtime == ChildActive
    ensures Valid(w')
  {
  }

  lemma UnreapedLeaderIsMine(w: World, i: nat)
    requires Inv(w) && Active(w, i) && w.slots[i].leader != 0 && !w.slots[i].reaped
    ensures Mine(w.k, w.slots[i].leader)
  {
  }

  /** What the invariant says about one published child. */
  lemma PublishedChild(w: World, i: nat)
    requires Inv(w) && Published(w, i)
    ensures w.slots[i].group == w.slots[i].leader && (w.slots[i].reaped ==> w.slots[i].observed)
    ensures !w.slots[i].reaped ==> Mine(w.k, w.slots[i].leader)
  {
    assert SlotInv(w, i);
  }

  lemma UnusedIsFree(w: World, i: nat)
    requires Inv(w) && i < |w.slots| && !w.slots[i].active
    ensures w.slots[i] == FREE_SLOT
  {
    assert SlotInv(w, i);
  }
}

/** The stages of opening a child, and what each keeps. */
module OpenStages {
  import opened Kernel
  import opened World
  import opened Steps
  import opened Outcomes

  /** The two ends of a pipe held in local variables, -1 once closed or handed over. */
  datatype Pipe = Pipe(r: int, w: int) {
    ghost function Ends(): set<int> { Owned(r) + Owned(w) }
  }

  const NO_PIPE := Pipe(-1, -1)

  /** The three pipes of a child being opened. */
  datatype Pipes = Pipes(out: Pipe, err: Pipe, setup: Pipe) {
    ghost function Ends(): set<int> { out.Ends() + err.Ends() + setup.Ends() }

    ghost predicate Ready() {
      && out.r > 2 && out.w > 2 && err.r > 2 && err.w > 2 && setup.r > 2 && setup.w > 2
      && out.r != out.w && err.r != err.w && setup.r != setup.w
      && out.Ends() !! err.Ends() && out.Ends() !! setup.Ends() && err.Ends() !! setup.Ends()
    }
  }

  ghost function Owned(fd: int): set<int> {
    if fd >= 0 then {fd} else {}
  }

  // ----- Stages of an open that has won slot i of the table it started from -----

  ghost predicate Enters(w0: World, i: nat) {
    && Valid(w0) && w0.runtime in {Open, ChildActive}
    && i < |w0.slots| && w0.slots[i] == FREE_SLOT
    && forall j: nat | j < i :: w0.slots[j].active
  }

  /** The slot is claimed and nothing else has happened. */
  ghost predicate Claimed(w0: World, w: World, i: nat) {
    && Enters(w0, i) && Inv(w)
    && w == w0.(runtime := ChildActive, slots := w0.slots[i := CLAIMED_SLOT], k := w.k)
    && (forall q :: Mine(w0.k, q) <==> Mine(w.k, q))
    && w.k.fds == w0.k.fds
  }

  /** Three pipes are open, their six ends in local variables. */
  ghost predicate Piped(w0: World, w: World, i: nat, p: Pipes) {
    && Enters(w0, i) && Inv(w)
    && w == w0.(runtime := ChildActive, slots := w0.slots[i := CLAIMED_SLOT], loose := p.Ends(), k := w.k)
    && (forall q :: Mine(w0.k, q) <==> Mine(w.k, q))
    && p.Ready() && p.Ends() !! w0.k.fds && w.k.fds == w0.k.fds + p.Ends()
  }

  /** The child exists and leads its group; the ends in `held` are still in local variables. */
  ghost predicate Launched(w0: World, w: World, i: nat, p: Pipes, held: set<int>) {
    && Enters(w0, i) && Inv(w)
    && p.Ready() && p.Ends() !! w0.k.fds && held <= p.Ends() && w.k.fds == w0.k.fds + held
    && Wedged(w, i) && w.slots[i].leader > 0
    && !Mine(w0.k, w.slots[i].leader) && Mine(w.k, w.slots[i].leader)
    && w.slots[i] == CLAIMED_SLOT.(leader := w.slots[i].leader, group := w.slots[i].leader)
    && |w.lineage| == |w0.lineage|
    && w == w0.(runtime := ChildActive, slots := w0.slots[i := w.slots[i]],
                lineage := w0.lineage[i := w.lineage[i]],
                loose := held, keeper := w0.keeper[w.slots[i].leader := i], k := w.k)
  }

  /** What is known of a launched child's descriptors. */
  lemma LaunchedFacts(w0: World, w: World, i: nat, p: Pipes, held: set<int>)
    requires Launched(w0, w, i, p, held)
    ensures p.Ready() && p.Ends() !! w0.k.fds && held <= p.Ends() && w.k.fds == w0.k.fds + held
    ensures w.loose == held && w0.loose == {} && w.holder.Keys == w0.k.fds
    ensures Inv(w) && Wedged(w, i) && Mine(w.k, w.slots[i].leader)
    ensures Valid(w0) && Shape(w0) && Shape(w) && !Active(w0, i)
    ensures |w.slots| == |w0.slots| && i < |w.slots| == |w.lineage| == |w.serial| == |w.wire|
    ensures w.nextHandle == HandleOf(w.published)
  {
  }

  lemma EntersClaimed(w0: World, w: World, i: nat)
    requires Valid(w0) && w0.runtime in {Open, ChildActive} && Inv(w)
    requires i < |w0.slots| && !w0.slots[i].active && forall j: nat | j < i :: w0.slots[j].active
    requires w == w0.(runtime := ChildActive, slots := w0.slots[i := CLAIMED_SLOT])
    ensures Claimed(w0, w, i)
  {
    UnusedIsFree(w0, i);
    hide Inv;
  }

  lemma ClaimedFacts(w0: World, w: World, i: nat)
    requires Claimed(w0, w, i)
    ensures Inv(w) && i < |w.slots| == |w.lineage| && w.slots[i] == CLAIMED_SLOT && w.loose == {} == w0.loose
    ensures w.k.fds == w0.k.fds == w.holder.Keys == w0.holder.Keys
  {
  }

  /** The claimed slot gets its three pipes, or fails to. */
  lemma ClaimedPiped(w0: World, w: World, i: nat, p: Pipes, k': Kernel)
    requires Claimed(w0, w, i) && p.Ready() && p.Ends() !! w.k.fds && Becomes(w.k, w.k.fds + p.Ends(), k')
    ensures Piped(w0, w.(loose := p.Ends(), k := k'), i, p) && k'.sent == w.k.sent
  {
    ClaimedFacts(w0, w, i);
    BecomesFds(w.k, w.k.fds + p.Ends(), k');
    assert forall q :: Mine(w.k, q) <==> Mine(k', q);
    hide Becomes, Inv;
    LooseKeeps(w, p.Ends(), k');
  }

  lemma ClaimedUnpiped(w0: World, w: World, i: nat, k': Kernel)
    requires Claimed(w0, w, i) && Becomes(w.k, w.k.fds, k')
    ensures Claimed(w0, w.(k := k'), i) && k'.sent == w.k.sent
  {
    ClaimedFacts(w0, w, i);
    BecomesFds(w.k, w.k.fds, k');
    assert forall q :: Mine(w.k, q) <==> Mine(k', q);
    hide Becomes, Inv;
    assert w.holder.Keys + {} == w.k.fds;
    LooseKeeps(w, {}, k');
    assert w.(loose := {}, k := k') == w.(k := k');
  }

  lemma PipedFacts(w0: World, w: World, i: nat, p: Pipes)
    requires Piped(w0, w, i, p)
    ensures Inv(w) && i < |w.slots| == |w.lineage| && w.slots[i] == CLAIMED_SLOT && w.loose == p.Ends()
    ensures p.Ready() && p.Ends() <= w.k.fds && w.k.fds == w0.k.fds + p.Ends() && w0.k.fds == w.holder.Keys
    ensures p.Ends() !! w0.k.fds
  {
  }

  /** The pipes are given up again. */
  lemma PipedUndone(w0: World, w: World, i: nat, p: Pipes, k': Kernel)
    requires Piped(w0, w, i, p) && Becomes(w.k, w.k.fds - p.Ends(), k')
    ensures Claimed(w0, w.(loose := {}, k := k'), i) && k'.sent == w.k.sent
  {
    PipedFacts(w0, w, i, p);
    assert w.k.fds - p.Ends() == w0.k.fds;
    BecomesFds(w.k, w0.k.fds, k');
    assert forall q :: Mine(w.k, q) <==> Mine(k', q);
    hide Becomes, Inv;
    assert w.holder.Keys + {} == w0.k.fds;
    LooseKeeps(w, {}, k');
  }

  lemma ClaimReleased(w0: World, w: World, i: nat, w': World)
    requires Claimed(w0, w, i) && Inv(w')
    requires w' == w.(slots := w.slots[i := FREE_SLOT], runtime := w'.runtime)
    requires w'.runtime == if AnyActive(w') then ChildActive else Open
    ensures Valid(w') && Evolves(w0, w') && Refused(w0, w')
  {
    assert w'.slots == w0.slots;
    SlotsBackSettled(w0, w');
    UntouchedEvolves(w0, w');
  }

  /** A fork that failed. */
  lemma PipedStays(w0: World, w: World, i: nat, p: Pipes, k': Kernel)
    requires Piped(w0, w, i, p) && Interferes(w.k, k')
    ensures Piped(w0, w.(k := k'), i, p) && k'.sent == w.k.sent
  {
    InterferenceKeeps(w, k');
    hide Inv;
  }

  /** The world moves around a launched child. */
  lemma LaunchedStays(w0: World, w: World, i: nat, p: Pipes, k': Kernel)
    requires Launched(w0, w, i, p, p.Ends()) && Interferes(w.k, k')
    ensures Launched(w0, w.(k := k'), i, p, p.Ends()) && k'.sent == w.k.sent
  {
    hide *;
    LaunchedFacts(w0, w, i, p, p.Ends());
    InterferesBecomes(w.k, k');
    InterferesSent(w.k, k');
    LaunchedMoves(w0, w, i, p, p.Ends(), p.Ends(), k');
    assert w.(loose := p.Ends(), k := k') == w.(k := k');
  }

  lemma LaunchedFork(w0: World, w: World, i: nat, p: Pipes, pid: int, k': Kernel)
    requires Piped(w0, w, i, p) && pid > 0 && !Mine(w.k, pid)
    requires Interferes(ForkEffect(w.k, pid), k')
    ensures i < |w.slots| == |w.lineage|
    ensures Launched(w0, Forked(w, i, pid).(k := k'), i, p, p.Ends()) && k'.sent == w.k.sent
    ensures Forked(w, i, pid).(k := k').slots[i].leader == pid
  {
    hide Inv, Interferes, Becomes;
    InterferesSent(ForkEffect(w.k, pid), k');
    PipedFacts(w0, w, i, p);
    ForkKeeps(w, i, pid);
    InterferenceKeeps(Forked(w, i, pid), k');
    UnreapedLeaderIsMine(Forked(w, i, pid).(k := k'), i);
  }

  /** Interference, with the local descriptors going from `held` to `kept`. */
  lemma LaunchedMoves(w0: World, w: World, i: nat, p: Pipes, held: set<int>, kept: set<int>, k': Kernel)
    requires Launched(w0, w, i, p, held) && kept <= held
    requires Becomes(w.k, w0.k.fds + kept, k')
    ensures Launched(w0, w.(loose := kept, k := k'), i, p, kept)
  {
    assert w.holder.Keys == w0.k.fds;
    BecomesFds(w.k, w0.k.fds + kept, k');
    hide Becomes;
    LooseKeeps(w, kept, k');
    UnreapedLeaderIsMine(w.(loose := kept, k := k'), i);
  }

  /** A signal to the child that has not been published. */
  lemma LaunchedSignalled(w0: World, w: World, i: nat, p: Pipes, held: set<int>, s: Send, k': Kernel)
    requires Launched(w0, w, i, p, held) && s.leader == w.slots[i].leader
    requires Interferes(SignalEffect(w.k, s), k')
    ensures Launched(w0, w.(k := k'), i, p, held) && k'.sent == w.k.sent + [s]
  {
    var w1 := w.(k := SignalEffect(w.k, s));
    SignalKeeps(w, s);
    InterferenceKeeps(w1, k');
    UnreapedLeaderIsMine(w.(k := k'), i);
  }

  /** The child that could not be reaped, its pipes closed. */
  lemma LaunchedKept(w0: World, w: World, i: nat, p: Pipes, k1: Kernel, k2: Kernel)
    requires Launched(w0, w, i, p, p.Ends())
    requires Interferes(w.k, k1) && Becomes(k1, k1.fds - p.Ends(), k2)
    ensures k2.sent == w.k.sent
    ensures var w' := w.(loose := {}, k := k2);
            Valid(w') && Evolves(w0, w') && WedgedBy(w0, w', i)
  {
    hide *;
    LaunchedFacts(w0, w, i, p, p.Ends());
    InterferesBecomes(w.k, k1);
    assert k1.fds - p.Ends() == w0.k.fds + {};
    BecomesTransitive(w.k, w.k.fds, k1, w0.k.fds + {}, k2);
    BecomesFds(w.k, w0.k.fds + {}, k2);
    LaunchedMoves(w0, w, i, p, p.Ends(), {}, k2);
    LaunchedWedged(w0, w.(loose := {}, k := k2), i, p);
  }

  lemma InterferesBecomes(k: Kernel, k': Kernel)
    requires Interferes(k, k')
    ensures Becomes(k, k.fds, k') && k'.fds == k.fds
  {
    assert k.(fds := k.fds) == k;
  }

  /** The reaped child leaves the slot it never published. */
  lemma LaunchedDiscarded(w0: World, w: World, i: nat, p: Pipes, k1: Kernel, k2: Kernel)
    requires Launched(w0, w, i, p, p.Ends())
    requires Interferes(ReapEffect(w.k, w.slots[i].leader), k1) && Becomes(k1, k1.fds - p.Ends(), k2)
    ensures k2.fds == w0.k.fds && k2.sent == w.k.sent
    ensures Inv(w.(slots := w.slots[i := FREE_SLOT], loose := {},
                   keeper := w.keeper - {w.slots[i].leader}, k := k2))
  {
    LaunchedFacts(w0, w, i, p, p.Ends());
    hide Inv, Launched, Becomes, Mine, Wedged;
    assert k1.fds == w.k.fds && k1.sent == w.k.sent;
    hide Interferes;
    assert k1.fds - p.Ends() == w.holder.Keys + {};
    BecomesFds(k1, k1.fds - p.Ends(), k2);
    DiscardKeeps(w, i);
    InterferenceKeeps(Discarded(w, i), k1);
    LooseKeeps(Discarded(w, i).(k := k1), {}, k2);
  }

  /** That slot and its bookkeeping are what they were before the open. */
  lemma DiscardedIsBack(w0: World, w: World, i: nat, p: Pipes)
    requires Launched(w0, w, i, p, p.Ends())
    ensures w.slots[i := FREE_SLOT] == w0.slots && w.keeper - {w.slots[i].leader} == w0.keeper
    ensures w.lineage == w0.lineage[i := w.lineage[i]]
  {
    assert w0.slots[i := w.slots[i]][i := FREE_SLOT] == w0.slots;
    assert w.slots[i].leader !in w0.keeper;
  }

  lemma DiscardSettled(w0: World, w: World, i: nat, w': World)
    requires Enters(w0, i) && Inv(w')
    requires |w.lineage| == |w0.lineage| && w.lineage == w0.lineage[i := w.lineage[i]]
    requires w' == w0.(runtime := w'.runtime, lineage := w.lineage, k := w'.k) && w'.k.fds == w0.k.fds
    requires w'.runtime == if AnyActive(w') then ChildActive else Open
    ensures Valid(w') && Evolves(w0, w') && Refused(w0, w')
  {
    SlotsBackSettled(w0, w');
    FreshSlotEvolves(w0, w', i);
  }

  /** The open that could not reap its child. */
  lemma LaunchedWedged(w0: World, w: World, i: nat, p: Pipes)
    requires Launched(w0, w, i, p, {})
    ensures Valid(w) && Evolves(w0, w) && WedgedBy(w0, w, i)
  {
  }

  ghost function ReadEnds(p: Pipes): set<int> { {p.out.r, p.err.r, p.setup.r} }

  /** The record of slot i filled in, with what its child will report. */
  ghost function Announced(w: World, i: nat, p: Pipes, wire: seq<seq<byte>>): World
    requires i < |w.slots| == |w.serial|
  {
    PublishedSlot(w, i, p.out.r, p.err.r, p.setup.r).(loose := {}, wire := wire)
  }

  lemma FilledIsAnnounced(w: World, w1: World, w2: World, i: nat, p: Pipes)
    requires i < |w.slots| == |w.serial|
    requires w1 == w.(slots := w.slots[i := w.slots[i].(stdoutFd := p.out.r, stderrFd := p.err.r,
                                                        setupFd := p.setup.r, handle := w.nextHandle)],
                      nextHandle := HandleOf(w.published + 1), wire := w1.wire)
    requires w2 == w1.(serial := w.serial[i := w.published], published := w.published + 1, loose := {},
                       holder := w.holder[p.out.r := (i, Stdout)][p.err.r := (i, Stderr)][p.setup.r := (i, Setup)])
    ensures w2 == Announced(w, i, p, w1.wire)
  {
  }

  lemma SameWiresLaunched(w0: World, w: World, i: nat, p: Pipes, held: set<int>, wire: seq<seq<byte>>)
    requires Launched(w0, w, i, p, held) && SameWires(w, w.(wire := wire), i)
    ensures SameWires(w0, w0.(wire := wire), i) && |wire| == |w.wire|
  {
  }

  lemma LaunchedPublished(w0: World, w: World, i: nat, p: Pipes, wire: seq<seq<byte>>)
    requires Launched(w0, w, i, p, ReadEnds(p))
    requires |wire| == |w.wire| && SameWires(w0, w0.(wire := wire), i)
    ensures i < |w.slots| == |w.serial|
    ensures var w' := Announced(w, i, p, wire);
            Valid(w') && Evolves(w0, w') && Opened(w0, w', i, w.nextHandle, w.slots[i].leader)
  {
    hide *;
    LaunchedFacts(w0, w, i, p, ReadEnds(p));
    AnnouncedInv(w0, w, i, p, wire);
    AnnouncedFrame(w0, w, i, p, wire);
    AnnouncedOpened(w0, w, i, p, wire);
    SlotFilledSettled(w0, Announced(w, i, p, wire), i);
    FreshSlotEvolves(w0, Announced(w, i, p, wire), i);
  }

  lemma AnnouncedIs(w: World, i: nat, p: Pipes, wire: seq<seq<byte>>)
    requires i < |w.slots| == |w.serial| && w.loose == ReadEnds(p) && p.Ready()
    ensures p.out.r > 2 && p.err.r > 2 && p.setup.r > 2
    ensures p.out.r != p.err.r && p.err.r != p.setup.r && p.out.r != p.setup.r
    ensures w.loose == {p.out.r, p.err.r, p.setup.r}
    ensures Announced(w, i, p, wire) == PublishedSlot(w, i, p.out.r, p.err.r, p.setup.r).(wire := wire)
    ensures PublishedSlot(w, i, p.out.r, p.err.r, p.setup.r).wire == w.wire
  {
  }

  lemma AnnouncedInv(w0: World, w: World, i: nat, p: Pipes, wire: seq<seq<byte>>)
    requires Launched(w0, w, i, p, ReadEnds(p)) && i < |w.slots| == |w.serial| && |wire| == |w.wire|
    ensures Inv(Announced(w, i, p, wire))
  {
    hide *;
    LaunchedFacts(w0, w, i, p, ReadEnds(p));
    AnnouncedIs(w, i, p, wire);
    PublishKeeps(w, i, p.out.r, p.err.r, p.setup.r);
    WireKeeps(PublishedSlot(w, i, p.out.r, p.err.r, p.setup.r), wire);
  }

  lemma AnnouncedFrame(w0: World, w: World, i: nat, p: Pipes, wire: seq<seq<byte>>)
    requires Launched(w0, w, i, p, ReadEnds(p)) && i < |w.slots| == |w.serial| && |wire| == |w.wire|
    ensures var w' := Announced(w, i, p, wire);
            && Valid(w0) && Shape(w0) && Shape(w') && |w'.slots| == |w0.slots| && !Active(w0, i)
            && (forall j: nat | j < |w0.slots| && j != i ::
                  w'.slots[j] == w0.slots[j] && w'.lineage[j] == w0.lineage[j] && w'.serial[j] == w0.serial[j])
            && w0.published <= w'.published && w0.freed <= w'.freed && w0.published <= w'.serial[i]
            && Active(w', i) && w'.slots[i].leader != 0 && w'.loose == {} && w'.runtime == ChildActive
  {
    LaunchedFacts(w0, w, i, p, ReadEnds(p));
    hide Inv, Settled;
  }

  lemma AnnouncedOpened(w0: World, w: World, i: nat, p: Pipes, wire: seq<seq<byte>>)
    requires Launched(w0, w, i, p, ReadEnds(p)) && i < |w.slots| == |w.serial|
    requires |wire| == |w.wire| && SameWires(w0, w0.(wire := wire), i)
    ensures Opened(w0, Announced(w, i, p, wire), i, w.nextHandle, w.slots[i].leader)
  {
  }
}

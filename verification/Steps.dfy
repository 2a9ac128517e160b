/** Each single step of the adapter keeps the invariant. */
module Steps {
  import opened Kernel
  import opened World

  // ----- Frames: the parts of the invariant that do not see a step -----

  lemma ActivityFrame(w: World, w': World)
    requires w'.runtime == w.runtime && w'.saved == w.saved && w'.installed == w.installed
    requires w'.prior == w.prior && w'.host == w.host && w'.disposition == w.disposition
    requires forall i: nat :: Active(w', i) ==> Active(w, i)
    ensures RuntimeInv(w) ==> RuntimeInv(w')
    ensures forall s :: SignalInv(w, s) ==> SignalInv(w', s)
  {
  }

  lemma FdsFrame(w: World, w': World)
    requires FdsInv(w) && |w'.slots| == |w.slots|
    requires w'.k.fds == w.k.fds && w'.loose == w.loose && w'.holder == w.holder
    requires forall i: nat :: Active(w', i) <==> Active(w, i)
    requires forall i: nat, c | Active(w, i) :: w'.slots[i].Fd(c) == w.slots[i].Fd(c)
    ensures FdsInv(w')
  {
  }

  lemma ChildrenFrame(w: World, w': World)
    requires ChildrenInv(w) && |w'.slots| == |w.slots|
    requires w'.keeper == w.keeper
    requires forall p :: Mine(w'.k, p) <==> Mine(w.k, p)
    requires forall i: nat :: Active(w', i) <==> Active(w, i)
    requires forall i: nat | Active(w, i) ::
               w'.slots[i].leader == w.slots[i].leader && w'.slots[i].reaped == w.slots[i].reaped
    ensures ChildrenInv(w')
  {
  }

  lemma HandlesFrame(w: World, w': World)
    requires Shape(w) && Shape(w') && HandlesInv(w)
    requires w'.nextHandle == w.nextHandle && w'.published == w.published && w'.serial == w.serial
    requires forall i: nat :: Published(w', i) ==> Published(w, i)
    ensures HandlesInv(w')
  {
  }

  lemma FreedFrame(w: World, w': World)
    requires FreedInv(w)
    requires w'.freed == w.freed && w.k.nextGroup <= w'.k.nextGroup
    requires forall g: nat | g < w.k.nextGroup && Dead(w.k, g) :: Dead(w'.k, g)
    ensures FreedInv(w')
  {
  }

  lemma LineageFrame(w: World, w': World)
    requires Shape(w) && Shape(w') && LineageInv(w)
    requires w'.freed == w.freed && w'.lineage == w.lineage
    requires forall i: nat :: Held(w', i) ==> Held(w, i)
    ensures LineageInv(w')
  {
  }

  /** A slot whose record did not change sees only the kernel. */
  lemma SlotFrame(w: World, w': World, j: nat)
    requires Shape(w) && Shape(w') && j < |w.slots| == |w'.slots| && SlotInv(w, j)
    requires w'.slots[j] == w.slots[j] && w'.lineage[j] == w.lineage[j] && w'.serial[j] == w.serial[j]
    requires w.published <= w'.published && w.k.nextGroup <= w'.k.nextGroup
    requires Active(w, j) && w.slots[j].leader != 0 && !w.slots[j].reaped && Mine(w.k, w.slots[j].leader) ==>
               && Mine(w'.k, w.slots[j].leader)
               && w'.k.procs[w.slots[j].leader].group == w.k.procs[w.slots[j].leader].group
               && (w'.k.procs[w.slots[j].leader].live ==> w.k.procs[w.slots[j].leader].live)
    requires forall g: nat | g < w.k.nextGroup && Dead(w.k, g) :: Dead(w'.k, g)
    ensures SlotInv(w', j)
  {
  }

  // ----- Steps of any call -----

  /** The outside world moves and the adapter does not. */
  lemma InterferenceKeeps(w: World, k': Kernel)
    requires Inv(w) && Interferes(w.k, k')
    ensures Inv(w.(k := k')) && Evolves(w, w.(k := k'))
    ensures Settled(w) ==> Settled(w.(k := k'))
  {
    var w' := w.(k := k');
    assert forall i: nat :: Active(w', i) <==> Active(w, i);
    assert AnyActive(w') <==> AnyActive(w);
    assert Settled(w) ==> Settled(w');
    hide FdsInv, ChildrenInv, HandlesInv, RuntimeInv, SignalInv, FreedInv, LineageInv, SlotInv, Settled;
    ActivityFrame(w, w');
    FdsFrame(w, w');
    ChildrenFrame(w, w');
    HandlesFrame(w, w');
    LineageFrame(w, w');
    FreedFrame(w, w');
    forall j: nat | j < |w.slots|
      ensures SlotInv(w', j)
    {
      SlotFrame(w, w', j);
    }
    UntouchedEvolves(w, w');
  }

  /** A signal through the number of an unreaped child. */
  lemma SignalKeeps(w: World, s: Send)
    requires Inv(w) && Mine(w.k, s.leader)
    ensures Inv(w.(k := SignalEffect(w.k, s)))
    ensures Settled(w) ==> Settled(w.(k := SignalEffect(w.k, s)))
  {
    var k' := SignalEffect(w.k, s);
    var w' := w.(k := k');
    assert forall i: nat :: Active(w', i) <==> Active(w, i);
    assert AnyActive(w') <==> AnyActive(w);
    assert Settled(w) ==> Settled(w');
    assert forall g: nat :: Dead(w.k, g) <==> Dead(k', g);
    assert forall p :: Mine(w.k, p) <==> Mine(k', p);
    hide FdsInv, ChildrenInv, HandlesInv, RuntimeInv, SignalInv, FreedInv, LineageInv, SlotInv, Settled;
    ActivityFrame(w, w');
    FdsFrame(w, w');
    ChildrenFrame(w, w');
    HandlesFrame(w, w');
    LineageFrame(w, w');
    FreedFrame(w, w');
    forall j: nat | j < |w.slots|
      ensures SlotInv(w', j)
    {
      SlotFrame(w, w', j);
    }
  }

  lemma LatchKeeps(w: World, r: RuntimeState)
    requires Inv(w) && w.runtime in {Open, ChildActive} && r in {Open, ChildActive}
    ensures Inv(w.(runtime := r)) && Evolves(w, w.(runtime := r))
    ensures AnyActive(w.(runtime := r)) <==> AnyActive(w)
  {
    var w' := w.(runtime := r);
    assert forall i: nat :: Active(w, i) <==> Active(w', i);
    assert AnyActive(w) <==> AnyActive(w');
    assert RuntimeInv(w');
    assert forall s :: SignalInv(w, s) ==> SignalInv(w', s);
    hide FdsInv, ChildrenInv, HandlesInv, RuntimeInv, SignalInv, FreedInv, LineageInv, SlotInv;
    FdsFrame(w, w');
    ChildrenFrame(w, w');
    HandlesFrame(w, w');
    LineageFrame(w, w');
    FreedFrame(w, w');
    forall j: nat | j < |w.slots|
      ensures SlotInv(w', j)
    {
      SlotFrame(w, w', j);
    }
    UntouchedEvolves(w, w');
  }

  lemma WireKeeps(w: World, wire: seq<seq<byte>>)
    requires Inv(w) && |wire| == |w.wire|
    ensures Inv(w.(wire := wire))
  {
    var w' := w.(wire := wire);
    assert forall i: nat :: Active(w, i) <==> Active(w', i);
    hide FdsInv, ChildrenInv, HandlesInv, RuntimeInv, SignalInv, FreedInv, LineageInv, SlotInv;
    ActivityFrame(w, w');
    FdsFrame(w, w');
    ChildrenFrame(w, w');
    HandlesFrame(w, w');
    LineageFrame(w, w');
    FreedFrame(w, w');
    forall j: nat | j < |w.slots|
      ensures SlotInv(w', j)
    {
      SlotFrame(w, w', j);
    }
  }

  // ----- Steps on the signal dispositions -----

  /** The signal variables and the latch change; the table does not. */
  ghost predicate SignalsOnly(w: World, w': World) {
    w' == w.(runtime := w'.runtime, saved := w'.saved, installed := w'.installed, prior := w'.prior,
             disposition := w'.disposition, k := w'.k)
  }

  lemma SignalsKeep(w: World, w': World)
    requires Inv(w) && SignalsOnly(w, w') && Interferes(w.k, w'.k)
    requires forall s :: SignalInv(w', s)
    requires RuntimeInv(w')
    ensures Inv(w')
  {
    assert forall i: nat :: Active(w, i) <==> Active(w', i);
    hide FdsInv, ChildrenInv, HandlesInv, RuntimeInv, SignalInv, FreedInv, LineageInv, SlotInv;
    FdsFrame(w, w');
    ChildrenFrame(w, w');
    HandlesFrame(w, w');
    LineageFrame(w, w');
    FreedFrame(w, w');
    forall j: nat | j < |w.slots|
      ensures SlotInv(w', j)
    {
      SlotFrame(w, w', j);
    }
  }

  lemma OpeningKeeps(w: World, w': World)
    requires Inv(w) && SignalsOnly(w, w') && Interferes(w.k, w'.k)
    requires w.runtime == Opening && w'.runtime == Opening
    requires forall s :: SignalInv(w', s)
    ensures Inv(w')
  {
    assert forall i: nat :: Active(w', i) <==> Active(w, i);
    assert AnyActive(w') <==> AnyActive(w);
    SignalsKeep(w, w');
  }

  /** A transaction starts only with an empty table. */
  lemma EnteringKeeps(w: World)
    requires Valid(w) && w.runtime in {Closed, Open, RestoreRequired}
    ensures !AnyActive(w) && Inv(w.(runtime := Opening))
    ensures w.runtime == Closed ==> w.saved == w.installed == PerSignal(false, false, false, false)
  {
    var w' := w.(runtime := Opening);
    if w.runtime == Closed {
      assert w.saved.Get(SigInt) == w.saved.Get(SigTerm) == w.saved.Get(SigChld) == w.saved.Get(SigPipe) == false;
      assert w.installed.Get(SigInt) == w.installed.Get(SigTerm) == w.installed.Get(SigChld)
          == w.installed.Get(SigPipe) == false;
    }
    assert forall s :: SignalInv(w, s) ==> SignalInv(w', s);
    assert forall i: nat :: Active(w', i) <==> Active(w, i);
    assert AnyActive(w') <==> AnyActive(w);
    assert Interferes(w.k, w.k);
    SignalsKeep(w, w');
  }

  lemma InstalledIsSaved(w: World, s: Signal)
    requires Inv(w) && w.installed.Get(s)
    ensures w.saved.Get(s) && w.prior.Get(s) == w.host.Get(s)
  {
    assert SignalInv(w, s);
  }

  lemma SaveKeeps(w: World, s: Signal, k': Kernel)
    requires Inv(w) && w.runtime == Opening && !w.installed.Get(s) && Interferes(w.k, k')
    ensures Inv(w.(saved := w.saved.Set(s, true), prior := w.prior.Set(s, w.disposition.Get(s)), k := k'))
  {
    var w' := w.(saved := w.saved.Set(s, true), prior := w.prior.Set(s, w.disposition.Get(s)), k := k');
    assert SignalInv(w, s);
    assert forall t :: SignalInv(w, t) ==> SignalInv(w', t);
    hide Interferes;
    OpeningKeeps(w, w');
  }

  lemma InstallKeeps(w: World, s: Signal, k': Kernel)
    requires Inv(w) && w.runtime == Opening && w.saved.Get(s) && Interferes(w.k, k')
    ensures Inv(w.(installed := w.installed.Set(s, true), disposition := w.disposition.Set(s, Ours(s)), k := k'))
  {
    var w' := w.(installed := w.installed.Set(s, true), disposition := w.disposition.Set(s, Ours(s)), k := k');
    assert SignalInv(w, s);
    assert forall t :: SignalInv(w, t) ==> SignalInv(w', t);
    hide Interferes;
    OpeningKeeps(w, w');
  }

  lemma RestoreKeeps(w: World, s: Signal, k': Kernel)
    requires Inv(w) && w.runtime == Opening && w.saved.Get(s) && w.installed.Get(s) && Interferes(w.k, k')
    ensures Inv(w.(installed := w.installed.Set(s, false), disposition := w.disposition.Set(s, w.prior.Get(s)),
                   k := k'))
  {
    var w' := w.(installed := w.installed.Set(s, false), disposition := w.disposition.Set(s, w.prior.Get(s)),
                 k := k');
    assert SignalInv(w, s);
    assert forall t :: SignalInv(w, t) ==> SignalInv(w', t);
    hide Interferes;
    OpeningKeeps(w, w');
  }

  lemma ForgetKeeps(w: World, s: Signal)
    requires Inv(w) && w.runtime == Opening && !w.installed.Get(s)
    ensures Inv(w.(saved := w.saved.Set(s, false)))
  {
    var w' := w.(saved := w.saved.Set(s, false));
    assert forall t :: SignalInv(w, t) ==> SignalInv(w', t);
    assert Interferes(w.k, w.k);
    hide Interferes;
    OpeningKeeps(w, w');
  }

  lemma HostKeeps(w: World, s: Signal, d: Disposition)
    requires Valid(w) && w.runtime == Closed && d != Handler
    ensures var w' := w.(host := w.host.Set(s, d), disposition := w.disposition.Set(s, d));
            Valid(w') && Evolves(w, w')
  {
    hide FdsInv, ChildrenInv, HandlesInv, FreedInv, LineageInv, SlotInv;
    var w' := w.(host := w.host.Set(s, d), disposition := w.disposition.Set(s, d));
    assert !w.installed.Get(s);
    assert forall t :: SignalInv(w, t) ==> SignalInv(w', t);
    assert forall i: nat :: Active(w', i) <==> Active(w, i);
    assert AnyActive(w') <==> AnyActive(w);
    UntouchedEvolves(w, w');
    FdsFrame(w, w');
    ChildrenFrame(w, w');
    HandlesFrame(w, w');
    LineageFrame(w, w');
    FreedFrame(w, w');
    forall j: nat | j < |w.slots|
      ensures SlotInv(w', j)
    {
      SlotFrame(w, w', j);
    }
  }

  /** Leaving the transition: the table was empty and still is. */
  lemma SessionSettled(w: World, w': World)
    requires Valid(w) && Inv(w') && SignalsOnly(w, w') && !AnyActive(w)
    requires w'.runtime in {Closed, Open, RestoreRequired}
    ensures Valid(w') && Evolves(w, w')
    ensures w'.runtime == Closed ==> w'.disposition == w'.host
    ensures w'.runtime == Open ==> w'.prior == w'.host && forall s :: w'.disposition.Get(s) == Ours(s)
  {
    assert forall i: nat :: Active(w', i) <==> Active(w, i);
    assert !AnyActive(w');
    UntouchedEvolves(w, w');
    forall s
      ensures w'.runtime == Closed ==> w'.disposition.Get(s) == w'.host.Get(s)
      ensures w'.runtime == Open ==> w'.prior.Get(s) == w'.host.Get(s) && w'.disposition.Get(s) == Ours(s)
    {
      assert SignalInv(w', s);
    }
    if w'.runtime == Closed { SameDispositions(w'.disposition, w'.host); }
    if w'.runtime == Open { SameDispositions(w'.prior, w'.host); }
  }

  lemma SameDispositions(a: PerSignal<Disposition>, b: PerSignal<Disposition>)
    requires forall s :: a.Get(s) == b.Get(s)
    ensures a == b
  {
    assert a.Get(SigInt) == b.Get(SigInt) && a.Get(SigTerm) == b.Get(SigTerm);
    assert a.Get(SigChld) == b.Get(SigChld) && a.Get(SigPipe) == b.Get(SigPipe);
  }

  // ----- Steps on one held slot -----

  ghost function ChannelClosed(w: World, i: nat, c: Channel): World
    requires i < |w.slots|
  {
    var fd := w.slots[i].Fd(c);
    w.(slots := w.slots[i := w.slots[i].WithFd(c, -1)], holder := w.holder - {fd}, k := CloseEffect(w.k, fd))
  }

  lemma ChannelClosedFds(w: World, i: nat, c: Channel)
    requires FdsInv(w) && Active(w, i) && w.slots[i].Fd(c) >= 0
    ensures FdsInv(ChannelClosed(w, i, c))
    ensures ChannelClosed(w, i, c).k.strayCloses == w.k.strayCloses
  {
    var w', fd := ChannelClosed(w, i, c), w.slots[i].Fd(c);
    assert w.holder[fd] == (i, c);
    assert forall j: nat :: Active(w', j) <==> Active(w, j);
    forall j: nat, d | Active(w, j)
      ensures w'.slots[j].Fd(d) == if j == i && d == c then -1 else w.slots[j].Fd(d)
    {
    }
    forall f | f in w'.holder
      ensures f > 2 && Active(w', w'.holder[f].0) && w'.slots[w'.holder[f].0].Fd(w'.holder[f].1) == f
    {
      assert f in w.holder && w.holder[f] != (i, c);
    }
  }

  lemma CloseChannelKeeps(w: World, i: nat, c: Channel)
    requires Inv(w) && Active(w, i) && w.slots[i].Fd(c) >= 0
    ensures Inv(ChannelClosed(w, i, c))
  {
    var w' := ChannelClosed(w, i, c);
    assert SlotInv(w, i) && SlotInv(w', i);
    hide FdsInv, ChildrenInv, HandlesInv, RuntimeInv, SignalInv, FreedInv, LineageInv, SlotInv;
    assert forall j: nat :: Active(w', j) <==> Active(w, j);
    ActivityFrame(w, w');
    ChannelClosedFds(w, i, c);
    ChildrenFrame(w, w');
    HandlesFrame(w, w');
    LineageFrame(w, w');
    FreedFrame(w, w');
    forall j: nat | j < |w.slots| && j != i
      ensures SlotInv(w', j)
    {
      SlotFrame(w, w', j);
    }
  }

  /** Setting a flag that the kernel's state justifies. */
  lemma FlagKeeps(w: World, i: nat, s: Slot)
    requires Inv(w) && Published(w, i)
    requires s == w.slots[i].(observed := s.observed, swept := s.swept)
    requires SlotInv(w.(slots := w.slots[i := s]), i)
    ensures Inv(w.(slots := w.slots[i := s]))
  {
    var w' := w.(slots := w.slots[i := s]);
    hide FdsInv, ChildrenInv, HandlesInv, RuntimeInv, SignalInv, FreedInv, LineageInv, SlotInv;
    assert forall j: nat :: Active(w', j) <==> Active(w, j);
    ActivityFrame(w, w');
    assert forall j: nat, c | Active(w, j) :: w'.slots[j].Fd(c) == w.slots[j].Fd(c);
    FdsFrame(w, w');
    ChildrenFrame(w, w');
    HandlesFrame(w, w');
    LineageFrame(w, w');
    FreedFrame(w, w');
    forall j: nat | j < |w.slots| && j != i
      ensures SlotInv(w', j)
    {
      SlotFrame(w, w', j);
    }
  }

  lemma SweptKeeps(w: World, i: nat)
    requires Inv(w) && Published(w, i) && Dead(w.k, w.lineage[i])
    ensures Inv(w.(slots := w.slots[i := w.slots[i].(swept := true)]))
  {
    assert SlotInv(w, i);
    FlagKeeps(w, i, w.slots[i].(swept := true));
  }

  lemma ObservedKeeps(w: World, i: nat)
    requires Inv(w) && Published(w, i)
    requires !w.slots[i].reaped && w.slots[i].leader in w.k.procs && !w.k.procs[w.slots[i].leader].live
    ensures Inv(w.(slots := w.slots[i := w.slots[i].(observed := true)]))
  {
    assert SlotInv(w, i);
    FlagKeeps(w, i, w.slots[i].(observed := true));
  }

  /** Taking one entry out of the process table kills nobody and revives nobody. */
  lemma ReapKernel(k: Kernel, pid: int)
    requires GroupsBelow(k)
    ensures GroupsBelow(ReapEffect(k, pid))
    ensures forall p :: Mine(ReapEffect(k, pid), p) <==> Mine(k, p) && p != pid
    ensures forall g: nat | Dead(k, g) :: Dead(ReapEffect(k, pid), g)
  {
  }

  ghost function Reaped(w: World, i: nat): World
    requires i < |w.slots|
  {
    w.(slots := w.slots[i := w.slots[i].(reaped := true)],
       keeper := w.keeper - {w.slots[i].leader},
       k := ReapEffect(w.k, w.slots[i].leader))
  }

  lemma ReapKeeps(w: World, i: nat)
    requires Inv(w) && Published(w, i) && w.slots[i].observed && !w.slots[i].reaped
    ensures Inv(Reaped(w, i))
  {
    var w' := Reaped(w, i);
    var pid := w.slots[i].leader;
    assert SlotInv(w, i);
    assert pid in w.keeper && w.keeper[pid] == i;
    ReapKernel(w.k, pid);
    assert SlotInv(w', i);
    assert forall j: nat :: Active(w', j) <==> Active(w, j);
    assert ChildrenInv(w');
    forall j: nat | j < |w.slots| && j != i
      ensures SlotInv(w', j)
    {
      assert Active(w, j) && w.slots[j].leader != 0 && !w.slots[j].reaped ==> w.keeper[w.slots[j].leader] == j;
      SlotFrame(w, w', j);
    }
    hide FdsInv, ChildrenInv, HandlesInv, RuntimeInv, SignalInv, FreedInv, LineageInv, SlotInv;
    ActivityFrame(w, w');
    assert forall j: nat, c | Active(w, j) :: w'.slots[j].Fd(c) == w.slots[j].Fd(c);
    FdsFrame(w, w');
    HandlesFrame(w, w');
    LineageFrame(w, w');
    FreedFrame(w, w');
  }

  /** An inactive slot owns no descriptor. */
  lemma VacatedFds(w: World, w': World, i: nat)
    requires FdsInv(w) && Active(w, i) && w.slots[i].ChannelsClosed()
    requires w'.k.fds == w.k.fds && w'.loose == w.loose && w'.holder == w.holder
    requires w'.slots == w.slots[i := FREE_SLOT]
    ensures FdsInv(w')
  {
  }

  /** Releasing a slot whose child is gone. */
  lemma FreeKeeps(w: World, i: nat)
    requires Inv(w) && Published(w, i)
    requires w.slots[i].reaped && w.slots[i].swept && w.slots[i].ChannelsClosed()
    ensures var w' := w.(slots := w.slots[i := FREE_SLOT], freed := w.freed + {w.lineage[i]});
            Inv(w') && Evolves(w, w')
  {
    var w' := w.(slots := w.slots[i := FREE_SLOT], freed := w.freed + {w.lineage[i]});
    assert SlotInv(w, i) && SlotInv(w', i);
    assert forall j: nat :: Active(w', j) <==> Active(w, j) && j != i;
    assert ChildrenInv(w');
    assert FreedInv(w');
    assert Held(w, i);
    assert LineageInv(w') by {
      assert forall j: nat :: Held(w', j) <==> Held(w, j) && j != i;
    }
    assert Evolves(w, w');
    hide FdsInv, ChildrenInv, HandlesInv, RuntimeInv, SignalInv, FreedInv, LineageInv, SlotInv, Evolves;
    ActivityFrame(w, w');
    VacatedFds(w, w', i);
    HandlesFrame(w, w');
    forall j: nat | j < |w.slots| && j != i
      ensures SlotInv(w', j)
    {
      SlotFrame(w, w', j);
    }
  }

  // ----- Steps of an open -----

  lemma LooseKeeps(w: World, loose: set<int>, k': Kernel)
    requires Inv(w) && w.holder.Keys !! loose
    requires Becomes(w.k, w.holder.Keys + loose, k')
    ensures Inv(w.(loose := loose, k := k'))
  {
    var k1 := w.k.(fds := w.holder.Keys + loose);
    var w1 := w.(loose := loose, k := k1);
    assert FdsInv(w1) by {
      assert forall j: nat :: Active(w1, j) <==> Active(w, j);
    }
    hide FdsInv, ChildrenInv, HandlesInv, RuntimeInv, SignalInv, FreedInv, LineageInv, SlotInv;
    ActivityFrame(w, w1);
    assert forall p :: Mine(w.k, p) <==> Mine(k1, p);
    ChildrenFrame(w, w1);
    HandlesFrame(w, w1);
    LineageFrame(w, w1);
    FreedFrame(w, w1);
    forall j: nat | j < |w.slots|
      ensures SlotInv(w1, j)
    {
      SlotFrame(w, w1, j);
    }
    InterferenceKeeps(w1, k');
  }

  lemma ClaimKeeps(w: World, i: nat)
    requires Inv(w) && i < |w.slots| && !w.slots[i].active
    requires w.runtime in {Open, ChildActive}
    ensures Inv(w.(slots := w.slots[i := CLAIMED_SLOT]))
  {
    var w' := w.(slots := w.slots[i := CLAIMED_SLOT]);
    assert SlotInv(w', i);
    assert RuntimeInv(w');
    assert forall s :: SignalInv(w, s) ==> SignalInv(w', s);
    assert forall j: nat :: Active(w', j) <==> Active(w, j) || j == i;
    assert forall c :: CLAIMED_SLOT.Fd(c) == -1;
    assert FdsInv(w');
    assert ChildrenInv(w');
    hide FdsInv, ChildrenInv, HandlesInv, RuntimeInv, SignalInv, FreedInv, LineageInv, SlotInv;
    HandlesFrame(w, w');
    LineageFrame(w, w');
    FreedFrame(w, w');
    forall j: nat | j < |w.slots| && j != i
      ensures SlotInv(w', j)
    {
      SlotFrame(w, w', j);
    }
  }

  lemma UnclaimKeeps(w: World, i: nat)
    requires Inv(w) && i < |w.slots| && w.slots[i] == CLAIMED_SLOT
    ensures Inv(w.(slots := w.slots[i := FREE_SLOT]))
  {
    var w' := w.(slots := w.slots[i := FREE_SLOT]);
    assert SlotInv(w', i);
    assert forall j: nat :: Active(w', j) <==> Active(w, j) && j != i;
    assert ChildrenInv(w');
    assert Active(w, i);
    hide FdsInv, ChildrenInv, HandlesInv, RuntimeInv, SignalInv, FreedInv, LineageInv, SlotInv;
    ActivityFrame(w, w');
    VacatedFds(w, w', i);
    HandlesFrame(w, w');
    LineageFrame(w, w');
    FreedFrame(w, w');
    forall j: nat | j < |w.slots| && j != i
      ensures SlotInv(w', j)
    {
      SlotFrame(w, w', j);
    }
  }

  ghost function Forked(w: World, i: nat, pid: int): World
    requires i < |w.slots| == |w.lineage|
  {
    w.(slots := w.slots[i := CLAIMED_SLOT.(leader := pid, group := pid)],
       lineage := w.lineage[i := w.k.nextGroup],
       keeper := w.keeper[pid := i],
       k := ForkEffect(w.k, pid))
  }

  lemma ForkKernel(k: Kernel, pid: int)
    requires GroupsBelow(k) && !Mine(k, pid)
    ensures GroupsBelow(ForkEffect(k, pid))
    ensures forall p :: Mine(ForkEffect(k, pid), p) <==> Mine(k, p) || p == pid
    ensures forall g: nat | g < k.nextGroup && Dead(k, g) :: Dead(ForkEffect(k, pid), g)
  {
  }

  /** A new group is newer than every group known. */
  lemma ForkLineage(w: World, i: nat, pid: int)
    requires Inv(w) && i < |w.slots| && w.slots[i] == CLAIMED_SLOT
    ensures LineageInv(Forked(w, i, pid))
  {
    var w' := Forked(w, i, pid);
    forall j: nat | Held(w', j) && j != i
      ensures Held(w, j) && w'.lineage[j] == w.lineage[j] < w.k.nextGroup
    {
      assert SlotInv(w, j);
    }
  }

  lemma ForkChildren(w: World, i: nat, pid: int)
    requires Inv(w) && i < |w.slots| && w.slots[i] == CLAIMED_SLOT
    requires pid > 0 && !Mine(w.k, pid)
    ensures ChildrenInv(Forked(w, i, pid))
  {
    ForkKernel(w.k, pid);
    assert forall j: nat :: Active(Forked(w, i, pid), j) <==> Active(w, j);
    forall p | p in w.keeper
      ensures w.keeper[p] != i
    {
      assert w.slots[w.keeper[p]].leader == p;
    }
  }

  lemma ForkSlots(w: World, i: nat, pid: int, j: nat)
    requires Inv(w) && i < |w.slots| && w.slots[i] == CLAIMED_SLOT && j < |w.slots|
    requires pid > 0 && !Mine(w.k, pid)
    ensures SlotInv(Forked(w, i, pid), j)
  {
    ForkKernel(w.k, pid);
    if j != i { SlotFrame(w, Forked(w, i, pid), j); }
  }

  lemma ForkKeeps(w: World, i: nat, pid: int)
    requires Inv(w) && i < |w.slots| && w.slots[i] == CLAIMED_SLOT
    requires pid > 0 && !Mine(w.k, pid)
    ensures Inv(Forked(w, i, pid))
  {
    hide FdsInv, ChildrenInv, HandlesInv, RuntimeInv, SignalInv, FreedInv, LineageInv, SlotInv;
    var w' := Forked(w, i, pid);
    ForkKernel(w.k, pid);
    assert forall j: nat :: Active(w', j) <==> Active(w, j);
    ForkLineage(w, i, pid);
    ForkChildren(w, i, pid);
    forall j: nat | j < |w.slots|
      ensures SlotInv(w', j)
    {
      ForkSlots(w, i, pid, j);
    }
    ActivityFrame(w, w');
    assert forall j: nat, c | Active(w, j) :: w'.slots[j].Fd(c) == w.slots[j].Fd(c);
    FdsFrame(w, w');
    HandlesFrame(w, w');
    FreedFrame(w, w');
  }

  ghost function Discarded(w: World, i: nat): World
    requires i < |w.slots|
  {
    w.(slots := w.slots[i := FREE_SLOT],
       keeper := w.keeper - {w.slots[i].leader},
       k := ReapEffect(w.k, w.slots[i].leader))
  }

  /** An unpublished child that has been reaped leaves its slot. */
  lemma DiscardKeeps(w: World, i: nat)
    requires Inv(w) && Wedged(w, i)
    ensures Inv(Discarded(w, i))
  {
    var w' := Discarded(w, i);
    var pid := w.slots[i].leader;
    assert SlotInv(w, i);
    assert pid in w.keeper && w.keeper[pid] == i;
    ReapKernel(w.k, pid);
    assert SlotInv(w', i);
    assert forall j: nat :: Active(w', j) <==> Active(w, j) && j != i;
    assert ChildrenInv(w');
    forall j: nat | j < |w.slots| && j != i
      ensures SlotInv(w', j)
    {
      assert Active(w, j) && w.slots[j].leader != 0 && !w.slots[j].reaped ==> w.keeper[w.slots[j].leader] == j;
      SlotFrame(w, w', j);
    }
    hide FdsInv, ChildrenInv, HandlesInv, RuntimeInv, SignalInv, FreedInv, LineageInv, SlotInv;
    ActivityFrame(w, w');
    VacatedFds(w, w', i);
    HandlesFrame(w, w');
    LineageFrame(w, w');
    FreedFrame(w, w');
  }

  ghost function PublishedSlot(w: World, i: nat, out: int, err: int, setup: int): World
    requires i < |w.slots| == |w.serial|
  {
    w.(slots := w.slots[i := w.slots[i].(stdoutFd := out, stderrFd := err, setupFd := setup, handle := w.nextHandle)],
       serial := w.serial[i := w.published],
       nextHandle := HandleOf(w.published + 1),
       published := w.published + 1,
       loose := w.loose - {out, err, setup},
       holder := w.holder[out := (i, Stdout)][err := (i, Stderr)][setup := (i, Setup)])
  }

  /** One descriptor moves from a local variable into a closed slot field. */
  ghost function Adopted(w: World, i: nat, c: Channel, fd: int): World
    requires i < |w.slots|
  {
    w.(slots := w.slots[i := w.slots[i].WithFd(c, fd)],
       loose := w.loose - {fd},
       holder := w.holder[fd := (i, c)])
  }

  lemma AdoptedFds(w: World, i: nat, c: Channel, fd: int)
    requires FdsInv(w) && Active(w, i) && w.slots[i].Fd(c) < 0
    requires fd > 2 && fd in w.loose
    ensures FdsInv(Adopted(w, i, c, fd))
  {
    var w' := Adopted(w, i, c, fd);
    assert forall j: nat :: Active(w', j) <==> Active(w, j);
    assert forall j: nat, d | Active(w, j) ::
        w'.slots[j].Fd(d) == if j == i && d == c then fd else w.slots[j].Fd(d);
    assert forall d | d in w.holder :: w.holder[d] != (i, c);
  }

  lemma AdoptedLeaves(w: World, i: nat, c: Channel, fd: int)
    requires Active(w, i)
    ensures var w' := Adopted(w, i, c, fd);
            && w'.loose == w.loose - {fd} && Active(w', i)
            && forall d | d != c :: w'.slots[i].Fd(d) == w.slots[i].Fd(d)
  {
  }

  /** Filling in a record is adopting its three descriptors. */
  lemma PublishedIsAdopted(w: World, i: nat, out: int, err: int, setup: int)
    requires Active(w, i) && i < |w.serial| == |w.slots|
    ensures var w', w3 := PublishedSlot(w, i, out, err, setup),
                          Adopted(Adopted(Adopted(w, i, Stdout, out), i, Stderr, err), i, Setup, setup);
            && |w'.slots| == |w3.slots| && w'.k == w3.k && w'.loose == w3.loose && w'.holder == w3.holder
            && (forall j: nat :: Active(w', j) <==> Active(w3, j))
            && (forall j: nat, c | Active(w3, j) :: w'.slots[j].Fd(c) == w3.slots[j].Fd(c))
  {
  }

  lemma PublishedFds(w: World, i: nat, out: int, err: int, setup: int)
    requires FdsInv(w) && Active(w, i) && i < |w.serial| == |w.slots| && w.slots[i].ChannelsClosed()
    requires out > 2 && err > 2 && setup > 2 && out != err && err != setup && out != setup
    requires {out, err, setup} <= w.loose
    ensures FdsInv(PublishedSlot(w, i, out, err, setup))
  {
    hide FdsInv, Adopted, PublishedSlot;
    AdoptedLeaves(w, i, Stdout, out);
    AdoptedFds(w, i, Stdout, out);
    var w1 := Adopted(w, i, Stdout, out);
    AdoptedLeaves(w1, i, Stderr, err);
    AdoptedFds(w1, i, Stderr, err);
    var w2 := Adopted(w1, i, Stderr, err);
    AdoptedFds(w2, i, Setup, setup);
    PublishedIsAdopted(w, i, out, err, setup);
    FdsFrame(Adopted(w2, i, Setup, setup), PublishedSlot(w, i, out, err, setup));
  }

  lemma PublishKeeps(w: World, i: nat, out: int, err: int, setup: int)
    requires Inv(w) && Wedged(w, i)
    requires out > 2 && err > 2 && setup > 2 && out != err && err != setup && out != setup
    requires {out, err, setup} <= w.loose
    ensures Inv(PublishedSlot(w, i, out, err, setup))
  {
    var w' := PublishedSlot(w, i, out, err, setup);
    assert SlotInv(w, i) && SlotInv(w', i);
    forall j: nat | Published(w, j)
      ensures w.serial[j] < w.published && j != i
    {
      assert SlotInv(w, j);
    }
    assert forall j: nat :: Published(w', j) <==> Published(w, j) || j == i;
    assert HandlesInv(w');
    hide FdsInv, ChildrenInv, HandlesInv, RuntimeInv, SignalInv, FreedInv, LineageInv, SlotInv;
    assert forall j: nat :: Active(w', j) <==> Active(w, j);
    ActivityFrame(w, w');
    PublishedFds(w, i, out, err, setup);
    ChildrenFrame(w, w');
    FreedFrame(w, w');
    forall j: nat | j < |w.slots| && j != i
      ensures SlotInv(w', j)
    {
      SlotFrame(w, w', j);
    }
  }
}

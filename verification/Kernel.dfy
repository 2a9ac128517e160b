/** The part of the operating system the exec adapter depends on: processes, process groups,
    descriptors and signal dispositions, with the contract assumed of each.

    A group is identified by its own incarnation number rather than by its reusable numeric id. The
    contract behind that is POSIX's: while a leader is unreaped, its number names its group and no other. */
module Kernel {

  type byte = x: int | 0 <= x < 256

  const ECHILD := 10
  const EACCES := 13
  const EBUSY := 16
  const EINVAL := 22
  const ESRCH := 3
  const EPERM := 1
  const EIO := 5
  const EBADF := 9

  datatype Signal = SigInt | SigTerm | SigChld | SigPipe

  datatype Disposition = Handler | Default | Ignore | Foreign(id: nat)

  datatype PerSignal<T> = PerSignal(onInt: T, onTerm: T, onChld: T, onPipe: T) {
    function Get(s: Signal): T {
      match s
      case SigInt => onInt
      case SigTerm => onTerm
      case SigChld => onChld
      case SigPipe => onPipe
    }

    function Set(s: Signal, v: T): PerSignal<T> {
      match s
      case SigInt => this.(onInt := v)
      case SigTerm => this.(onTerm := v)
      case SigChld => this.(onChld := v)
      case SigPipe => this.(onPipe := v)
    }
  }

  /** What the adapter installs for each signal: its handler for the two interrupts, the default for
      SIGCHLD, and SIG_IGN for SIGPIPE. */
  function Ours(s: Signal): Disposition {
    match s
    case SigInt => Handler
    case SigTerm => Handler
    case SigChld => Default
    case SigPipe => Ignore
  }

  datatype GroupAction = Probe | Term | Kill

  /** A signal sent: to the group a number names, or as SIGKILL to the process it names. */
  datatype Send = ToGroup(leader: int, action: GroupAction) | ToLeader(leader: int)

  /** One entry of the process table. `mine` marks an unreaped direct child of the adapter, which stays
      in the table as a zombie (`!live`) until the adapter reaps it. */
  datatype Proc = Proc(group: nat, live: bool, mine: bool)

  /** `fds` holds the descriptors the adapter opened and has not closed. The two counters record misuse:
      a close of a descriptor not in `fds`, and a signal aimed through a number whose leader is not an
      unreaped child. `sent` is every signal the adapter ever sent. */
  datatype Kernel = Kernel(
    procs: map<int, Proc>,
    nextGroup: nat,
    fds: set<int>,
    strayCloses: nat,
    straySignals: nat,
    sent: seq<Send>)

  ghost predicate Mine(k: Kernel, pid: int) {
    pid in k.procs && k.procs[pid].mine
  }

  /** No member of group `g` can run, and so none can fork. */
  ghost predicate Dead(k: Kernel, g: nat) {
    forall p | p in k.procs && k.procs[p].group == g :: !k.procs[p].live
  }

  ghost predicate GroupsBelow(k: Kernel) {
    forall p | p in k.procs :: k.procs[p].group < k.nextGroup
  }

  /** What everything other than the adapter may do to the kernel between two of its own steps. */
  ghost predicate Interferes(k: Kernel, k': Kernel) {
    && k'.fds == k.fds
    && k'.strayCloses == k.strayCloses
    && k'.straySignals == k.straySignals
    && k'.sent == k.sent
    && k.nextGroup <= k'.nextGroup
    && (forall p :: Mine(k, p) <==> Mine(k', p))
    && (forall p | Mine(k, p) ::
          k'.procs[p].group == k.procs[p].group && (k'.procs[p].live ==> k.procs[p].live))
    && (forall g: nat | g < k.nextGroup && Dead(k, g) :: Dead(k', g))
    && (GroupsBelow(k) ==> GroupsBelow(k'))
  }

  lemma InterferesTransitive(a: Kernel, b: Kernel, c: Kernel)
    requires Interferes(a, b) && Interferes(b, c)
    ensures Interferes(a, c)
  {
  }

  /** The individual moves of the outside world: a live member forks into its own group, a process exits,
      an exited stranger is reaped by its own parent, and a stranger starts a group of its own. Only a
      live member can put a new process into an existing group. */
  datatype Event =
    | Forks(parent: int, child: int)
    | Exits(pid: int)
    | Vanishes(pid: int)
    | StartsGroup(pid: int)

  ghost predicate Enabled(k: Kernel, e: Event) {
    match e
    case Forks(parent, child) => parent in k.procs && k.procs[parent].live && child !in k.procs
    case Exits(pid) => pid in k.procs
    case Vanishes(pid) => pid in k.procs && !k.procs[pid].live && !k.procs[pid].mine
    case StartsGroup(pid) => !Mine(k, pid)
  }

  ghost function Apply(k: Kernel, e: Event): Kernel
    requires Enabled(k, e)
  {
    match e
    case Forks(parent, child) => k.(procs := k.procs[child := Proc(k.procs[parent].group, true, false)])
    case Exits(pid) => k.(procs := k.procs[pid := k.procs[pid].(live := false)])
    case Vanishes(pid) => k.(procs := k.procs - {pid})
    case StartsGroup(pid) =>
      k.(procs := k.procs[pid := Proc(k.nextGroup, true, false)], nextGroup := k.nextGroup + 1)
  }

  ghost predicate Happens(k: Kernel, events: seq<Event>, k': Kernel)
    decreases |events|
  {
    if events == [] then k' == k
    else Enabled(k, events[0]) && Happens(Apply(k, events[0]), events[1..], k')
  }

  lemma EventInterferes(k: Kernel, e: Event)
    requires GroupsBelow(k) && Enabled(k, e)
    ensures Interferes(k, Apply(k, e))
  {
  }

  /** Any finite run of outside events, members forking as fast as they can included, is interference:
      no child of the adapter is reaped behind its back, and a dead group never comes back to life. */
  lemma {:induction false} EventsInterfere(k: Kernel, events: seq<Event>, k': Kernel)
    requires GroupsBelow(k) && Happens(k, events, k')
    ensures Interferes(k, k')
    decreases |events|
  {
    if events != [] {
      var mid := Apply(k, events[0]);
      EventInterferes(k, events[0]);
      EventsInterfere(mid, events[1..], k');
      InterferesTransitive(k, mid, k');
    }
  }

  // ----- The adapter's own effects -----

  ghost function CloseEffect(k: Kernel, fd: int): Kernel {
    k.(fds := k.fds - {fd}, strayCloses := k.strayCloses + if fd in k.fds then 0 else 1)
  }

  ghost function SignalEffect(k: Kernel, s: Send): Kernel {
    k.(straySignals := k.straySignals + (if Mine(k, s.leader) then 0 else 1), sent := k.sent + [s])
  }

  /** Signal `s` was sent, and nothing else was: once, or again after failed attempts. */
  ghost predicate OnlySent(k: Kernel, k': Kernel, s: Send) {
    && |k.sent| < |k'.sent| && k.sent <= k'.sent
    && forall i | |k.sent| <= i < |k'.sent| :: k'.sent[i] == s
  }

  lemma SentOnce(a: Kernel, b: Kernel, c: Kernel, s: Send)
    requires (b.sent == a.sent || OnlySent(a, b, s)) && c.sent == b.sent + [s]
    ensures OnlySent(a, c, s)
  {
  }

  lemma SentLately(a: Kernel, b: Kernel, c: Kernel, s: Send)
    requires OnlySent(a, b, s) && c.sent == b.sent
    ensures OnlySent(a, c, s)
  {
  }

  /** Whatever was sent went through one number. */
  ghost predicate AllTo(k: Kernel, k': Kernel, leader: int) {
    && |k.sent| <= |k'.sent| && k.sent <= k'.sent
    && forall i | |k.sent| <= i < |k'.sent| :: k'.sent[i].leader == leader
  }

  lemma AllToNone(a: Kernel, leader: int)
    ensures AllTo(a, a, leader)
  {
  }

  lemma SentToOne(a: Kernel, b: Kernel, leader: int, action: GroupAction)
    requires OnlySent(a, b, ToGroup(leader, action))
    ensures AllTo(a, b, leader)
  {
  }

  lemma AllToOn(a: Kernel, b: Kernel, c: Kernel, leader: int)
    requires AllTo(a, b, leader) && AllTo(b, c, leader)
    ensures AllTo(a, c, leader)
  {
  }

  /** So it did, and it began with a TERM to the group. */
  ghost predicate TermFirst(k: Kernel, k': Kernel, leader: int) {
    AllTo(k, k', leader) && |k.sent| < |k'.sent| && k'.sent[|k.sent|] == ToGroup(leader, Term)
  }

  /** TERM to the group, then nothing, then whatever else to the same leader. */
  lemma BeginsWithTerm(a: Kernel, b: Kernel, c: Kernel, d: Kernel, leader: int)
    requires OnlySent(a, b, ToGroup(leader, Term)) && c.sent == b.sent && AllTo(c, d, leader)
    ensures TermFirst(a, d, leader)
  {
  }

  /** A new child, leading a new group. */
  ghost function ForkEffect(k: Kernel, pid: int): Kernel {
    k.(procs := k.procs[pid := Proc(k.nextGroup, true, true)], nextGroup := k.nextGroup + 1)
  }

  ghost function ReapEffect(k: Kernel, pid: int): Kernel {
    k.(procs := k.procs - {pid})
  }

  /** `k'` is `k` with descriptor set `fds`, after interference. */
  ghost predicate Becomes(k: Kernel, fds: set<int>, k': Kernel) {
    Interferes(k.(fds := fds), k')
  }

  lemma InterferesFds(k: Kernel, k': Kernel, fds: set<int>)
    requires Interferes(k, k')
    ensures Interferes(k.(fds := fds), k'.(fds := fds))
  {
    var a, b := k.(fds := fds), k'.(fds := fds);
    assert forall p :: (Mine(k, p) <==> Mine(a, p)) && (Mine(k', p) <==> Mine(b, p));
    forall g: nat | g < a.nextGroup && Dead(a, g)
      ensures Dead(b, g)
    {
      assert Dead(k, g);
    }
  }

  lemma InterferesSent(k: Kernel, k': Kernel)
    requires Interferes(k, k')
    ensures k'.sent == k.sent && k'.fds == k.fds
  {
  }

  lemma BecomesFds(a: Kernel, f: set<int>, b: Kernel)
    requires Becomes(a, f, b)
    ensures b.fds == f && b.sent == a.sent
  {
  }

  lemma BecomesTransitive(a: Kernel, f: set<int>, b: Kernel, g: set<int>, c: Kernel)
    requires Becomes(a, f, b) && Becomes(b, g, c)
    ensures Becomes(a, g, c)
  {
    hide Interferes;
    InterferesFds(a.(fds := f), b, g);
    InterferesTransitive(a.(fds := g), b.(fds := g), c);
  }

  // ----- Descriptor and process creation always has a possible success -----

  lemma {:induction false} SomethingAbove(s: set<int>) returns (bound: int)
    ensures bound > 2 && forall fd | fd in s :: fd < bound
    decreases |s|
  {
    if fd :| fd in s {
      var rest := SomethingAbove(s - {fd});
      bound := if rest > fd then rest else fd + 1;
      assert s == (s - {fd}) + {fd};
    } else {
      bound := 3;
    }
  }

  /** The kernel contract of pipe can be met by success in every state. */
  lemma PipeCanSucceed(k: Kernel)
    ensures exists r, w, k' ::
              r >= 0 && w >= 0 && r != w && r !in k.fds && w !in k.fds && Becomes(k, k.fds + {r, w}, k')
  {
    var r := SomethingAbove(k.fds);
    var w := r + 1;
    var k' := k.(fds := k.fds + {r, w});
    assert Becomes(k, k.fds + {r, w}, k');
  }

  /** So can that of fork. */
  lemma ForkCanSucceed(k: Kernel)
    ensures exists pid, k' :: pid > 0 && !Mine(k, pid) && Interferes(ForkEffect(k, pid), k')
  {
    var pid := SomethingAbove(k.procs.Keys);
    var k' := ForkEffect(k, pid);
    assert Interferes(k', k');
  }
}

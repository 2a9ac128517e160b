/** Polling one child's channels and polling many children's at once. Polling reads the slot table and
    changes nothing but the caller's results. Readiness bits are a set of channels. */
module Polling {
  import opened Kernel
  import opened World
  import opened Errors
  import opened Outcomes
  import Adapter

  /** The revents poll stores for one descriptor: its sign, POLLNVAL, any of POLLIN, POLLHUP and POLLERR, and
      the whole mask for the diagnostic. */
  datatype Revents = Revents(negative: bool, invalid: bool, ready: bool, mask: nat) {
    predicate Faulty() { negative || invalid }

    function Diagnostic(operation: nat, fd: int): Error {
      if negative then NO_ERROR.Primary(operation, EIO, 0, fd) else NO_ERROR.Primary(operation, EBADF, mask, fd)
    }
  }

  /** The answer of poll, once a call interrupted without a pending interrupt has been retried. */
  datatype PollAnswer = Polled(of: int -> Revents) | Interrupted | PollError(errno: int)

  function Rank(c: Channel): nat {
    match c
    case Stdout => 0
    case Stderr => 1
    case Setup => 2
  }

  predicate Open(s: Slot, c: Channel) { s.Fd(c) >= 0 }

  predicate Fault(s: Slot, of: int -> Revents, c: Channel) { Open(s, c) && of(s.Fd(c)).Faulty() }

  predicate News(s: Slot, of: int -> Revents, c: Channel) { Open(s, c) && of(s.Fd(c)).ready }

  /** Channel f is the first faulty one: it is diagnosed and only the channels before it have been reported. */
  ghost predicate StopsAt(s: Slot, of: int -> Revents, f: Channel, operation: nat, readiness: set<Channel>,
                          err: Error)
  {
    && Fault(s, of, f)
    && (forall c | Rank(c) < Rank(f) :: !Fault(s, of, c))
    && err == of(s.Fd(f)).Diagnostic(operation, s.Fd(f))
    && (forall c :: c in readiness <==> Rank(c) < Rank(f) && News(s, of, c))
  }

  /** Without a fault the readiness is exactly the open channels with news; otherwise the poll stops
      at the first faulty one. */
  ghost predicate Reports(s: Slot, of: int -> Revents, operation: nat, rc: int, readiness: set<Channel>, err: Error) {
    if forall c :: !Fault(s, of, c) then
      rc == 0 && err == NO_ERROR && forall c :: c in readiness <==> News(s, of, c)
    else
      && rc == -1
      && exists f :: StopsAt(s, of, f, operation, readiness, err)
  }

  predicate Bad(of: int -> Revents, fd: int) {
    fd >= 0 && (of(fd).negative || of(fd).invalid)
  }

  predicate Good(of: int -> Revents, fd: int) {
    fd >= 0 && !of(fd).negative && !of(fd).invalid && of(fd).ready
  }

  /** What is reported of a bad descriptor: EIO for a negative answer, else EBADF and the whole mask. */
  ghost predicate Blames(err: Error, of: int -> Revents, fd: int, operation: nat) {
    && err.operation == operation && err.subject == fd && err.cleanupOperation == err.cleanupErrno == 0
    && (of(fd).negative ==> err.errno == 5 && err.detail == 0)
    && (!of(fd).negative ==> err.errno == 9 && err.detail == of(fd).mask)
  }

  /** A report by the answers alone, in the order stdout, stderr, setup. */
  lemma ReportsByTheAnswers(s: Slot, of: int -> Revents, operation: nat, rc: int, readiness: set<Channel>, err: Error)
    requires Reports(s, of, operation, rc, readiness, err)
    ensures rc == 0 <==> !Bad(of, s.stdoutFd) && !Bad(of, s.stderrFd) && !Bad(of, s.setupFd)
    ensures rc == 0 ==> err.operation == 0
    ensures rc != 0 ==> Blames(err, of, if Bad(of, s.stdoutFd) then s.stdoutFd
                                        else if Bad(of, s.stderrFd) then s.stderrFd else s.setupFd, operation)
    ensures Stdout in readiness <==> Good(of, s.stdoutFd)
    ensures Stderr in readiness <==> Good(of, s.stderrFd) && !Bad(of, s.stdoutFd)
    ensures Setup in readiness <==> Good(of, s.setupFd) && !Bad(of, s.stdoutFd) && !Bad(of, s.stderrFd)
  {
    assert s.Fd(Stdout) == s.stdoutFd && s.Fd(Stderr) == s.stderrFd && s.Fd(Setup) == s.setupFd;
    assert Fault(s, of, Stdout) <==> Bad(of, s.stdoutFd);
    assert Fault(s, of, Stderr) <==> Bad(of, s.stderrFd);
    assert Fault(s, of, Setup) <==> Bad(of, s.setupFd);
    assert Rank(Stdout) < Rank(Stderr) < Rank(Setup);
    if exists c :: Fault(s, of, c) {
      var f :| StopsAt(s, of, f, operation, readiness, err);
    }
  }

  ghost predicate AllFound(slots: seq<Slot>, handles: seq<nat>) {
    forall i | 0 <= i < |handles| :: Lookup(slots, handles[i]) >= 0
  }

  ghost predicate Distinct(handles: seq<nat>) {
    forall i, j | 0 <= i < j < |handles| :: handles[i] != handles[j]
  }

  function SlotOf(slots: seq<Slot>, handle: nat): Slot
    requires Lookup(slots, handle) >= 0
  {
    slots[Lookup(slots, handle)]
  }

  /** The first n handles were reported without a fault; if there is another, its fault ended the call and
      what follows it stays zero. */
  ghost predicate ReportsUpTo(slots: seq<Slot>, handles: seq<nat>, of: int -> Revents, n: nat, rc: int,
                              results: seq<set<Channel>>, err: Error)
    requires AllFound(slots, handles)
  {
    && n <= |handles| == |results|
    && (forall j | 0 <= j < n :: Reports(SlotOf(slots, handles[j]), of, OP_POLL_SET, 0, results[j], NO_ERROR))
    && (forall j | n < j < |handles| :: results[j] == {})
    && (if n == |handles| then rc == 0 && err == NO_ERROR
        else rc == -1 && Reports(SlotOf(slots, handles[n]), of, OP_POLL_SET, rc, results[n], err))
  }

  ghost predicate SetReports(slots: seq<Slot>, handles: seq<nat>, of: int -> Revents, rc: int,
                             results: seq<set<Channel>>, err: Error)
    requires AllFound(slots, handles)
  {
    exists n: nat :: ReportsUpTo(slots, handles, of, n, rc, results, err)
  }

  // ----- The set call against the single call -----

  /** One snapshot leaves a single poll no choice. */
  lemma ReportsOnce(s: Slot, of: int -> Revents, o: nat, o': nat, rc: int, rc': int,
                    r: set<Channel>, r': set<Channel>, err: Error, err': Error)
    requires Reports(s, of, o, rc, r, err) && Reports(s, of, o', rc', r', err')
    ensures rc == rc' && r == r' && err' == (if rc == 0 then err else err.(operation := o'))
  {
    if exists c :: Fault(s, of, c) {
      var f :| StopsAt(s, of, f, o, r, err);
      var f' :| StopsAt(s, of, f', o', r', err');
      assert f == f';
    }
  }

  /** A set poll refines polling every handle by itself on the same snapshot: it succeeds exactly if every
      single poll does, with the same readiness; otherwise it stops at the first handle whose own poll fails,
      with that poll's diagnostic. */
  lemma SetPollRefinesSinglePolls(slots: seq<Slot>, handles: seq<nat>, of: int -> Revents,
                                  rc: int, results: seq<set<Channel>>, err: Error,
                                  rcs: seq<int>, singles: seq<set<Channel>>, errs: seq<Error>)
    requires AllFound(slots, handles) && SetReports(slots, handles, of, rc, results, err)
    requires |rcs| == |singles| == |errs| == |handles|
    requires forall i | 0 <= i < |handles| ::
               Reports(SlotOf(slots, handles[i]), of, OP_POLL, rcs[i], singles[i], errs[i])
    ensures rc == 0 <==> forall i | 0 <= i < |handles| :: rcs[i] == 0
    ensures rc == 0 ==> results == singles
    ensures rc != 0 ==> exists n | 0 <= n < |handles| ::
              && rcs[n] != 0 && err == errs[n].(operation := OP_POLL_SET)
              && results[..n + 1] == singles[..n + 1]
              && (forall i | 0 <= i < n :: rcs[i] == 0)
              && (forall i | n < i < |handles| :: results[i] == {})
  {
    var n: nat :| ReportsUpTo(slots, handles, of, n, rc, results, err);
    hide Reports;
    forall j | 0 <= j < n
      ensures rcs[j] == 0 && results[j] == singles[j]
    {
      ReportsOnce(SlotOf(slots, handles[j]), of, OP_POLL, OP_POLL_SET, rcs[j], 0, singles[j], results[j],
                  errs[j], NO_ERROR);
    }
    if n < |handles| {
      ReportsOnce(SlotOf(slots, handles[n]), of, OP_POLL, OP_POLL_SET, rcs[n], rc, singles[n], results[n],
                  errs[n], err);
      assert results[..n + 1] == singles[..n + 1];
    }
  }

  /** The order in which handles are listed does not matter to a successful poll, nor to whether it succeeds. */
  lemma SetPollIgnoresOrder(slots: seq<Slot>, h: seq<nat>, h': seq<nat>, of: int -> Revents,
                            rc: int, results: seq<set<Channel>>, err: Error,
                            rc': int, results': seq<set<Channel>>, err': Error)
    requires AllFound(slots, h) && SetReports(slots, h, of, rc, results, err)
    requires AllFound(slots, h') && SetReports(slots, h', of, rc', results', err')
    requires forall x :: x in h <==> x in h'
    ensures rc == rc'
    ensures rc == 0 ==> forall i, j | 0 <= i < |h| && 0 <= j < |h'| && h[i] == h'[j] :: results[i] == results'[j]
  {
    var n: nat :| ReportsUpTo(slots, h, of, n, rc, results, err);
    var n': nat :| ReportsUpTo(slots, h', of, n', rc', results', err');
    hide Reports;
    if n < |h| {
      assert h[n] in h';
      var j :| 0 <= j < |h'| && h'[j] == h[n];
      if j < n' {
        ReportsOnce(SlotOf(slots, h[n]), of, OP_POLL_SET, OP_POLL_SET, rc, 0, results[n], results'[j], err, NO_ERROR);
      }
    }
    if n' < |h'| {
      assert h'[n'] in h;
      var i :| 0 <= i < |h| && h[i] == h'[n'];
      if i < n {
        ReportsOnce(SlotOf(slots, h[i]), of, OP_POLL_SET, OP_POLL_SET, 0, rc', results[i], results'[n'],
                    NO_ERROR, err');
      }
    }
    if rc == 0 {
      forall i, j | 0 <= i < |h| && 0 <= j < |h'| && h[i] == h'[j]
        ensures results[i] == results'[j]
      {
        ReportsOnce(SlotOf(slots, h[i]), of, OP_POLL_SET, OP_POLL_SET, 0, 0, results[i], results'[j],
                    NO_ERROR, NO_ERROR);
      }
    }
  }

  // ----- The flattened array -----

  /** One watched descriptor, with the index of the handle and the channel it reports for. */
  datatype Entry = Entry(fd: int, owner: nat, channel: Channel)

  const NO_ENTRY := Entry(-1, 0, Stdout)

  const CHANNELS: seq<Channel> := [Stdout, Stderr, Setup]

  function Key(owner: nat, c: Channel): nat { 3 * owner + Rank(c) }

  ghost predicate Ascending(e: seq<Entry>) {
    forall a, b | 0 <= a < b < |e| :: Key(e[a].owner, e[a].channel) < Key(e[b].owner, e[b].channel)
  }

  ghost predicate Sound(e: seq<Entry>, records: seq<Slot>, bound: nat) {
    forall a | 0 <= a < |e| ::
      && Key(e[a].owner, e[a].channel) < bound
      && e[a].owner < |records|
      && e[a].fd == records[e[a].owner].Fd(e[a].channel) >= 0
  }

  ghost predicate Complete(e: seq<Entry>, records: seq<Slot>, bound: nat) {
    forall j: nat, c | j < |records| && Key(j, c) < bound && Open(records[j], c) ::
      Entry(records[j].Fd(c), j, c) in e
  }

  /** `e` lists, in order, exactly the open channels of the records with keys below `bound`. */
  ghost predicate Listed(e: seq<Entry>, records: seq<Slot>, bound: nat) {
    Ascending(e) && Sound(e, records, bound) && Complete(e, records, bound)
  }

  ghost function Records(slots: seq<Slot>, handles: seq<nat>): (r: seq<Slot>)
    requires AllFound(slots, handles)
    ensures |r| == |handles| && forall i | 0 <= i < |r| :: r[i] == SlotOf(slots, handles[i])
  {
    seq(|handles|, i requires 0 <= i < |handles| => SlotOf(slots, handles[i]))
  }

  /** Ascending keys below a bound are no more than the bound. */
  lemma {:induction false} KeysFit(e: seq<Entry>, bound: nat)
    requires Ascending(e) && forall a | 0 <= a < |e| :: Key(e[a].owner, e[a].channel) < bound
    ensures |e| <= bound
    decreases |e|
  {
    if e != [] {
      var last := |e| - 1;
      KeysFit(e[..last], Key(e[last].owner, e[last].channel));
    }
  }

  function Appended(e: seq<Entry>, s: Slot, j: nat, c: Channel): seq<Entry> {
    if Open(s, c) then e + [Entry(s.Fd(c), j, c)] else e
  }

  /** The next channel in turn is appended if it is open and skipped if it is not. */
  lemma NextListed(e: seq<Entry>, records: seq<Slot>, j: nat, c: Channel)
    requires j < |records| && Listed(e, records, Key(j, c))
    ensures Listed(Appended(e, records[j], j, c), records, Key(j, c) + 1)
  {
    var e' := Appended(e, records[j], j, c);
    assert Ascending(e') && Sound(e', records, Key(j, c) + 1) by {
      hide Complete;
    }
    forall j': nat, c' | j' < |records| && Key(j', c') < Key(j, c) + 1 && Open(records[j'], c')
      ensures Entry(records[j'].Fd(c'), j', c') in e'
    {
      hide Ascending, Sound;
      if Key(j', c') == Key(j, c) {
        assert j' == j && c' == c;
        assert e'[|e|] == Entry(records[j'].Fd(c'), j', c');
      }
    }
  }

  // ----- Reading the answer -----

  /** Some entry before `index` reports news for channel c of record j. */
  ghost predicate Hit(e: seq<Entry>, of: int -> Revents, index: nat, j: nat, c: Channel)
    requires index <= |e|
  {
    exists a :: 0 <= a < index && e[a].owner == j && e[a].channel == c && of(e[a].fd).ready
  }

  /** The entries before `index` are free of faults and r is what they report for record j. */
  ghost predicate Scanned(e: seq<Entry>, of: int -> Revents, index: nat, j: nat, r: set<Channel>)
    requires index <= |e|
  {
    forall c :: c in r <==> Hit(e, of, index, j, c)
  }

  ghost predicate Clean(e: seq<Entry>, of: int -> Revents, index: nat)
    requires index <= |e|
  {
    forall a | 0 <= a < index :: !of(e[a].fd).Faulty()
  }

  lemma HitIsNews(e: seq<Entry>, records: seq<Slot>, of: int -> Revents, index: nat, j: nat, c: Channel)
    requires Listed(e, records, 3 * |records|) && index <= |e| && j < |records|
    ensures Hit(e, of, index, j, c) <==>
            News(records[j], of, c) && (index < |e| ==> Key(j, c) < Key(e[index].owner, e[index].channel))
  {
  }

  /** A scan that stopped at `index`, or at the end, has reported every record before the stop in full, and of
      the record it stopped in the channels before the faulty one. */
  lemma ScanReports(e: seq<Entry>, records: seq<Slot>, of: int -> Revents, index: nat, j: nat, r: set<Channel>,
                    operation: nat)
    requires Listed(e, records, 3 * |records|) && index <= |e| && j < |records|
    requires Clean(e, of, index) && Scanned(e, of, index, j, r)
    requires index < |e| ==> of(e[index].fd).Faulty()
    ensures index == |e| || j < e[index].owner ==> Reports(records[j], of, operation, 0, r, NO_ERROR)
    ensures index < |e| && j == e[index].owner ==>
              Reports(records[j], of, operation, -1, r, of(e[index].fd).Diagnostic(operation, e[index].fd))
    ensures index < |e| && j > e[index].owner ==> r == {}
  {
    forall c
      ensures c in r <==> News(records[j], of, c) && (index < |e| ==> Key(j, c) < Key(e[index].owner, e[index].channel))
      ensures (index < |e| ==> Key(j, c) < Key(e[index].owner, e[index].channel)) ==> !Fault(records[j], of, c)
    {
      hide Listed, Clean;
      HitIsNews(e, records, of, index, j, c);
      if index < |e| ==> Key(j, c) < Key(e[index].owner, e[index].channel) {
        NoFaultBefore(e, records, of, index, j, c);
      }
    }
    if index < |e| && j == e[index].owner {
      assert StopsAt(records[j], of, e[index].channel, operation, r,
                     of(e[index].fd).Diagnostic(operation, e[index].fd));
    }
  }

  lemma NoFaultBefore(e: seq<Entry>, records: seq<Slot>, of: int -> Revents, index: nat, j: nat, c: Channel)
    requires Listed(e, records, 3 * |records|) && index <= |e| && j < |records| && Clean(e, of, index)
    requires index < |e| ==> Key(j, c) < Key(e[index].owner, e[index].channel)
    ensures !Fault(records[j], of, c)
  {
  }

  // ----- The calls -----

  /** Appends the open channels of one record. */
  method AddChannels(fds: array<Entry>, start: nat, ghost records: seq<Slot>, s: Slot, owner: nat) returns (n: nat)
    requires owner < |records| && records[owner] == s
    requires start <= fds.Length && 3 * |records| <= fds.Length
    requires Listed(fds[..start], records, 3 * owner)
    modifies fds
    ensures n <= fds.Length && Listed(fds[..n], records, 3 * (owner + 1))
  {
    n := start;
    for channel := 0 to 3
      invariant n <= fds.Length && Listed(fds[..n], records, 3 * owner + channel)
    {
      hide Listed;
      var c := CHANNELS[channel];
      assert Key(owner, c) == 3 * owner + channel;
      ghost var before := fds[..n];
      NextListed(before, records, owner, c);
      if s.Fd(c) >= 0 {
        ListFits(before, records, Key(owner, c));
        fds[n] := Entry(s.Fd(c), owner, c);
        n := n + 1;
      }
      assert fds[..n] == Appended(before, s, owner, c);
    }
  }

  lemma ListFits(e: seq<Entry>, records: seq<Slot>, bound: nat)
    requires Listed(e, records, bound)
    ensures |e| <= bound
  {
    KeysFit(e, bound);
  }

  /** Polling one child: a stale handle or a bad timeout is refused, an interrupt is no news, and otherwise the
      answer is reported channel by channel. */
  method ProcessPoll(adapter: Adapter.Adapter, handle: nat, timeoutMs: int, given: set<Channel>, answer: PollAnswer)
    returns (rc: int, readiness: set<Channel>, err: Error)
    ensures var i := Lookup(adapter.slots[..], handle);
            if timeoutMs < -1 then
              rc == -1 && readiness == given && err == NO_ERROR.Primary(OP_POLL, EINVAL, 0, timeoutMs)
            else if i < 0 then rc == -1 && readiness == {} && err == NO_ERROR.Primary(OP_POLL, EINVAL, 0, 0)
            else match answer
              case Interrupted => rc == 0 && readiness == {} && err == NO_ERROR
              case PollError(errno) => rc == -1 && readiness == {} && err == NO_ERROR.Primary(OP_POLL, errno, 0, 0)
              case Polled(of) => Reports(adapter.slots[i], of, OP_POLL, rc, readiness, err)
  {
    rc, readiness, err := -1, given, NO_ERROR;
    if timeoutMs < -1 {
      err := err.Primary(OP_POLL, EINVAL, 0, timeoutMs);
      return;
    }
    readiness := {};
    var i := adapter.FromHandle(handle);
    if i < 0 {
      err := err.Primary(OP_POLL, EINVAL, 0, 0);
      return;
    }
    var s := adapter.slots[i];
    var fds := new Entry[3](_ => NO_ENTRY);
    var n := AddChannels(fds, 0, [s], s, 0);
    match answer
    case Interrupted =>
      rc := 0;
    case PollError(errno) =>
      err := err.Primary(OP_POLL, errno, 0, 0);
    case Polled(of) =>
      rc, readiness, err := ReadOne(fds[..n], s, of);
  }

  method ReadOne(fds: seq<Entry>, ghost s: Slot, of: int -> Revents)
    returns (rc: int, readiness: set<Channel>, err: Error)
    requires Listed(fds, [s], 3)
    ensures Reports(s, of, OP_POLL, rc, readiness, err)
  {
    rc, readiness, err := 0, {}, NO_ERROR;
    assert Scanned(fds, of, 0, 0, {});
    hide Listed, Scanned, Reports;
    for index := 0 to |fds|
      invariant Clean(fds, of, index) && Scanned(fds, of, index, 0, readiness)
    {
      var revents := of(fds[index].fd);
      if revents.Faulty() {
        ScanReports(fds, [s], of, index, 0, readiness, OP_POLL);
        return -1, readiness, revents.Diagnostic(OP_POLL, fds[index].fd);
      }
      ghost var before := readiness;
      if revents.ready { readiness := readiness + {fds[index].channel}; }
      ScanAdvances(fds, of, index, 0, before, readiness);
    }
    ScanReports(fds, [s], of, |fds|, 0, readiness, OP_POLL);
  }

  lemma ScanAdvances(e: seq<Entry>, of: int -> Revents, index: nat, j: nat, r: set<Channel>, r': set<Channel>)
    requires index < |e| && Scanned(e, of, index, j, r)
    requires r' == if e[index].owner == j && of(e[index].fd).ready then r + {e[index].channel} else r
    ensures Scanned(e, of, index + 1, j, r')
  {
  }

  /** Whether a handle repeats an earlier one. */
  method Repeats(handles: array<nat>, index: nat) returns (repeats: bool)
    requires index < handles.Length
    ensures repeats <==> exists prior :: 0 <= prior < index && handles[prior] == handles[index]
  {
    for prior := 0 to index
      invariant forall j | 0 <= j < prior :: handles[j] != handles[index]
    {
      if handles[prior] == handles[index] { return true; }
    }
    return false;
  }

  /** Index of the first handle that repeats an earlier one, or the count. */
  method FirstRepeat(handles: array<nat>, count: nat) returns (n: nat)
    requires count <= handles.Length
    ensures n <= count && Distinct(handles[..n])
    ensures n < count ==> handles[n] in handles[..n]
  {
    for index := 0 to count
      invariant Distinct(handles[..index])
    {
      var repeats := Repeats(handles, index);
      if repeats { return index; }
      assert handles[..index + 1] == handles[..index] + [handles[index]];
    }
    return count;
  }

  /** Appends the channels of one more handle, if it is live. */
  method AddHandle(adapter: Adapter.Adapter, handle: nat, ghost slots: seq<Slot>, ghost all: seq<nat>, found: nat,
                   fds: array<Entry>, n: nat)
    returns (live: bool, m: nat)
    requires found < |all| && all[found] == handle && slots == adapter.slots[..]
    requires AllFound(slots, all[..found]) && 3 * |all| <= fds.Length && n <= fds.Length
    requires Listed(fds[..n], Records(slots, all[..found]), 3 * found)
    modifies fds
    ensures live <==> Lookup(slots, handle) >= 0
    ensures m <= fds.Length
    ensures live ==> AllFound(slots, all[..found + 1])
    ensures live ==> Listed(fds[..m], Records(slots, all[..found + 1]), 3 * (found + 1))
  {
    hide *;
    var i := adapter.FromHandle(handle);
    if i < 0 { return false, n; }
    ghost var records := Records(slots, all[..found]);
    FoundNext(slots, all, found);
    ListedMore(fds[..n], records, slots[i]);
    m := AddChannels(fds, n, records + [slots[i]], adapter.slots[i], found);
    live := true;
  }

  lemma NothingListed(none: seq<Entry>, slots: seq<Slot>, handles: seq<nat>)
    requires none == []
    ensures AllFound(slots, handles[..0]) && Listed(none, Records(slots, handles[..0]), 0)
  {
    assert Records(slots, handles[..0]) == [];
  }

  /** Flattens the channels of all handles, stopping at the first stale one. */
  method Flatten(adapter: Adapter.Adapter, handles: array<nat>, count: nat, fds: array<Entry>)
    returns (found: nat, n: nat)
    requires count <= handles.Length && 3 * count <= fds.Length
    modifies fds
    ensures found <= count && n <= fds.Length
    ensures AllFound(adapter.slots[..], handles[..found])
    ensures found < count ==> Lookup(adapter.slots[..], handles[found]) < 0
    ensures found == count ==> Listed(fds[..n], Records(adapter.slots[..], handles[..count]), 3 * count)
  {
    found, n := 0, 0;
    ghost var slots, all := adapter.slots[..], handles[..count];
    NothingListed(fds[..0], slots, all);
    hide *;
    while found < count
      invariant found <= count && n <= fds.Length && adapter.slots[..] == slots && handles[..count] == all
      invariant AllFound(slots, all[..found]) && Listed(fds[..n], Records(slots, all[..found]), 3 * found)
    {
      var live;
      live, n := AddHandle(adapter, handles[found], slots, all, found, fds, n);
      if !live { break; }
      found := found + 1;
    }
    assert all[..found] == handles[..found];
    assert all[..count] == all;
  }

  lemma FoundNext(slots: seq<Slot>, handles: seq<nat>, n: nat)
    requires n < |handles| && AllFound(slots, handles[..n]) && Lookup(slots, handles[n]) >= 0
    ensures AllFound(slots, handles[..n + 1])
    ensures Records(slots, handles[..n + 1]) == Records(slots, handles[..n]) + [slots[Lookup(slots, handles[n])]]
  {
  }

  lemma ListedMore(e: seq<Entry>, records: seq<Slot>, s: Slot)
    requires Listed(e, records, 3 * |records|)
    ensures Listed(e, records + [s], 3 * |records|)
  {
  }

  ghost predicate Zeroed(results: seq<set<Channel>>) {
    forall i | 0 <= i < |results| :: results[i] == {}
  }

  /** Index n is the first that repeats an earlier handle. */
  ghost predicate FirstRepeated(handles: seq<nat>, n: nat) {
    n < |handles| && Distinct(handles[..n]) && handles[n] in handles[..n]
  }

  /** Index n is the first whose handle is stale. */
  ghost predicate FirstStale(slots: seq<Slot>, handles: seq<nat>, n: nat) {
    n < |handles| && AllFound(slots, handles[..n]) && Lookup(slots, handles[n]) < 0
  }

  /** What the readiness left by an answer is. */
  ghost predicate Answers(slots: seq<Slot>, handles: seq<nat>, answer: PollAnswer, rc: int,
                          results: seq<set<Channel>>, err: Error)
    requires AllFound(slots, handles)
  {
    match answer
    case Interrupted => rc == 0 && Zeroed(results) && err == NO_ERROR
    case PollError(errno) => rc == -1 && Zeroed(results) && err == NO_ERROR.Primary(OP_POLL_SET, errno, 0, 0)
    case Polled(of) => SetReports(slots, handles, of, rc, results, err)
  }

  method ReadSet(fds: seq<Entry>, ghost slots: seq<Slot>, ghost handles: seq<nat>, count: nat,
                 results: array<set<Channel>>, of: int -> Revents)
    returns (rc: int, err: Error)
    requires count == |handles| <= results.Length && AllFound(slots, handles)
    requires Listed(fds, Records(slots, handles), 3 * count)
    requires Zeroed(results[..count])
    modifies results
    ensures results[count..] == old(results[count..])
    ensures SetReports(slots, handles, of, rc, results[..count], err)
  {
    ghost var records := Records(slots, handles);
    rc, err := 0, NO_ERROR;
    assert forall j: nat | j < count :: Scanned(fds, of, 0, j, {});
    for index := 0 to |fds|
      invariant Clean(fds, of, index)
      invariant forall j: nat | j < count :: Scanned(fds, of, index, j, results[j])
      invariant results[count..] == old(results[count..])
    {
      assert fds[index].owner < count;
      hide Listed, Scanned, Reports;
      var revents := of(fds[index].fd);
      if revents.Faulty() {
        err := revents.Diagnostic(OP_POLL_SET, fds[index].fd);
        StopReported(fds, slots, handles, of, index, results[..count], err);
        return -1, err;
      }
      ghost var before := results[..];
      if revents.ready {
        results[fds[index].owner] := results[fds[index].owner] + {fds[index].channel};
      }
      forall j: nat | j < count
        ensures Scanned(fds, of, index + 1, j, results[j])
      {
        ScanAdvances(fds, of, index, j, before[j], results[j]);
      }
    }
    hide Listed, Scanned, Reports;
    EndReported(fds, slots, handles, of, results[..count]);
  }

  lemma StopReported(fds: seq<Entry>, slots: seq<Slot>, handles: seq<nat>, of: int -> Revents, index: nat,
                     results: seq<set<Channel>>, err: Error)
    requires AllFound(slots, handles) && Listed(fds, Records(slots, handles), 3 * |handles|)
    requires index < |fds| && Clean(fds, of, index) && of(fds[index].fd).Faulty()
    requires |results| == |handles| && forall j: nat | j < |handles| :: Scanned(fds, of, index, j, results[j])
    requires err == of(fds[index].fd).Diagnostic(OP_POLL_SET, fds[index].fd)
    ensures SetReports(slots, handles, of, -1, results, err)
  {
    var records := Records(slots, handles);
    var n := fds[index].owner;
    assert n < |handles|;
    hide Listed, Scanned, Reports;
    forall j: nat | j < |handles|
      ensures j < n ==> Reports(records[j], of, OP_POLL_SET, 0, results[j], NO_ERROR)
      ensures j == n ==> Reports(records[j], of, OP_POLL_SET, -1, results[j], err)
      ensures j > n ==> results[j] == {}
    {
      ScanReports(fds, records, of, index, j, results[j], OP_POLL_SET);
    }
    assert ReportsUpTo(slots, handles, of, n, -1, results, err);
  }

  lemma EndReported(fds: seq<Entry>, slots: seq<Slot>, handles: seq<nat>, of: int -> Revents,
                    results: seq<set<Channel>>)
    requires AllFound(slots, handles) && Listed(fds, Records(slots, handles), 3 * |handles|)
    requires Clean(fds, of, |fds|)
    requires |results| == |handles| && forall j: nat | j < |handles| :: Scanned(fds, of, |fds|, j, results[j])
    ensures SetReports(slots, handles, of, 0, results, NO_ERROR)
  {
    var records := Records(slots, handles);
    hide Listed, Scanned, Reports;
    forall j: nat | j < |handles|
      ensures Reports(records[j], of, OP_POLL_SET, 0, results[j], NO_ERROR)
    {
      ScanReports(fds, records, of, |fds|, j, results[j], OP_POLL_SET);
    }
    assert ReportsUpTo(slots, handles, of, |handles|, 0, results, NO_ERROR);
  }

  /** Polling many children. Structural errors leave the results untouched; from there on exactly the promised
      span is zeroed, and duplicate or stale handles are named by their index. */
  method PollSet(adapter: Adapter.Adapter, handles: array?<nat>, count: nat, timeoutMs: int,
                 results: array?<set<Channel>>, answer: PollAnswer)
    returns (rc: int, err: Error)
    requires count <= adapter.slots.Length && handles != null ==> count <= handles.Length
    requires count <= adapter.slots.Length && results != null ==> count <= results.Length
    modifies results
    ensures
      if count == 0 || count > adapter.slots.Length || handles == null || results == null || timeoutMs < -1 then
        && rc == -1 && err == NO_ERROR.Primary(OP_POLL_SET, EINVAL, count, timeoutMs)
        && (results != null ==> results[..] == old(results[..]))
      else
        var slots, span := adapter.slots[..], handles[..count];
        && results[count..] == old(results[count..])
        && (if !Distinct(span) then
              && rc == -1 && Zeroed(results[..count])
              && exists n: nat :: FirstRepeated(span, n) && err == NO_ERROR.Primary(OP_POLL_SET, EINVAL, n, 0)
            else if !AllFound(slots, span) then
              && rc == -1 && Zeroed(results[..count])
              && exists n: nat :: FirstStale(slots, span, n) && err == NO_ERROR.Primary(OP_POLL_SET, EINVAL, n, 0)
            else
              Answers(slots, span, answer, rc, results[..count], err))
  {
    err := NO_ERROR;
    if count == 0 || count > adapter.slots.Length || handles == null || results == null || timeoutMs < -1 {
      err := err.Primary(OP_POLL_SET, EINVAL, count, timeoutMs);
      return -1, err;
    }
    for index := 0 to count
      invariant forall i | 0 <= i < index :: results[i] == {}
      invariant results[count..] == old(results[count..])
    {
      results[index] := {};
    }
    ghost var span := handles[..count];
    var n := FirstRepeat(handles, count);
    if n < count {
      assert handles[..n] == span[..n];
      assert FirstRepeated(span, n);
      err := err.Primary(OP_POLL_SET, EINVAL, n, 0);
      return -1, err;
    }
    var fds := new Entry[3 * adapter.slots.Length](_ => NO_ENTRY);
    var found, filled := Flatten(adapter, handles, count, fds);
    if found < count {
      assert handles[..found] == span[..found];
      assert FirstStale(adapter.slots[..], span, found);
      err := err.Primary(OP_POLL_SET, EINVAL, found, 0);
      return -1, err;
    }
    match answer
    case Interrupted =>
      rc := 0;
    case PollError(errno) =>
      err := err.Primary(OP_POLL_SET, errno, 0, 0);
      rc := -1;
    case Polled(of) =>
      rc, err := ReadSet(fds[..filled], adapter.slots[..], span, count, results, of);
  }
}

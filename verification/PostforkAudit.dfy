/** The audit of what a child may execute between fork and exec: a depth-first walk of the call graph that shares
    one set of visited functions, and accepts only if every call it meets is to a local definition or to an
    allowed platform function. Functions and their calls are inputs. */
module PostforkAudit {
  import opened Wrappers

  type Id = string

  datatype Call = Call(callee: Option<Id>, name: string)

  /** A piece of code: whether it holds a cleanup attribute anywhere, and its calls in order. */
  datatype Fragment = Fragment(cleanup: bool, calls: seq<Call>)

  datatype Function = Function(name: string, body: Fragment)

  /** One statement between the fork and the child's branch. Of the parent's error exit, the arm taken when the
      fork failed is not executed by a child. */
  datatype Statement =
    | Plain(whole: Fragment)
    | ForkFailed(condition: Fragment, failing: Fragment, otherwise: seq<Fragment>)

  /** The child's region: the statement that forks, what follows it, and the branch for the child. */
  datatype Program = Program(
    definitions: map<Id, Function>,
    forking: Fragment,
    gap: seq<Statement>,
    branch: Fragment,
    allowed: set<string>)

  datatype Failure = Cleanup | Unresolved(call: Call) | Forbidden(call: Call)

  // ----- What a child can execute -----

  predicate Local(p: Program, c: Call) {
    c.callee.Some? && c.callee.value in p.definitions
  }

  /** The calls of the forking statement other than the fork itself. */
  function ForkingRest(calls: seq<Call>): (r: seq<Call>)
    ensures forall c :: c in r <==> c in calls && c.name != "fork"
  {
    if calls == [] then []
    else (if calls[0].name == "fork" then [] else [calls[0]]) + ForkingRest(calls[1..])
  }

  /** The pieces of a statement that a child executes. */
  function Executed(s: Statement): seq<Fragment> {
    match s
    case Plain(whole) => [whole]
    case ForkFailed(condition, _, otherwise) => [condition] + otherwise
  }

  /** `f` is a piece of the child's region. */
  ghost predicate InRegion(p: Program, f: Fragment) {
    || f == Fragment(p.forking.cleanup, ForkingRest(p.forking.calls))
    || (exists s :: s in p.gap && f in Executed(s))
    || f == p.branch
  }

  /** Function `id` is called within n calls of the region. */
  ghost predicate Within(p: Program, id: Id, n: nat)
    decreases n
  {
    && id in p.definitions
    && (|| (exists f, c :: InRegion(p, f) && c in f.calls && c.callee == Some(id))
        || (n > 0 && exists from :: Within(p, from, n - 1) && Calls(p, from, id)))
  }

  ghost predicate Calls(p: Program, from: Id, to: Id) {
    from in p.definitions && exists c :: c in p.definitions[from].body.calls && c.callee == Some(to)
  }

  ghost predicate Reachable(p: Program, id: Id) {
    exists n: nat :: Within(p, id, n)
  }

  /** `f` can be executed by a child. */
  ghost predicate Live(p: Program, f: Fragment) {
    InRegion(p, f) || exists id :: Reachable(p, id) && f == p.definitions[id].body
  }

  ghost predicate Permitted(p: Program, c: Call) {
    Local(p, c) || (c.callee.Some? && c.name in p.allowed)
  }

  ghost predicate Innocent(p: Program, f: Fragment) {
    !f.cleanup && forall c | c in f.calls :: Permitted(p, c)
  }

  /** Some live code calls `name` outside the local definitions. */
  ghost predicate CallsPlatform(p: Program, name: string) {
    exists f, c :: Live(p, f) && c in f.calls && !Local(p, c) && c.name == name
  }

  /** What the audit is for. */
  ghost predicate Sound(p: Program) {
    && (forall f | Live(p, f) :: Innocent(p, f))
    && (forall name :: name in p.allowed <==> CallsPlatform(p, name))
  }

  /** The evidence for a failure. */
  ghost predicate Convicts(p: Program, failure: Failure) {
    match failure
    case Cleanup => exists f :: Live(p, f) && f.cleanup
    case Unresolved(c) => c.callee == None && exists f :: Live(p, f) && c in f.calls
    case Forbidden(c) =>
      c.callee.Some? && !Local(p, c) && c.name !in p.allowed && exists f :: Live(p, f) && c in f.calls
  }

  lemma ConvictionIsUnsound(p: Program, failure: Failure)
    requires Convicts(p, failure)
    ensures !Sound(p)
  {
  }

  lemma CalleeReachable(p: Program, f: Fragment, c: Call)
    requires Live(p, f) && c in f.calls && Local(p, c)
    ensures Reachable(p, c.callee.value)
  {
    if InRegion(p, f) {
      assert Within(p, c.callee.value, 0);
    } else {
      var id :| Reachable(p, id) && f == p.definitions[id].body;
      var n: nat :| Within(p, id, n);
      assert Calls(p, id, c.callee.value);
      assert Within(p, c.callee.value, n + 1);
    }
  }

  // ----- The region, piece by piece -----

  /** The pieces of the region, named one by one: what the forking statement does besides forking, every statement
      between it and the child's branch, of the parent's error exit the condition and what follows the arm, and the
      branch. */
  lemma RegionMeans(p: Program, f: Fragment)
    ensures InRegion(p, f) <==>
              || (f.cleanup == p.forking.cleanup && f.calls == ForkingRest(p.forking.calls))
              || Plain(f) in p.gap
              || (exists failing, rest :: ForkFailed(f, failing, rest) in p.gap)
              || (exists condition, failing, rest :: ForkFailed(condition, failing, rest) in p.gap && f in rest)
              || f == p.branch
  {
    forall s | s in p.gap && f in Executed(s)
      ensures || Plain(f) in p.gap
              || (exists failing, rest :: ForkFailed(f, failing, rest) in p.gap)
              || (exists condition, failing, rest :: ForkFailed(condition, failing, rest) in p.gap && f in rest)
    {
      match s
      case Plain(whole) =>
      case ForkFailed(condition, failing, rest) =>
        assert ForkFailed(condition, failing, rest) in p.gap && (f == condition || f in rest);
    }
    if failing, rest :| ForkFailed(f, failing, rest) in p.gap {
      assert f in Executed(ForkFailed(f, failing, rest));
    }
    if condition, failing, rest :| ForkFailed(condition, failing, rest) in p.gap && f in rest {
      assert f in Executed(ForkFailed(condition, failing, rest));
    }
    if Plain(f) in p.gap { assert f in Executed(Plain(f)); }
  }

  /** Apart from the arms that only a failed fork takes, the statements are the same. */
  ghost predicate SameForTheChild(s: Statement, t: Statement) {
    match s
    case Plain(_) => t == s
    case ForkFailed(condition, _, rest) => t.ForkFailed? && t.condition == condition && t.otherwise == rest
  }

  /** What the parent does when the fork failed is no ground for or against a program. */
  lemma FailingArmIsIgnored(p: Program, q: Program)
    requires q == p.(gap := q.gap) && |q.gap| == |p.gap|
    requires forall i | 0 <= i < |p.gap| :: SameForTheChild(p.gap[i], q.gap[i])
    ensures Sound(p) <==> Sound(q)
  {
    forall f
      ensures InRegion(p, f) <==> InRegion(q, f)
    {
      SameRegion(p, q, f);
      SameRegion(q, p, f);
    }
    hide InRegion;
    SameReach(p, q);
    SameReach(q, p);
    hide Reachable;
    assert forall f :: Live(p, f) <==> Live(q, f);
    SameSound(p, q);
  }

  lemma SameSound(p: Program, q: Program)
    requires q.definitions == p.definitions && q.allowed == p.allowed && forall f :: Live(p, f) <==> Live(q, f)
    ensures Sound(p) <==> Sound(q)
  {
    hide Live;
    assert forall c :: Permitted(p, c) <==> Permitted(q, c);
    assert forall f :: Innocent(p, f) <==> Innocent(q, f);
    assert forall name :: CallsPlatform(p, name) <==> CallsPlatform(q, name);
  }

  lemma SameRegion(p: Program, q: Program, f: Fragment)
    requires q == p.(gap := q.gap) && |q.gap| == |p.gap|
    requires forall i | 0 <= i < |p.gap| :: SameForTheChild(p.gap[i], q.gap[i])
    ensures InRegion(p, f) ==> InRegion(q, f)
  {
    if s :| s in p.gap && f in Executed(s) {
      var i :| 0 <= i < |p.gap| && p.gap[i] == s;
      assert Executed(q.gap[i]) == Executed(s) && q.gap[i] in q.gap;
    }
  }

  lemma SameReach(p: Program, q: Program)
    requires q.definitions == p.definitions && forall f :: InRegion(p, f) ==> InRegion(q, f)
    ensures forall id | Reachable(p, id) :: Reachable(q, id)
  {
    forall id, n: nat | Within(p, id, n)
      ensures Within(q, id, n)
    {
      SameWithin(p, q, id, n);
    }
  }

  lemma {:induction false} SameWithin(p: Program, q: Program, id: Id, n: nat)
    requires q.definitions == p.definitions && forall f :: InRegion(p, f) ==> InRegion(q, f)
    requires Within(p, id, n)
    ensures Within(q, id, n)
    decreases n
  {
    hide InRegion;
    if !(exists f, c :: InRegion(p, f) && c in f.calls && c.callee == Some(id)) {
      var from :| Within(p, from, n - 1) && Calls(p, from, id);
      SameWithin(p, q, from, n - 1);
      assert Calls(q, from, id);
    }
  }

  /** Grounds for rejection: a cleanup attribute, a call through something other than a name, or a call of a function
      that is neither defined here nor allowed. */
  ghost predicate Guilty(p: Program, f: Fragment) {
    || f.cleanup
    || (exists c :: c in f.calls && c.callee == None)
    || (exists c :: c in f.calls && c.callee.Some? && c.callee.value !in p.definitions && c.name !in p.allowed)
  }

  /** Soundness by the grounds alone: nothing a child can execute is guilty, and the allowed names are exactly those it
      calls outside the definitions. */
  lemma SoundMeans(p: Program)
    ensures Sound(p) <==>
              && (forall f | Live(p, f) :: !Guilty(p, f))
              && (forall name :: name in p.allowed <==>
                    exists f, c :: Live(p, f) && c in f.calls && c.name == name
                                   && !(c.callee.Some? && c.callee.value in p.definitions))
  {
    hide Live;
    forall f
      ensures Innocent(p, f) <==> !Guilty(p, f)
    {
    }
  }

  /** A program with such a ground in any piece of the region is rejected: in a plain statement, in the condition of
      the error exit or behind its arm, in the branch, or in the forking statement, where only a call named fork
      passes. */
  lemma GuiltyPieceRejects(p: Program, f: Fragment)
    requires Guilty(p, f)
    ensures Plain(f) in p.gap ==> !Sound(p)
    ensures forall failing, rest | ForkFailed(f, failing, rest) in p.gap :: !Sound(p)
    ensures forall condition, failing, rest | ForkFailed(condition, failing, rest) in p.gap && f in rest :: !Sound(p)
    ensures f == p.branch ==> !Sound(p)
    ensures f == p.forking && (f.cleanup || exists c :: c in f.calls && c.name != "fork" && !Permitted(p, c)) ==>
              !Sound(p)
  {
    RegionMeans(p, f);
    if f == p.forking {
      var rest := Fragment(p.forking.cleanup, ForkingRest(p.forking.calls));
      assert Live(p, rest) by { assert InRegion(p, rest); }
      assert Sound(p) ==> Innocent(p, rest);
      assert forall c :: c in rest.calls <==> c in f.calls && c.name != "fork";
    }
    hide Executed;
    assert InRegion(p, f) ==> Live(p, f);
    assert Live(p, f) && Sound(p) ==> Innocent(p, f);
  }

  // ----- What the walk has established -----

  /** Every call of `calls` is permitted, and its local callees have been visited. */
  ghost predicate Walked(p: Program, calls: seq<Call>, visited: set<Id>) {
    forall c | c in calls :: Permitted(p, c) && (Local(p, c) ==> c.callee.value in visited)
  }

  /** Every function in `ids` is free of cleanups and has been walked. */
  ghost predicate Closed(p: Program, ids: set<Id>, visited: set<Id>) {
    forall id | id in ids :: id in p.definitions && !p.definitions[id].body.cleanup
                             && Walked(p, p.definitions[id].body.calls, visited)
  }

  /** `name` is called outside the local definitions by one of `ids`. */
  ghost predicate PlatformOf(p: Program, ids: set<Id>, name: string) {
    exists id, c :: id in ids && id in p.definitions && c in p.definitions[id].body.calls
                    && !Local(p, c) && c.name == name
  }

  ghost predicate PlatformIn(p: Program, calls: seq<Call>, name: string) {
    exists c :: c in calls && !Local(p, c) && c.name == name
  }

  class Auditor {
    const program: Program
    var visited: set<Id>
    var localNames: set<string>
    var platformCalls: set<string>

    constructor (p: Program)
      ensures program == p && visited == {} && localNames == {} && platformCalls == {}
    {
      program := p;
      visited := {};
      localNames := {};
      platformCalls := {};
    }

    /** Everything visited is reachable, and the names collected are theirs. */
    ghost predicate Valid()
      reads this
    {
      && (forall id | id in visited :: id in program.definitions && Reachable(program, id))
      && localNames == set id | id in visited && id in program.definitions :: program.definitions[id].name
    }

    /** What a successful walk of `calls` adds to the state `before` with platform calls `was`. */
    ghost predicate Extends(before: set<Id>, was: set<string>, calls: seq<Call>)
      reads this
    {
      && before <= visited
      && Closed(program, visited - before, visited)
      && Walked(program, calls, visited)
      && (forall name :: name in platformCalls <==>
            name in was || PlatformIn(program, calls, name) || PlatformOf(program, visited - before, name))
    }

    method VisitCalls(calls: seq<Call>, ghost whole: Fragment) returns (failure: Option<Failure>)
      requires Valid() && Live(program, whole) && forall c | c in calls :: c in whole.calls
      modifies this
      ensures Valid() && old(visited) <= visited
      ensures failure.Some? ==> Convicts(program, failure.value)
      ensures failure.None? ==> Extends(old(visited), old(platformCalls), calls)
      decreases program.definitions.Keys - visited, 1
    {
      for i := 0 to |calls|
        invariant Valid() && Extends(old(visited), old(platformCalls), calls[..i])
      {
        var call := calls[i];
        assert calls[..i + 1] == calls[..i] + [call];
        assert call in calls;
        if call.callee.Some? && call.callee.value in program.definitions {
          CalleeReachable(program, whole, call);
          failure := Visit(call.callee.value);
          if failure.Some? { return; }
        } else if call.callee.None? {
          return Some(Unresolved(call));
        } else if call.name !in program.allowed {
          return Some(Forbidden(call));
        } else {
          platformCalls := platformCalls + {call.name};
        }
      }
      assert calls[..|calls|] == calls;
      return None;
    }

    method Visit(id: Id) returns (failure: Option<Failure>)
      requires Valid() && Reachable(program, id) && id in program.definitions
      modifies this
      ensures Valid() && old(visited) <= visited
      ensures failure.Some? ==> Convicts(program, failure.value)
      ensures failure.None? ==> Extends(old(visited), old(platformCalls), []) && id in visited
      decreases program.definitions.Keys - visited, 0
    {
      if id in visited { return None; }
      visited := visited + {id};
      var definition := program.definitions[id];
      localNames := localNames + {definition.name};
      failure := VisitFragment(definition.body);
    }

    method VisitFragment(f: Fragment) returns (failure: Option<Failure>)
      requires Valid() && Live(program, f)
      modifies this
      ensures Valid() && old(visited) <= visited
      ensures failure.Some? ==> Convicts(program, failure.value)
      ensures failure.None? ==> !f.cleanup && Extends(old(visited), old(platformCalls), f.calls)
      decreases program.definitions.Keys - visited, 2
    {
      if f.cleanup { return Some(Cleanup); }
      failure := VisitCalls(f.calls, f);
    }

    /** The pieces of the region walked so far, in order. */
    ghost predicate Progress(done: seq<Fragment>)
      reads this
    {
      && Valid()
      && Closed(program, visited, visited)
      && (forall f | f in done :: !f.cleanup && Walked(program, f.calls, visited))
      && (forall name :: name in platformCalls <==>
            PlatformOf(program, visited, name) || exists f :: f in done && PlatformIn(program, f.calls, name))
    }

    method VisitPiece(ghost done: seq<Fragment>, f: Fragment) returns (failure: Option<Failure>)
      requires Progress(done) && InRegion(program, f)
      modifies this
      ensures failure.Some? ==> Convicts(program, failure.value)
      ensures failure.None? ==> Progress(done + [f])
    {
      ghost var before, was := visited, platformCalls;
      assert Live(program, f);
      failure := VisitFragment(f);
      if failure.None? {
        assert visited == before + (visited - before);
        forall name
          ensures name in platformCalls <==>
                  PlatformOf(program, visited, name)
                  || exists g :: g in done + [f] && PlatformIn(program, g.calls, name)
        {
          PlatformSplits(program, before, visited - before, name);
          assert (exists g :: g in done + [f] && PlatformIn(program, g.calls, name)) <==>
            PlatformIn(program, f.calls, name) || exists g :: g in done && PlatformIn(program, g.calls, name);
        }
      }
    }

    method VisitPieces(ghost done: seq<Fragment>, pieces: seq<Fragment>) returns (failure: Option<Failure>)
      requires Progress(done) && forall f | f in pieces :: InRegion(program, f)
      modifies this
      ensures failure.Some? ==> Convicts(program, failure.value)
      ensures failure.None? ==> Progress(done + pieces)
    {
      assert done + [] == done;
      for i := 0 to |pieces|
        invariant Progress(done + pieces[..i])
      {
        failure := VisitPiece(done + pieces[..i], pieces[i]);
        if failure.Some? { return; }
        assert done + pieces[..i] + [pieces[i]] == done + pieces[..i + 1];
      }
      assert pieces[..|pieces|] == pieces;
      return None;
    }

    /** The audit of one program: accepted exactly if everything a child can execute is innocent and the platform
        functions it calls are the allowed ones, no more and no fewer. On acceptance the two sets collected are
        the names of the reachable local functions and of the platform functions they call. A failure found on
        the way is always a real one. */
    method Audit() returns (accepted: bool, failure: Option<Failure>)
      requires visited == {} && localNames == {} && platformCalls == {}
      modifies this
      ensures accepted <==> Sound(program)
      ensures accepted ==> platformCalls == program.allowed
      ensures accepted ==> forall id :: id in visited <==> Reachable(program, id)
      ensures accepted ==>
                localNames == set id | id in visited && id in program.definitions :: program.definitions[id].name
      ensures failure.Some? ==> Convicts(program, failure.value)
    {
      hide Sound, Convicts, Executed, Reachable;
      ghost var done: seq<Fragment> := [];
      var first := Fragment(program.forking.cleanup, ForkingRest(program.forking.calls));
      failure := VisitPiece(done, first);
      if failure.Some? { ConvictionIsUnsound(program, failure.value); return false, failure; }
      done := [first];
      for i := 0 to |program.gap|
        invariant Progress(done)
        invariant forall f :: f in done <==> f == first || exists j :: 0 <= j < i && f in Executed(program.gap[j])
      {
        assert program.gap[i] in program.gap;
        failure := VisitPieces(done, Executed(program.gap[i]));
        if failure.Some? { ConvictionIsUnsound(program, failure.value); return false, failure; }
        done := done + Executed(program.gap[i]);
      }
      failure := VisitPiece(done, program.branch);
      if failure.Some? { ConvictionIsUnsound(program, failure.value); return false, failure; }
      done := done + [program.branch];
      forall f
        ensures f in done <==> InRegion(program, f)
      {
        assert (exists s :: s in program.gap && f in Executed(s)) <==>
          exists j :: 0 <= j < |program.gap| && f in Executed(program.gap[j]);
      }
      Conclude(done);
      return platformCalls == program.allowed, None;
    }

    /** A finished walk has visited exactly what is reachable. */
    lemma Conclude(done: seq<Fragment>)
      requires Progress(done) && forall f :: f in done <==> InRegion(program, f)
      ensures forall id :: id in visited <==> Reachable(program, id)
      ensures platformCalls == program.allowed <==> Sound(program)
    {
      forall id | Reachable(program, id)
        ensures id in visited
      {
        var n: nat :| Within(program, id, n);
        ReachedIsVisited(done, id, n);
      }
      forall f | Live(program, f)
        ensures Innocent(program, f)
      {
        if !InRegion(program, f) {
          var id :| Reachable(program, id) && f == program.definitions[id].body;
          assert id in visited;
        }
      }
      forall name
        ensures name in platformCalls <==> CallsPlatform(program, name)
      {
        if name in platformCalls {
          if PlatformOf(program, visited, name) {
            var id, c :| id in visited && id in program.definitions && c in program.definitions[id].body.calls
                         && !Local(program, c) && c.name == name;
            assert Live(program, program.definitions[id].body);
          } else {
            var f :| f in done && PlatformIn(program, f.calls, name);
            assert Live(program, f);
          }
        }
        if CallsPlatform(program, name) {
          var f, c :| Live(program, f) && c in f.calls && !Local(program, c) && c.name == name;
          if InRegion(program, f) {
            assert f in done && PlatformIn(program, f.calls, name);
          } else {
            var id :| Reachable(program, id) && f == program.definitions[id].body;
            assert PlatformOf(program, visited, name);
          }
        }
      }
    }

    lemma {:induction false} ReachedIsVisited(done: seq<Fragment>, id: Id, n: nat)
      requires Progress(done) && forall f :: f in done <==> InRegion(program, f)
      requires Within(program, id, n)
      ensures id in visited
      decreases n
    {
      if exists f, c :: InRegion(program, f) && c in f.calls && c.callee == Some(id) {
        var f, c :| InRegion(program, f) && c in f.calls && c.callee == Some(id);
        assert f in done && Local(program, c);
      } else {
        var from :| Within(program, from, n - 1) && Calls(program, from, id);
        ReachedIsVisited(done, from, n - 1);
        var c :| c in program.definitions[from].body.calls && c.callee == Some(id);
        assert Local(program, c);
      }
    }
  }

  lemma PlatformSplits(p: Program, a: set<Id>, b: set<Id>, name: string)
    ensures PlatformOf(p, a + b, name) <==> PlatformOf(p, a, name) || PlatformOf(p, b, name)
  {
  }
}

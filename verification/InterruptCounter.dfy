/** The interrupt handler: each activation loads the counter and then compare-exchanges it one higher, until an
    exchange succeeds or the counter has reached two. Activations may nest, or interleave on several threads,
    between any two of these accesses. */
module InterruptCounter {

  const CEILING := 2

  /** Where one activation stands: begun, or past its load with the value it last saw and the number of
      exchanges that have failed. */
  datatype Frame = Entered | Loaded(current: int, failures: nat)

  /** `began` counts the activations since the counter was reset, `frames` holds those still in flight. */
  datatype Counter = Counter(value: int, began: nat, frames: map<nat, Frame>)

  const RESET := Counter(0, 0, map[])

  datatype Step = Begin(id: nat) | Load(id: nat) | Exchange(id: nat)

  predicate Enabled(c: Counter, s: Step) {
    match s
    case Begin(id) => id !in c.frames
    case Load(id) => id in c.frames && c.frames[id].Entered?
    case Exchange(id) => id in c.frames && c.frames[id].Loaded?
  }

  /** The loop test after a load or a failed exchange that saw `seen`. */
  function Test(c: Counter, id: nat, seen: int, failures: nat): Counter {
    if seen < CEILING then c.(frames := c.frames[id := Loaded(seen, failures)]) else c.(frames := c.frames - {id})
  }

  function Apply(c: Counter, s: Step): Counter
    requires Enabled(c, s)
  {
    match s
    case Begin(id) => c.(began := c.began + 1, frames := c.frames[id := Entered])
    case Load(id) => Test(c, id, c.value, 0)
    case Exchange(id) =>
      var frame := c.frames[id];
      if c.value == frame.current then c.(value := c.value + 1, frames := c.frames - {id})
      else Test(c, id, c.value, frame.failures + 1)
  }

  predicate Possible(c: Counter, steps: seq<Step>)
    decreases |steps|
  {
    steps == [] || (Enabled(c, steps[0]) && Possible(Apply(c, steps[0]), steps[1..]))
  }

  function After(c: Counter, steps: seq<Step>): Counter
    requires Possible(c, steps)
    decreases |steps|
  {
    if steps == [] then c else After(Apply(c, steps[0]), steps[1..])
  }

  /** Below the ceiling the counter is the number of finished activations, and an activation has failed no
      more often than the value it last saw. */
  ghost predicate Inv(c: Counter) {
    && 0 <= c.value <= CEILING
    && |c.frames| <= c.began
    && c.value <= c.began - |c.frames|
    && (c.value < CEILING ==> c.value == c.began - |c.frames|)
    && forall id | id in c.frames && c.frames[id].Loaded? ::
         c.frames[id].failures <= c.frames[id].current <= c.value && c.frames[id].current < CEILING
  }

  lemma StepKeeps(c: Counter, s: Step)
    requires Inv(c) && Enabled(c, s)
    ensures Inv(Apply(c, s)) && c.value <= Apply(c, s).value
  {
  }

  lemma {:induction false} StepsKeep(c: Counter, steps: seq<Step>)
    requires Inv(c) && Possible(c, steps)
    ensures Inv(After(c, steps)) && c.value <= After(c, steps).value
    decreases |steps|
  {
    if steps != [] {
      StepKeeps(c, steps[0]);
      StepsKeep(Apply(c, steps[0]), steps[1..]);
    }
  }

  lemma {:induction false} AfterConcat(c: Counter, first: seq<Step>, rest: seq<Step>)
    requires Possible(c, first + rest)
    ensures Possible(c, first) && Possible(After(c, first), rest)
    ensures After(c, first + rest) == After(After(c, first), rest)
    decreases |first|
  {
    if first == [] {
      assert first + rest == rest;
    } else {
      assert (first + rest)[1..] == first[1..] + rest;
      AfterConcat(Apply(c, first[0]), first[1..], rest);
    }
  }

  /** However activations interleave, once none is in flight the counter is the number of activations since
      the reset, saturated at two; no activation is lost and none is counted twice. */
  lemma SettledCounterIsExact(steps: seq<Step>)
    requires Possible(RESET, steps) && After(RESET, steps).frames == map[]
    ensures var c := After(RESET, steps);
            c.value == if c.began < 2 then c.began else 2
  {
    StepsKeep(RESET, steps);
  }

  /** With activations still in flight the counter lies between the finished and the begun ones, up to
      saturation. */
  lemma CounterIsBounded(steps: seq<Step>)
    requires Possible(RESET, steps)
    ensures var c := After(RESET, steps);
            && |c.frames| <= c.began
            && c.value <= c.began
            && c.value <= 2
            && (c.value == 2 || c.began - |c.frames| == c.value)
  {
    StepsKeep(RESET, steps);
  }

  /** The counter never decreases during a run. */
  lemma CounterIsMonotone(earlier: seq<Step>, later: seq<Step>)
    requires Possible(RESET, earlier + later)
    ensures Possible(RESET, earlier) && After(RESET, earlier).value <= After(RESET, earlier + later).value
  {
    AfterConcat(RESET, earlier, later);
    StepsKeep(RESET, earlier);
    StepsKeep(After(RESET, earlier), later);
  }

  /** An activation about to attempt an exchange has failed at most once, so no activation attempts more than
      two; and an attempt fails only because another activation's succeeded. */
  lemma AtMostTwoExchanges(steps: seq<Step>, id: nat)
    requires Possible(RESET, steps + [Exchange(id)])
    ensures Possible(RESET, steps)
    ensures var c := After(RESET, steps);
            && id in c.frames && c.frames[id].Loaded? && c.frames[id].failures < 2
            && (c.frames[id].current != c.value ==> c.frames[id].current < c.value)
  {
    AfterConcat(RESET, steps, [Exchange(id)]);
    StepsKeep(RESET, steps);
  }

  // ----- The handler itself -----

  /** The shared counter as one activation meets it: between any two of its accesses others may raise it. */
  class Cell {
    var value: int

    constructor ()
      ensures value == 0
    {
      value := 0;
    }

    method Others()
      requires 0 <= value <= CEILING
      modifies this
      ensures old(value) <= value <= CEILING
    {
      var higher: int := *;
      if value <= higher <= CEILING { value := higher; }
    }

    /** A strong exchange fails only if the value has really changed, and then reports it. */
    method Exchange(expected: int) returns (done: bool, seen: int)
      modifies this
      ensures done <==> old(value) == expected
      ensures seen == old(value)
      ensures value == if done then expected + 1 else old(value)
    {
      done, seen := value == expected, value;
      if done { value := expected + 1; }
    }

    /** One activation: it terminates, attempts at most two exchanges, and leaves the counter either raised by
        its own successful exchange or at the ceiling. */
    method OnInterrupt() returns (attempts: nat, raised: bool)
      requires 0 <= value <= 2
      modifies this
      ensures old(value) <= value <= 2
      ensures attempts <= 2
      ensures raised ==> old(value) < value
      ensures !raised ==> value == 2
      ensures old(value) == 2 ==> attempts == 0
    {
      attempts, raised := 0, false;
      Others();
      var current := value;
      while current < CEILING
        invariant old(value) <= current <= value <= CEILING
        invariant attempts <= current && !raised
        invariant old(value) == CEILING ==> attempts == 0
        decreases CEILING - current
      {
        Others();
        raised, current := Exchange(current);
        attempts := attempts + 1;
        if raised { break; }
      }
    }
  }
}

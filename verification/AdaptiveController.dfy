/** The adaptive rate controller with its circuit breaker (internal/loadgen/workers.go,
    adaptiveController).  Ratios of counters are exact rationals here. */
module AdaptiveController {
  import opened Numbers

  const MIN_SAMPLES_FOR_CIRCUIT := 100
  const MIN_SAMPLES_FOR_RECOVERY := 20
  const FAILURE_RATE_THRESHOLD := 0.30
  const REVOCATION_RATE_THRESHOLD := 0.10
  const RECOVERY_RATE_THRESHOLD := 0.05
  const BACKPRESSURE_THRESHOLD := 0.8

  datatype Config = Config(targetPending: int, step: int)

  /** What one tick reads: the counters since the last tick, pending sends, builder pressure. */
  datatype Input = Input(sends: nat, fails: nat, revocations: nat, pending: int, pressure: real)

  datatype Control = Control(rate: int, open: bool, preCircuitRate: int, resyncNeeded: bool)

  /** Integer division by two, truncated towards zero. */
  function Half(x: int): int { if x >= 0 then x / 2 else -((-x) / 2) }

  function AtLeast(x: int, floor: int): int { if x < floor then floor else x }

  function Share(part: nat, whole: nat): real
    requires whole > 0
  {
    part as real / whole as real
  }

  predicate Trips(i: Input) {
    && i.sends >= MIN_SAMPLES_FOR_CIRCUIT
    && (Share(i.fails, i.sends) > FAILURE_RATE_THRESHOLD || Share(i.revocations, i.sends) > REVOCATION_RATE_THRESHOLD)
  }

  predicate Recovers(i: Input) {
    && i.sends >= MIN_SAMPLES_FOR_RECOVERY
    && Share(i.fails, i.sends) + Share(i.revocations, i.sends) < RECOVERY_RATE_THRESHOLD
  }

  function Trip(s: Control): Control {
    Control(AtLeast(Half(s.rate), 50), true, s.rate, true)
  }

  function Probe(s: Control): Control {
    var raised := s.rate + Half(s.rate);
    s.(rate := if s.preCircuitRate > 0 && raised > s.preCircuitRate then s.preCircuitRate else raised)
  }

  /** The closed controller's reaction to builder pressure and pending sends. */
  function Adapt(c: Config, s: Control, i: Input): Control {
    if i.pressure > BACKPRESSURE_THRESHOLD then s.(rate := AtLeast(Half(s.rate), 100))
    else if i.pending < c.targetPending then s.(rate := s.rate + c.step)
    else if i.pending > c.targetPending * 4 then s.(rate := AtLeast(Half(s.rate), 10))
    else if i.pending > c.targetPending * 2 then s.(rate := AtLeast(s.rate - c.step * 2, 10))
    else if i.pending > c.targetPending then s.(rate := AtLeast(s.rate - c.step, 10))
    else s
  }

  function Next(c: Config, s: Control, i: Input): Control {
    if !s.open then
      if Trips(i) then Trip(s) else Adapt(c, s, i)
    else if Recovers(i) then Adapt(c, s.(open := false), i)
    else Probe(s)
  }

  function Run(c: Config, s: Control, inputs: seq<Input>): Control {
    if inputs == [] then s else Next(c, Run(c, s, inputs[..|inputs| - 1]), inputs[|inputs| - 1])
  }

  // ---------------------------------------------------------------- the controller loop

  class Controller {
    var currentRate: int
    var circuitOpen: bool
    var preCircuitRate: int
    var nonceResyncNeeded: bool
    const targetPending: int
    const step: int

    function State(): Control reads this { Control(currentRate, circuitOpen, preCircuitRate, nonceResyncNeeded) }

    function Settings(): Config { Config(targetPending, step) }

    /** Settings that are not positive fall back to the defaults. */
    constructor (rate: int, configTarget: int, configStep: int)
      ensures State() == Control(rate, false, 0, false)
      ensures Settings() == Config(if configTarget > 0 then configTarget else 1000,
                                   if configStep > 0 then configStep else 100)
    {
      currentRate, circuitOpen, preCircuitRate, nonceResyncNeeded := rate, false, 0, false;
      targetPending := if configTarget <= 0 then 1000 else configTarget;
      step := if configStep <= 0 then 100 else configStep;
    }

    method Tick(i: Input)
      modifies this
      ensures State() == Next(Settings(), old(State()), i)
    {
      var rate, open := currentRate, circuitOpen;
      var minSamples := MIN_SAMPLES_FOR_CIRCUIT;
      if open { minSamples := MIN_SAMPLES_FOR_RECOVERY; }
      if i.sends >= minSamples {
        var failureRate := i.fails as real / i.sends as real;
        var revocationRate := i.revocations as real / i.sends as real;
        var combinedFailureRate := failureRate + revocationRate;
        if !open && (failureRate > FAILURE_RATE_THRESHOLD || revocationRate > REVOCATION_RATE_THRESHOLD) {
          circuitOpen := true;
          nonceResyncNeeded := true;
          preCircuitRate := rate;
          var newRate := Half(rate);
          if newRate < 50 { newRate := 50; }
          currentRate := newRate;
          return;
        } else if open && combinedFailureRate < RECOVERY_RATE_THRESHOLD {
          circuitOpen := false;
          open := false;
        }
      }
      if i.pressure > BACKPRESSURE_THRESHOLD && !open {
        var newRate := Half(rate);
        if newRate < 100 { newRate := 100; }
        currentRate := newRate;
        return;
      }
      if open {
        var newRate := rate + Half(rate);
        var ceiling := preCircuitRate;
        if ceiling > 0 && newRate > ceiling { newRate := ceiling; }
        currentRate := newRate;
        return;
      }
      if i.pending < targetPending {
        currentRate := rate + step;
      } else if i.pending > targetPending * 4 {
        var newRate := Half(rate);
        if newRate < 10 { newRate := 10; }
        currentRate := newRate;
      } else if i.pending > targetPending * 2 {
        var newRate := rate - step * 2;
        if newRate < 10 { newRate := 10; }
        currentRate := newRate;
      } else if i.pending > targetPending {
        var newRate := rate - step;
        if newRate < 10 { newRate := 10; }
        currentRate := newRate;
      }
    }
  }

  // ---------------------------------------------------------------- one tick, in whole numbers

  /** Half of a rate, rounded down, but no less than the floor. */
  predicate Halved(halved: int, rate: int, floor: int) {
    if rate < 2 * floor then halved == floor else 2 * halved <= rate < 2 * halved + 2
  }

  lemma HalfHalves(rate: int, floor: int)
    requires floor > 0
    ensures Halved(AtLeast(Half(rate), floor), rate, floor)
  {
  }

  lemma ShareAbove(part: nat, whole: nat, num: nat, den: nat)
    requires whole > 0 && den > 0
    ensures Share(part, whole) > num as real / den as real <==> den * part > num * whole
  {
    var x, y := Share(part, whole), num as real / den as real;
    var w, d := whole as real, den as real;
    assert x * w == part as real && y * d == num as real;
    assert (x - y) * (w * d) == (x * w) * d - (y * d) * w;
    assert (den * part) as real == d * part as real && (num * whole) as real == num as real * w;
    SameSign(x - y, w * d);
  }

  lemma SameSign(x: real, y: real)
    requires y > 0.0
    ensures x * y > 0.0 <==> x > 0.0
  {
    if x > 0.0 { Positive(x, y); }
    if x < 0.0 { Positive(-x, y); assert (-x) * y == -(x * y); }
  }

  lemma Positive(x: real, y: real)
    requires x > 0.0 && y > 0.0
    ensures x * y > 0.0
  {
  }

  lemma SharesAdd(a: nat, b: nat, whole: nat)
    requires whole > 0
    ensures Share(a, whole) + Share(b, whole) == Share(a + b, whole)
  {
  }

  /** When the circuit opens, from the counters alone, and what that does. */
  lemma TripsIff(c: Config, s: Control, i: Input)
    requires !s.open
    ensures var t := Next(c, s, i);
            && (t.open <==> i.sends >= 100 && (10 * i.fails > 3 * i.sends || 10 * i.revocations > i.sends))
            && (t.open ==> Halved(t.rate, s.rate, 50) && t.preCircuitRate == s.rate && t.resyncNeeded)
            && (!t.open ==> t.preCircuitRate == s.preCircuitRate && t.resyncNeeded == s.resyncNeeded)
  {
    if i.sends >= 100 {
      ShareAbove(i.fails, i.sends, 3, 10);
      ShareAbove(i.revocations, i.sends, 1, 10);
    }
    hide Share;
    HalfHalves(s.rate, 50);
  }

  /** When it closes again, and how the rate is raised while it does not: by half, up to the rate
      from before the trip. */
  lemma RecoversIff(c: Config, s: Control, i: Input)
    requires s.open
    ensures var t, raised := Next(c, s, i), if s.rate >= 0 then 3 * s.rate / 2 else -(3 * -s.rate / 2);
            && (!t.open <==> i.sends >= 20 && 20 * (i.fails + i.revocations) < i.sends)
            && (t.open ==> t.rate == if 0 < s.preCircuitRate < raised then s.preCircuitRate else raised)
            && t.preCircuitRate == s.preCircuitRate && t.resyncNeeded == s.resyncNeeded
  {
    if i.sends >= 20 {
      SharesAdd(i.fails, i.revocations, i.sends);
      ShareBelow(i.fails + i.revocations, i.sends);
    }
    hide Share;
  }

  lemma ShareBelow(part: nat, whole: nat)
    requires whole > 0
    ensures Share(part, whole) < 0.05 <==> 20 * part < whole
  {
    var x, w := Share(part, whole), whole as real;
    assert x * w == part as real;
    assert (0.05 - x) * w == 0.05 * w - x * w;
    SameSign(0.05 - x, w);
  }

  /** Builder pressure halves the rate of a closed circuit, whatever the backlog is; the result is
      at least a hundred, to which a smaller rate is lifted. */
  lemma PressureHalves(c: Config, s: Control, i: Input)
    requires !Next(c, s, i).open && i.pressure > 0.8
    ensures Halved(Next(c, s, i).rate, s.rate, 100)
  {
    HalfHalves(s.rate, 100);
  }

  /** Without pressure the backlog decides: one step up below the target, nothing at it, one step
      down above it, two above twice the target, and half above four times; never below ten. */
  lemma BacklogDecides(c: Config, s: Control, i: Input)
    requires c.targetPending > 0 && !Next(c, s, i).open && i.pressure <= 0.8
    ensures var r, p, target := Next(c, s, i).rate, i.pending, c.targetPending;
            && (p < target ==> r == s.rate + c.step)
            && (p == target ==> r == s.rate)
            && (target < p <= 2 * target ==> r == Max(s.rate - c.step, 10))
            && (2 * target < p <= 4 * target ==> r == Max(s.rate - 2 * c.step, 10))
            && (4 * target < p ==> Halved(r, s.rate, 10))
  {
    HalfHalves(s.rate, 10);
    hide Trips, Recovers, Half;
  }

  // ---------------------------------------------------------------- the floor

  function Lowest(initial: int): int { if initial < 10 then initial else 10 }

  /** Neither the rate nor the rate an open circuit returns to lies below the floor. */
  ghost predicate AboveFloor(s: Control, floor: int) {
    s.rate >= floor && (s.open && s.preCircuitRate > 0 ==> s.preCircuitRate >= floor && s.rate > 0)
    && (s.open && s.preCircuitRate <= 0 ==> s.rate >= 50)
  }

  lemma StepAboveFloor(c: Config, s: Control, i: Input, floor: int)
    requires c.step > 0 && floor <= 10 && AboveFloor(s, floor)
    ensures AboveFloor(Next(c, s, i), floor)
  {
  }

  /** From a closed circuit the rate never falls below ten, or below the initial rate if that
      is smaller, whatever the counters, the pressure and the backlog do. */
  lemma {:induction false} RateFloor(c: Config, s: Control, inputs: seq<Input>)
    requires c.step > 0 && !s.open
    ensures AboveFloor(Run(c, s, inputs), Lowest(s.rate))
    decreases |inputs|
  {
    if inputs != [] {
      RateFloor(c, s, inputs[..|inputs| - 1]);
      StepAboveFloor(c, Run(c, s, inputs[..|inputs| - 1]), inputs[|inputs| - 1], Lowest(s.rate));
    }
  }

  // ---------------------------------------------------------------- the open circuit

  /** No input of the sequence closes the circuit. */
  predicate StaysOpen(inputs: seq<Input>) {
    forall k :: 0 <= k < |inputs| ==> !Recovers(inputs[k])
  }

  lemma {:induction false} OpenRun(c: Config, s: Control, inputs: seq<Input>)
    requires s.open && StaysOpen(inputs) && s.rate > 0 && s.preCircuitRate > 0
    ensures var t := Run(c, s, inputs);
            && t.open && t.preCircuitRate == s.preCircuitRate && t.rate > 0
            && (inputs != [] ==> t.rate <= s.preCircuitRate)
            && (inputs != [] && Next(c, s, inputs[0]).rate == s.preCircuitRate ==> t.rate == s.preCircuitRate)
            && (|inputs| >= 2 && Probe(Probe(s)).rate == s.preCircuitRate ==> t.rate == s.preCircuitRate)
    decreases |inputs|
  {
    if inputs != [] {
      var init := inputs[..|inputs| - 1];
      OpenRun(c, s, init);
      if |inputs| == 1 { assert init == []; }
      if |inputs| == 2 {
        assert init[..0] == [];
        assert Run(c, s, init) == Probe(s);
        assert Run(c, s, inputs) == Probe(Probe(s));
      }
    }
  }

  lemma TwoProbesRestore(s: Control)
    requires s.rate > 0
    ensures Probe(Probe(Trip(s))).rate == s.rate
  {
  }

  /** While the circuit stays open, its failure rates notwithstanding, the rate is at most the
      one before the trip from the first probe on, and exactly that one from the second on:
      high failure rates do not trip an open circuit again, so one second after a trip the
      controller sends at full rate into the same failures. */
  lemma OpenCircuitRestoresRate(c: Config, s: Control, trip: Input, inputs: seq<Input>)
    requires !s.open && s.rate > 0 && Trips(trip) && StaysOpen(inputs) && inputs != []
    ensures var t := Run(c, Next(c, s, trip), inputs);
            t.open && t.rate <= s.rate && (|inputs| >= 2 ==> t.rate == s.rate)
  {
    TwoProbesRestore(s);
    OpenRun(c, Next(c, s, trip), inputs);
  }

  // ---------------------------------------------------------------- direction and strength

  /** A tick of a closed controller that only the backlog decides. */
  predicate Calm(i: Input) {
    !Trips(i) && i.pressure <= BACKPRESSURE_THRESHOLD
  }

  /** The rate rises exactly when there is room, and falls exactly when there is not; but a
      rate below ten is lifted to ten by every overload. */
  lemma RateDirection(c: Config, s: Control, i: Input)
    requires c.step > 0 && c.targetPending > 0 && !s.open && Calm(i)
    ensures var r := Next(c, s, i).rate;
            && (r > s.rate <==> i.pending < c.targetPending || (i.pending > c.targetPending && s.rate < 10))
            && (r < s.rate <==> i.pending > c.targetPending && s.rate > 10)
  {
  }

  lemma HalfOrTwoSteps(x: int, step: int)
    requires step > 0
    ensures AtLeast(Half(x), 10) <= AtLeast(x - step * 2, 10) <==> x <= 21 || x >= 4 * step - 1
  {
  }

  /** A critical backlog is meant to cut the rate harder than a high one. It does so exactly
      for rates up to 21 or from four steps on: in between, halving takes less off than two
      steps do, 22 to 398 with the default step. */
  lemma CriticalCutsHarderIff(c: Config, s: Control, high: Input, critical: Input)
    requires c.step > 0 && c.targetPending > 0 && !s.open && Calm(high) && Calm(critical)
    requires c.targetPending * 2 < high.pending <= c.targetPending * 4 < critical.pending
    ensures Next(c, s, critical).rate <= Next(c, s, high).rate <==> s.rate <= 21 || s.rate >= 4 * c.step - 1
  {
    HalfOrTwoSteps(s.rate, c.step);
  }

  // ---------------------------------------------------------------- sustained overload

  function Pow2(k: nat): (p: nat)
    ensures p > 0
  {
    if k == 0 then 1 else 2 * Pow2(k - 1)
  }

  predicate Critical(c: Config, i: Input) {
    Calm(i) && i.pending > c.targetPending * 4
  }

  lemma HalveAgain(x: nat, p: nat)
    requires p > 0
    ensures x / p / 2 == x / (2 * p)
  {
    var q, r := x / p, x % p;
    assert x == p * q + r;
    var h, b := q / 2, q % 2;
    PairUp(p, h);
    if b == 0 {
      assert q == 2 * h;
      QuotientUnique(x, 2 * p, h, r);
    } else {
      assert q == 2 * h + 1;
      assert p * (2 * h + 1) == p * (2 * h) + p;
      QuotientUnique(x, 2 * p, h, p + r);
    }
  }

  lemma PairUp(p: nat, h: nat)
    ensures p * (2 * h) == (2 * p) * h
  {
  }

  lemma NoMore(d: nat, e: nat, q: nat)
    requires e < q
    ensures d * e + d <= d * q
  {
    assert d * (e + 1) == d * e + d;
    assert d * (e + 1) <= d * q;
  }

  lemma QuotientUnique(x: nat, d: nat, q: nat, r: nat)
    requires d > 0 && r < d && x == d * q + r
    ensures x / d == q
  {
    var e := x / d;
    assert x == d * e + x % d;
    if e < q { NoMore(d, e, q); }
    if q < e { NoMore(d, q, e); }
  }

  /** Under sustained critical overload the rate halves to the floor: after k ticks it is the
      initial rate divided by two to the k, or ten. */
  lemma {:induction false} OverloadHalves(c: Config, s: Control, inputs: seq<Input>)
    requires !s.open && s.rate >= 0 && c.targetPending > 0 && inputs != []
    requires forall k :: 0 <= k < |inputs| ==> Critical(c, inputs[k])
    ensures var t := Run(c, s, inputs);
            !t.open && t.rate == AtLeast(s.rate / Pow2(|inputs|), 10)
    decreases |inputs|
  {
    var init := inputs[..|inputs| - 1];
    assert Critical(c, inputs[|inputs| - 1]);
    if |inputs| == 1 {
      assert init == [];
      assert Pow2(1) == 2 * Pow2(0) == 2;
    } else {
      OverloadHalves(c, s, init);
      HalveAgain(s.rate, Pow2(|init|));
    }
  }
}

/** The strict rate limiter (internal/ratelimit/limiter.go). Times are integer nanoseconds. */
module RateLimiter {
  import opened Numbers

  const SECOND: int := 1_000_000_000

  datatype Limit = Limit(next: int, interval: int)

  /** Rates that are not positive count as one per second. */
  function Positive(rate: real): real { if rate <= 0.0 then 1.0 else rate }

  /** One second divided by the rate, truncated to whole nanoseconds. */
  function IntervalOf(rate: real): int { (SECOND as real / Positive(rate)).Floor }

  function ReserveSlot(l: Limit): (int, Limit) { (l.next, l.(next := l.next + l.interval)) }

  function RefundSlot(l: Limit): Limit { l.(next := l.next - l.interval) }

  function ChangeInterval(l: Limit, interval: int, now: int): Limit {
    Limit(if l.next < now then now else l.next, interval)
  }

  /** The limiter object; each critical section of Wait is one method. */
  class Limiter {
    var nextPermitTime: int
    var interval: int

    function State(): Limit reads this { Limit(nextPermitTime, interval) }

    constructor (rate: real, now: int)
      ensures State() == Limit(now, IntervalOf(rate))
    {
      var r := rate;
      if r <= 0.0 { r := 1.0; }
      nextPermitTime, interval := now, (SECOND as real / r).Floor;
    }

    method Reserve() returns (permitTime: int)
      modifies this
      ensures (permitTime, State()) == ReserveSlot(old(State()))
    {
      permitTime := nextPermitTime;
      nextPermitTime := permitTime + interval;
    }

    method Refund()
      modifies this
      ensures State() == RefundSlot(old(State()))
    {
      nextPermitTime := nextPermitTime - interval;
    }

    method SetRate(rate: real, now: int)
      modifies this
      ensures State() == ChangeInterval(old(State()), IntervalOf(rate), now)
    {
      var r := rate;
      if r <= 0.0 { r := 1.0; }
      interval := (SECOND as real / r).Floor;
      if nextPermitTime < now {
        nextPermitTime := now;
      }
    }
  }

  /** The interval is at least a nanosecond exactly for rates up to one per nanosecond. */
  lemma IntervalPositiveIff(rate: real)
    ensures IntervalOf(rate) >= 1 <==> rate <= SECOND as real
  {
    var r := Positive(rate);
    var q := SECOND as real / r;
    assert q * r == SECOND as real;
    assert (q - 1.0) * r == SECOND as real - r;
    if r <= SECOND as real {
      NonNegativeFactor(q - 1.0, r);
    } else {
      NegativeFactor(q - 1.0, r);
    }
  }

  lemma NonNegativeFactor(x: real, r: real)
    requires r > 0.0 && x * r >= 0.0
    ensures x >= 0.0
  {}

  lemma NegativeFactor(x: real, r: real)
    requires r > 0.0 && x * r < 0.0
    ensures x < 0.0
  {}

  /** The interval fits into a second as often as the rate says, and would not if it were one
      nanosecond longer. */
  predicate Fits(interval: int, rate: real) {
    interval as real * rate <= 1_000_000_000.0 < (interval as real + 1.0) * rate
  }

  /** The interval is the rate's; a rate that is not positive means one second. */
  lemma IntervalOfRate(rate: real)
    ensures if rate > 0.0 then Fits(IntervalOf(rate), rate) else IntervalOf(rate) == 1_000_000_000
  {
    var q := SECOND as real / Positive(rate);
    if rate > 0.0 {
      assert q * rate == 1_000_000_000.0;
      FloorFits(q, rate);
    } else {
      assert q == 1_000_000_000.0;
    }
    hide Fits;
  }

  lemma FloorFits(q: real, rate: real)
    requires rate > 0.0 && q * rate == 1_000_000_000.0
    ensures Fits(q.Floor, rate)
  {
    TimesRate(q.Floor as real, q, rate);
    TimesRate(q, q.Floor as real + 1.0, rate);
  }

  lemma TimesRate(x: real, y: real, rate: real)
    requires rate > 0.0
    ensures x <= y ==> x * rate <= y * rate
    ensures x < y ==> x * rate < y * rate
  {
  }

  // ---------------------------------------------------------------- runs of concurrent waits

  /** A call of Wait that returned without an error. */
  datatype Grant = Grant(permitTime: int, at: int)

  /** Calls of Wait that are blocked hold the permit time they reserved. */
  datatype Run = Run(limit: Limit, waiting: seq<int>, grants: seq<Grant>)

  datatype Event =
    | Arrive              // a call reserves a slot
    | Permit(i: nat, at: int) // a blocked call returns, not before its permit time
    | Cancel(i: nat)      // a blocked call is cancelled and refunds its slot

  function Start(now: int, interval: int): Run { Run(Limit(now, interval), [], []) }

  predicate Possible(r: Run, e: Event) {
    match e
    case Arrive => true
    case Permit(i, at) => i < |r.waiting| && r.waiting[i] <= at
    case Cancel(i) => i < |r.waiting|
  }

  function Without(s: seq<int>, i: nat): seq<int> requires i < |s| { s[..i] + s[i + 1..] }

  /** An event that is not possible leaves the run as it is. */
  function Step(r: Run, e: Event): Run {
    if !Possible(r, e) then r else
    match e
    case Arrive =>
      var (t, l) := ReserveSlot(r.limit);
      r.(limit := l, waiting := r.waiting + [t])
    case Permit(i, at) =>
      r.(waiting := Without(r.waiting, i), grants := r.grants + [Grant(r.waiting[i], at)])
    case Cancel(i) =>
      r.(limit := RefundSlot(r.limit), waiting := Without(r.waiting, i))
  }

  function Play(r: Run, events: seq<Event>): Run
    decreases |events|
  {
    if events == [] then r else Step(Play(r, events[..|events| - 1]), events[|events| - 1])
  }

  // ---------------------------------------------------------------- counting

  function CountUpTo(s: seq<int>, x: int): (n: nat)
    ensures n <= |s|
  {
    if s == [] then 0
    else CountUpTo(s[..|s| - 1], x) + if s[|s| - 1] <= x then 1 else 0
  }

  function PermitTimes(grants: seq<Grant>): (s: seq<int>)
    ensures |s| == |grants|
  {
    if grants == [] then [] else PermitTimes(grants[..|grants| - 1]) + [grants[|grants| - 1].permitTime]
  }

  /** The number of calls granted up to time t. */
  function GrantedBy(grants: seq<Grant>, t: int): nat {
    if grants == [] then 0
    else GrantedBy(grants[..|grants| - 1], t) + if grants[|grants| - 1].at <= t then 1 else 0
  }

  /** The number of slots of the schedule now, now + interval, ... that lie at or before t. */
  function Slots(now: int, interval: pos, t: int): nat
  {
    if t < now then 0 else (t - now) / interval + 1
  }

  lemma {:induction false} CountAppend(s: seq<int>, t: seq<int>, x: int)
    ensures CountUpTo(s + t, x) == CountUpTo(s, x) + CountUpTo(t, x)
    decreases |t|
  {
    if t == [] {
      assert s + t == s;
    } else {
      CountAppend(s, t[..|t| - 1], x);
      assert (s + t)[..|s + t| - 1] == s + t[..|t| - 1];
    }
  }

  lemma CountNext(s: seq<int>, y: int, x: int)
    ensures CountUpTo(s + [y], x) == CountUpTo(s, x) + if y <= x then 1 else 0
  {
    assert (s + [y])[..|s|] == s;
  }

  lemma CountWithout(s: seq<int>, i: nat, x: int)
    requires i < |s|
    ensures CountUpTo(s, x) == CountUpTo(Without(s, i), x) + if s[i] <= x then 1 else 0
  {
    assert s == s[..i] + ([s[i]] + s[i + 1..]);
    CountAppend(s[..i], [s[i]] + s[i + 1..], x);
    CountAppend([s[i]], s[i + 1..], x);
    CountAppend(s[..i], s[i + 1..], x);
    assert CountUpTo([s[i]], x) == CountUpTo([], x) + if s[i] <= x then 1 else 0;
  }

  // ---------------------------------------------------------------- the bound

  /** Reserved slots, granted or still waited for, never outrun the schedule; and the next
      permit time is exactly as far ahead as there are slots in use. */
  ghost predicate OnSchedule(now: int, interval: pos, r: Run)
  {
    && r.limit == Limit(now + interval * (|r.grants| + |r.waiting|), interval)
    && (forall i :: 0 <= i < |r.grants| ==> r.grants[i].permitTime <= r.grants[i].at)
    && forall x :: CountUpTo(r.waiting, x) + CountUpTo(PermitTimes(r.grants), x) <= Slots(now, interval, x)
  }

  lemma Scales(interval: pos, j: int, k: int)
    requires j <= k
    ensures interval * j <= interval * k
  {
  }

  lemma NextProduct(interval: int, k: int)
    ensures interval * (k + 1) == interval * k + interval
  {
  }

  lemma SlotsAfter(now: int, interval: pos, k: nat, x: int)
    requires now + interval * k <= x
    ensures k + 1 <= Slots(now, interval, x)
  {
    var q, rem := (x - now) / interval, (x - now) % interval;
    assert x - now == interval * q + rem;
    assert interval * (q + 1) == interval * q + interval;
    if q < k {
      Scales(interval, q + 1, k);
    }
    Scales(interval, 0, k);
  }

  lemma RefundOnSchedule(now: int, interval: pos, r: Run, i: nat)
    requires OnSchedule(now, interval, r) && i < |r.waiting|
    ensures OnSchedule(now, interval, Step(r, Cancel(i)))
  {
    var s, k := Step(r, Cancel(i)), |r.grants| + |r.waiting|;
    hide Slots, CountUpTo;
    assert s.limit == Limit(now + interval * (k - 1), interval) && |s.grants| + |s.waiting| == k - 1;
    forall x ensures CountUpTo(s.waiting, x) + CountUpTo(PermitTimes(s.grants), x) <= Slots(now, interval, x) {
      CountWithout(r.waiting, i, x);
    }
  }

  lemma GrantOnSchedule(now: int, interval: pos, r: Run, i: nat, at: int)
    requires OnSchedule(now, interval, r) && i < |r.waiting| && r.waiting[i] <= at
    ensures OnSchedule(now, interval, Step(r, Permit(i, at)))
  {
    var s := Step(r, Permit(i, at));
    assert s.grants[..|r.grants|] == r.grants;
    assert PermitTimes(s.grants) == PermitTimes(r.grants) + [r.waiting[i]];
    hide Slots, PermitTimes;
    forall x ensures CountUpTo(s.waiting, x) + CountUpTo(PermitTimes(s.grants), x) <= Slots(now, interval, x) {
      CountWithout(r.waiting, i, x);
    }
  }

  lemma ArriveOnSchedule(now: int, interval: pos, r: Run)
    requires OnSchedule(now, interval, r)
    ensures OnSchedule(now, interval, Step(r, Arrive))
  {
    hide Slots, CountUpTo, PermitTimes;
    var s, k := Step(r, Arrive), |r.grants| + |r.waiting|;
    NextProduct(interval, k);
    assert s == Run(Limit(r.limit.next + interval, interval), r.waiting + [r.limit.next], r.grants);
    hide Step;
    forall x ensures CountUpTo(s.waiting, x) + CountUpTo(PermitTimes(s.grants), x) <= Slots(now, interval, x) {
      CountNext(r.waiting, r.limit.next, x);
      if r.limit.next <= x { SlotsAfter(now, interval, k, x); }
    }
  }

  lemma StepOnSchedule(now: int, interval: pos, r: Run, e: Event)
    requires OnSchedule(now, interval, r)
    ensures OnSchedule(now, interval, Step(r, e))
  {
    if !Possible(r, e) { return; }
    hide OnSchedule;
    match e
    case Arrive => ArriveOnSchedule(now, interval, r);
    case Permit(i, at) => GrantOnSchedule(now, interval, r, i, at);
    case Cancel(i) => RefundOnSchedule(now, interval, r, i);
  }

  lemma {:induction false} RunOnSchedule(now: int, interval: pos, events: seq<Event>)
    ensures OnSchedule(now, interval, Play(Start(now, interval), events))
    decreases |events|
  {
    if events != [] {
      var init, e := events[..|events| - 1], events[|events| - 1];
      RunOnSchedule(now, interval, init);
      StepOnSchedule(now, interval, Play(Start(now, interval), init), e);
    }
  }

  lemma {:induction false} GrantedAtPermitTime(grants: seq<Grant>, t: int)
    requires forall i :: 0 <= i < |grants| ==> grants[i].permitTime <= grants[i].at
    ensures GrantedBy(grants, t) <= CountUpTo(PermitTimes(grants), t)
  {
    if grants != [] {
      GrantedAtPermitTime(grants[..|grants| - 1], t);
    }
  }

  /** The rate bound: at a constant rate no interleaving of waits, grants and cancellations
      lets more calls through by time t than the schedule has slots. */
  lemma RateBound(now: int, interval: pos, events: seq<Event>, t: int)
    ensures GrantedBy(Play(Start(now, interval), events).grants, t) <= Slots(now, interval, t)
  {
    RunOnSchedule(now, interval, events);
    GrantedAtPermitTime(Play(Start(now, interval), events).grants, t);
  }

  lemma {:induction false} PassAll(now: int, interval: pos, t: int, n: nat) returns (events: seq<Event>)
    requires n <= Slots(now, interval, t)
    ensures var r := Play(Start(now, interval), events);
            && r.limit == Limit(now + interval * n, interval) && r.waiting == [] && GrantedBy(r.grants, t) == n
  {
    events := [];
    if n > 0 {
      events := PassAll(now, interval, t, n - 1);
      var r := Play(Start(now, interval), events);
      SlotPassed(now, interval, t, n - 1);
      NextProduct(interval, n - 1);
      PlayPair(Start(now, interval), events, Arrive, Permit(0, t));
      events := events + [Arrive, Permit(0, t)];
      var g := Grant(r.limit.next, t);
      assert Step(Step(r, Arrive), Permit(0, t)) == Run(Limit(now + interval * n, interval), [], r.grants + [g]);
      assert (r.grants + [g])[..|r.grants|] == r.grants;
    }
  }

  lemma SlotPassed(now: int, interval: pos, t: int, k: nat)
    requires k < Slots(now, interval, t)
    ensures now + interval * k <= t
  {
    var q := (t - now) / interval;
    assert t - now == interval * q + (t - now) % interval;
    Scales(interval, k, q);
  }

  /** The bound is what the limiter lets through: some run reaches it. */
  lemma RateReached(now: int, interval: pos, t: int) returns (events: seq<Event>)
    ensures GrantedBy(Play(Start(now, interval), events).grants, t) == Slots(now, interval, t)
  {
    events := PassAll(now, interval, t, Slots(now, interval, t));
  }

  /** The rate bound in terms of the rate: in t nanoseconds no more calls pass than that many
      times the rate, and one, but for what truncating the interval to nanoseconds adds. */
  lemma RateBoundOfRate(rate: real, now: int, events: seq<Event>, t: nat)
    requires 0.0 < rate < 1_000_000_000.0
    ensures GrantedBy(Play(Start(now, IntervalOf(rate)), events).grants, now + t) as real
         <= t as real * rate / (1_000_000_000.0 - rate) + 1.0
  {
    hide Play, Start, GrantedBy, Slots, IntervalOf, Fits;
    IntervalOfRate(rate);
    IntervalPositiveIff(rate);
    RateBound(now, IntervalOf(rate), events, now + t);
    SlotsAtMost(rate, IntervalOf(rate), now, t);
  }

  lemma SlotsAtMost(rate: real, interval: pos, now: int, t: nat)
    requires 0.0 < rate < 1_000_000_000.0 && Fits(interval, rate)
    ensures Slots(now, interval, now + t) as real <= t as real * rate / (1_000_000_000.0 - rate) + 1.0
  {
    hide Fits;
    var q := t / interval;
    assert Slots(now, interval, now + t) == q + 1;
    assert t == interval * q + t % interval;
    hide Slots;
    Quotient(interval, q, t);
    WithinMost(rate, interval, q, t);
  }

  lemma Quotient(i: int, q: int, t: int)
    requires i * q <= t
    ensures i as real * q as real <= t as real
  {
    assert (i * q) as real == i as real * q as real;
  }

  lemma WithinMost(rate: real, interval: int, q: nat, t: nat)
    requires 0.0 < rate < 1_000_000_000.0 && Fits(interval, rate) && interval as real * q as real <= t as real
    ensures q as real <= t as real * rate / (1_000_000_000.0 - rate)
  {
    QuotientBound(interval as real, q as real, t as real, rate, 1_000_000_000.0 - rate);
    hide Fits;
    DivideBy(q as real, t as real * rate, 1_000_000_000.0 - rate);
  }

  lemma QuotientBound(i: real, q: real, t: real, rate: real, d: real)
    requires rate > 0.0 && q >= 0.0 && i * q <= t && d + rate <= (i + 1.0) * rate
    ensures q * d <= t * rate
  {
    assert (i + 1.0) * rate == i * rate + rate;
    Factor(q, d, i * rate);
    assert q * (i * rate) == i * q * rate;
    TimesRate(i * q, t, rate);
  }

  lemma Factor(f: real, x: real, y: real)
    requires f >= 0.0 && x <= y
    ensures f * x <= f * y
  {
  }

  lemma DivideBy(x: real, y: real, d: real)
    requires d > 0.0 && x * d <= y
    ensures x <= y / d
  {
    var z := y / d;
    assert z * d == y;
    if x > z { TimesRate(z, x, d); }
  }

  /** And that many times the rate, and one, do pass when enough calls wait. */
  lemma RateReachedOfRate(rate: real, now: int, t: nat) returns (events: seq<Event>)
    requires 0.0 < rate <= 1_000_000_000.0
    ensures GrantedBy(Play(Start(now, IntervalOf(rate)), events).grants, now + t)
         >= (t as real * rate / 1_000_000_000.0).Floor + 1
  {
    hide Play, Start, GrantedBy, Slots, IntervalOf, Fits;
    IntervalOfRate(rate);
    IntervalPositiveIff(rate);
    SlotsAtLeast(rate, IntervalOf(rate), now, t);
    events := RateReached(now, IntervalOf(rate), now + t);
  }

  lemma SlotsAtLeast(rate: real, interval: pos, now: int, t: nat)
    requires rate > 0.0 && Fits(interval, rate)
    ensures Slots(now, interval, now + t) >= (t as real * rate / 1_000_000_000.0).Floor + 1
  {
    IntervalsFit(rate, interval, t);
    hide Fits;
    SlotsAfter(now, interval, (t as real * rate / 1_000_000_000.0).Floor, now + t);
  }

  lemma IntervalsFit(rate: real, interval: pos, t: nat)
    requires rate > 0.0 && Fits(interval, rate)
    ensures var k := (t as real * rate / 1_000_000_000.0).Floor; 0 <= k && interval * k <= t
  {
    var i, x := interval as real, t as real * rate;
    var k := (x / 1_000_000_000.0).Floor;
    Factor(t as real, 0.0, rate);
    assert x >= 0.0;
    Factor(i, k as real * 1_000_000_000.0, x);
    assert i * x == t as real * (i * rate);
    Factor(t as real, i * rate, 1_000_000_000.0);
    assert i * (k as real * 1_000_000_000.0) == i * k as real * 1_000_000_000.0;
    assert (interval * k) as real == i * k as real;
  }

  /** Cancelled waits waste no capacity: the schedule advances only for calls that were
      granted or are still waiting. */
  lemma NoSlotIsLost(now: int, interval: pos, events: seq<Event>)
    ensures var r := Play(Start(now, interval), events);
            r.limit.next == now + interval * (|r.grants| + |r.waiting|)
  {
    RunOnSchedule(now, interval, events);
  }

  /** The bound is not a matter of distinct permit times: a refund lets two waiting calls
      hold the same one. The first call passes at once, for its permit time is the start; two
      more wait, and the earlier of them is cancelled. */
  lemma RefundDuplicatesPermitTime(now: int, interval: int)
    ensures Play(Start(now, interval), [] + [Arrive, Permit(0, now)] + [Arrive, Arrive] + [Cancel(0), Arrive]).waiting
         == [now + 2 * interval, now + 2 * interval]
  {
    var a := [] + [Arrive, Permit(0, now)];
    var b := a + [Arrive, Arrive];
    PlayPair(Start(now, interval), [], Arrive, Permit(0, now));
    PlayPair(Start(now, interval), a, Arrive, Arrive);
    PlayPair(Start(now, interval), b, Cancel(0), Arrive);
    var first := [Grant(now, now)];
    assert Play(Start(now, interval), a) == Run(Limit(now + interval, interval), [], first);
    assert Play(Start(now, interval), b)
        == Run(Limit(now + 3 * interval, interval), [now + interval, now + 2 * interval], first);
    hide Play;
  }

  lemma PlayPair(r: Run, events: seq<Event>, d: Event, e: Event)
    ensures Play(r, events + [d, e]) == Step(Step(Play(r, events), d), e)
  {
    hide Step;
    var all := events + [d, e];
    assert all[..|all| - 1] == events + [d] && (events + [d])[..|events|] == events;
  }

  // ---------------------------------------------------------------- the interval between permits

  /** All permit times that are reserved: granted ones, and those still waited for. */
  function Reserved(r: Run): multiset<int> { multiset(r.waiting) + multiset(PermitTimes(r.grants)) }

  /** Point m of the schedule. */
  function Point(now: int, interval: int, m: int): int { now + interval * m }

  /** The first n points of the schedule, each once. */
  function Grid(now: int, interval: int, n: nat): multiset<int> {
    if n == 0 then multiset{} else Grid(now, interval, n - 1) + multiset{Point(now, interval, n - 1)}
  }

  function Used(r: Run): nat { |r.grants| + |r.waiting| }

  /** The reserved permit times fill the schedule from its start without a gap. */
  ghost predicate Packed(now: int, interval: int, r: Run) {
    Fills(now, interval, r.limit, Reserved(r), Used(r))
  }

  ghost predicate Fills(now: int, interval: int, limit: Limit, reserved: multiset<int>, n: nat) {
    limit == Limit(Point(now, interval, n), interval) && reserved == Grid(now, interval, n)
  }

  /** A cancellation, if the event is one, refunds the latest slot of the schedule. */
  predicate CancelsNewest(r: Run, e: Event) {
    e.Cancel? && Possible(r, e) ==> r.waiting[e.i] == r.limit.next - r.limit.interval
  }

  lemma PointsApart(now: int, interval: pos, m: int, n: int)
    requires m < n
    ensures Point(now, interval, m) + interval <= Point(now, interval, n)
  {
    Scales(interval, m + 1, n);
    assert interval * (m + 1) == interval * m + interval;
  }

  lemma {:induction false} GridPoints(now: int, interval: pos, n: nat, x: int)
    ensures x in Grid(now, interval, n) <==> exists m :: 0 <= m < n && x == Point(now, interval, m)
    ensures Grid(now, interval, n)[x] <= 1 && |Grid(now, interval, n)| == n
  {
    if n > 0 {
      GridPoints(now, interval, n - 1, x);
      hide Point;
      if m :| 0 <= m < n - 1 && x == Point(now, interval, m) { PointsApart(now, interval, m, n - 1); }
    }
  }

  /** In a packed run no two calls hold the same permit time, and any two are an interval apart. */
  lemma PackedSpaced(now: int, interval: pos, r: Run, x: int, y: int)
    requires Packed(now, interval, r) && x in Reserved(r) && y in Reserved(r)
    ensures Reserved(r)[x] == 1 && (x < y ==> x + interval <= y)
  {
    var n := Used(r);
    GridPoints(now, interval, n, x);
    GridPoints(now, interval, n, y);
    var i :| 0 <= i < n && x == Point(now, interval, i);
    var j :| 0 <= j < n && y == Point(now, interval, j);
    if i < j { PointsApart(now, interval, i, j); }
    if j < i { PointsApart(now, interval, j, i); }
    hide Point, Reserved, Grid;
  }

  lemma WithoutOne(s: seq<int>, i: nat)
    requires i < |s|
    ensures multiset(s) == multiset(Without(s, i)) + multiset{s[i]}
  {
    assert s == s[..i] + ([s[i]] + s[i + 1..]);
  }

  lemma PointNext(now: int, interval: int, m: int)
    ensures Point(now, interval, m) + interval == Point(now, interval, m + 1)
  {
    assert interval * (m + 1) == interval * m + interval;
  }

  /** What an event does to the schedule and to the reserved times. */
  lemma ReservedStep(r: Run, e: Event)
    requires Possible(r, e)
    ensures var s := Step(r, e);
            && s.limit.interval == r.limit.interval
            && match e
               case Arrive =>
                 && s.limit.next == r.limit.next + r.limit.interval
                 && Reserved(s) == Reserved(r) + multiset{r.limit.next} && Used(s) == Used(r) + 1
               case Permit(_, _) =>
                 s.limit == r.limit && Reserved(s) == Reserved(r) && Used(s) == Used(r)
               case Cancel(i) =>
                 && s.limit.next == r.limit.next - r.limit.interval
                 && Reserved(r) == Reserved(s) + multiset{r.waiting[i]} && Used(s) == Used(r) - 1
  {
    var s := Step(r, e);
    match e
    case Arrive =>
    case Permit(i, at) =>
      WithoutOne(r.waiting, i);
      assert s.grants[..|s.grants| - 1] == r.grants;
    case Cancel(i) => WithoutOne(r.waiting, i);
  }

  lemma FillsArrive(now: int, interval: int, l: Limit, reserved: multiset<int>, n: nat)
    requires Fills(now, interval, l, reserved, n)
    ensures Fills(now, interval, Limit(l.next + l.interval, l.interval), reserved + multiset{l.next}, n + 1)
  {
    PointNext(now, interval, n);
    GridLast(now, interval, n + 1);
    hide Point, Grid;
  }

  lemma FillsCancelIff(now: int, interval: int, l: Limit, reserved: multiset<int>, left: multiset<int>, n: nat, x: int)
    requires Fills(now, interval, l, reserved, n) && n > 0 && reserved == left + multiset{x}
    ensures Fills(now, interval, Limit(l.next - l.interval, l.interval), left, n - 1) <==> x == l.next - l.interval
  {
    PointNext(now, interval, n - 1);
    GridLast(now, interval, n);
    hide Point, Grid;
    CancelOne(reserved, left, Grid(now, interval, n - 1), x, Point(now, interval, n - 1));
  }

  /** Exactly which events keep a run packed: all but a cancellation of an older reservation. */
  lemma PackedStepIff(now: int, interval: int, r: Run, e: Event)
    requires Packed(now, interval, r)
    ensures Packed(now, interval, Step(r, e)) <==> CancelsNewest(r, e)
  {
    hide Reserved, Used, Fills;
    if Possible(r, e) {
      var s := Step(r, e);
      ReservedStep(r, e);
      assert s.limit == Limit(s.limit.next, r.limit.interval);
      hide Step;
      match e
      case Arrive => FillsArrive(now, interval, r.limit, Reserved(r), Used(r));
      case Permit(_, _) =>
      case Cancel(i) => FillsCancelIff(now, interval, r.limit, Reserved(r), Reserved(s), Used(r), r.waiting[i]);
    }
  }

  lemma GridLast(now: int, interval: int, n: nat)
    requires n > 0
    ensures Grid(now, interval, n) == Grid(now, interval, n - 1) + multiset{Point(now, interval, n - 1)}
  {
    hide Point;
  }

  lemma CancelOne(all: multiset<int>, s: multiset<int>, t: multiset<int>, x: int, y: int)
    requires all == s + multiset{x} && all == t + multiset{y}
    ensures s == t <==> x == y
  {
    assert (s + multiset{x})[y] == (t + multiset{y})[y];
    if x == y {
      forall z ensures s[z] == t[z] {
        assert (s + multiset{x})[z] == (t + multiset{y})[z];
      }
    }
  }

  lemma AtStart(now: int, interval: int)
    ensures Packed(now, interval, Start(now, interval))
  {
    assert interval * 0 == 0;
  }

  lemma PlayNext(r: Run, events: seq<Event>, k: nat)
    requires k < |events|
    ensures Play(r, events[..k + 1]) == Step(Play(r, events[..k]), events[k])
  {
    assert events[..k + 1][..k] == events[..k];
  }

  lemma {:induction false} PackedUpTo(now: int, interval: pos, events: seq<Event>, k: nat)
    requires k <= |events|
    requires forall j :: 0 <= j < |events| ==> CancelsNewest(Play(Start(now, interval), events[..j]), events[j])
    ensures Packed(now, interval, Play(Start(now, interval), events[..k]))
  {
    if k == 0 {
      AtStart(now, interval);
    } else {
      PackedUpTo(now, interval, events, k - 1);
      PlayNext(Start(now, interval), events, k - 1);
      PackedStepIff(now, interval, Play(Start(now, interval), events[..k - 1]), events[k - 1]);
      hide Play, Packed, Step;
    }
  }

  /** Permit times fill the schedule, and so are an interval apart, throughout a run if and
      only if each cancellation of the run refunds the newest reservation. */
  lemma RunPackedIff(now: int, interval: pos, events: seq<Event>)
    ensures (forall k :: 0 <= k <= |events| ==> Packed(now, interval, Play(Start(now, interval), events[..k])))
       <==> (forall k :: 0 <= k < |events| ==> CancelsNewest(Play(Start(now, interval), events[..k]), events[k]))
  {
    var r := Start(now, interval);
    hide Play, Packed, Step, Start, CancelsNewest;
    if forall k :: 0 <= k < |events| ==> CancelsNewest(Play(r, events[..k]), events[k]) {
      forall k | 0 <= k <= |events| ensures Packed(now, interval, Play(r, events[..k])) {
        PackedUpTo(now, interval, events, k);
      }
    }
    if forall k :: 0 <= k <= |events| ==> Packed(now, interval, Play(r, events[..k])) {
      forall k | 0 <= k < |events| ensures CancelsNewest(Play(r, events[..k]), events[k]) {
        PlayNext(r, events, k);
        assert Packed(now, interval, Play(r, events[..k])) && Packed(now, interval, Play(r, events[..k + 1]));
        PackedStepIff(now, interval, Play(r, events[..k]), events[k]);
      }
    }
  }

  /** Whatever was cancelled before, reserved permit times are points of the schedule. */
  ghost predicate OnGrid(now: int, interval: int, r: Run) {
    && r.limit == Limit(Point(now, interval, Used(r)), interval)
    && OnPoints(now, interval, Reserved(r))
  }

  ghost predicate OnPoints(now: int, interval: int, s: multiset<int>) {
    forall x :: x in s ==> exists m :: 0 <= m && x == Point(now, interval, m)
  }

  lemma PointsAdd(now: int, interval: int, s: multiset<int>, n: nat)
    requires OnPoints(now, interval, s)
    ensures OnPoints(now, interval, s + multiset{Point(now, interval, n)})
  {
    hide Point;
  }

  lemma PointsRemove(now: int, interval: int, s: multiset<int>, left: multiset<int>, x: int)
    requires OnPoints(now, interval, s) && s == left + multiset{x}
    ensures OnPoints(now, interval, left)
  {
    hide Point;
    assert forall y :: y in left ==> y in s;
  }

  lemma StepOnGrid(now: int, interval: int, r: Run, e: Event)
    requires OnGrid(now, interval, r)
    ensures OnGrid(now, interval, Step(r, e))
  {
    hide Point, Reserved, Used, OnPoints;
    if Possible(r, e) {
      var s := Step(r, e);
      ReservedStep(r, e);
      PointNext(now, interval, Used(r));
      PointNext(now, interval, (Used(r) as int) - 1);
      PointsAdd(now, interval, Reserved(r), Used(r));
      if e.Cancel? { PointsRemove(now, interval, Reserved(r), Reserved(s), r.waiting[e.i]); }
      assert s.limit == Limit(s.limit.next, r.limit.interval);
      hide Step;
    }
  }

  lemma {:induction false} RunOnGrid(now: int, interval: int, events: seq<Event>)
    ensures OnGrid(now, interval, Play(Start(now, interval), events))
    decreases |events|
  {
    if events == [] {
      assert interval * 0 == 0;
    } else {
      RunOnGrid(now, interval, events[..|events| - 1]);
      StepOnGrid(now, interval, Play(Start(now, interval), events[..|events| - 1]), events[|events| - 1]);
      hide OnGrid, Step;
    }
  }

  ghost predicate Unrepeated(r: Run) { NoRepeats(Reserved(r)) }

  ghost predicate NoRepeats(s: multiset<int>) { forall x :: s[x] <= 1 }

  lemma {:induction false} PlayedReserved(r: Run)
    ensures |Reserved(r)| == Used(r)
  {
  }

  /** Distinct permit times, none later than the last slot: then they are all of the schedule. */
  lemma DistinctIsPacked(now: int, interval: pos, r: Run)
    requires OnGrid(now, interval, r) && Unrepeated(r)
    requires forall x :: x in Reserved(r) ==> x <= r.limit.next - interval
    ensures Packed(now, interval, r)
  {
    var n, all, grid := Used(r), Reserved(r), Grid(now, interval, Used(r));
    hide Reserved, Grid;
    forall x | x in all ensures x in grid {
      var m :| 0 <= m && x == Point(now, interval, m);
      if m >= n {
        Scales(interval, n, m);
      }
      GridPoints(now, interval, n, x);
    }
    forall x ensures all[x] <= grid[x] {
      if x in all { assert grid[x] >= 1; }
    }
    PlayedReserved(r);
    GridPoints(now, interval, n, now);
    SameSize(all, grid);
  }

  lemma SameSize(s: multiset<int>, t: multiset<int>)
    requires s <= t && |s| == |t|
    ensures s == t
  {
    var rest := t - s;
    assert s + rest == t;
    assert |s| + |rest| == |t|;
  }

  /** When a cancellation makes the next call repeat a permit time: if all reserved ones are
      distinct and none is later than the last slot, exactly when the cancelled call was not
      the one that reserved it. */
  lemma CancelRepeatsIff(now: int, interval: pos, events: seq<Event>, i: nat)
    requires var r := Play(Start(now, interval), events);
             i < |r.waiting| && Unrepeated(r) && forall x :: x in Reserved(r) ==> x <= r.limit.next - interval
    ensures var r := Play(Start(now, interval), events);
            Unrepeated(Step(Step(r, Cancel(i)), Arrive)) <==> r.waiting[i] == r.limit.next - interval
  {
    var r := Play(Start(now, interval), events);
    RunOnGrid(now, interval, events);
    DistinctIsPacked(now, interval, r);
    CancelThenArrive(now, interval, r, i);
    hide Play, Start, Packed;
  }

  /** Cancelling one call of a packed run and taking the next slot repeats the last point, unless
      it was the one that was given up. */
  lemma CancelThenArrive(now: int, interval: pos, r: Run, i: nat)
    requires Packed(now, interval, r) && i < |r.waiting|
    ensures Unrepeated(Step(Step(r, Cancel(i)), Arrive)) <==> r.waiting[i] == r.limit.next - interval
  {
    hide Reserved, Step, Packed, NoRepeats;
    var c := Step(r, Cancel(i));
    CancelArriveReserved(r, i);
    PackedLast(now, interval, r);
    SwapRepeats(Reserved(r), Reserved(c), Reserved(Step(c, Arrive)), r.waiting[i], r.limit.next - interval);
  }

  lemma CancelArriveReserved(r: Run, i: nat)
    requires i < |r.waiting|
    ensures var c := Step(r, Cancel(i));
            && Reserved(r) == Reserved(c) + multiset{r.waiting[i]}
            && Reserved(Step(c, Arrive)) == Reserved(c) + multiset{r.limit.next - r.limit.interval}
  {
    hide Reserved;
    ReservedStep(r, Cancel(i));
    ReservedStep(Step(r, Cancel(i)), Arrive);
    hide Step;
  }

  lemma PackedLast(now: int, interval: pos, r: Run)
    requires Packed(now, interval, r) && Used(r) > 0
    ensures Unrepeated(r) && r.limit.interval == interval && r.limit.next - interval in Reserved(r)
  {
    var n := Used(r);
    PointNext(now, interval, n - 1);
    GridLast(now, interval, n);
    hide Point, Reserved, Used;
    forall x ensures Grid(now, interval, n)[x] <= 1 { GridPoints(now, interval, n, x); }
    hide Grid;
  }

  lemma SwapRepeats(grid: multiset<int>, c: multiset<int>, s: multiset<int>, x: int, last: int)
    requires NoRepeats(grid) && last in grid && grid == c + multiset{x} && s == c + multiset{last}
    ensures NoRepeats(s) <==> x == last
  {
    assert (c + multiset{x})[last] == grid[last] == 1;
    assert s[last] == c[last] + 1;
    if x == last { assert s == grid; }
  }

  // ---------------------------------------------------------------- catching up

  /** How large a burst is after an idle time: of the calls that arrive one after the other at
      the same moment, exactly so many find their permit time in the past, and pass at once, as
      the schedule has slots from where it was left up to then. */
  lemma BurstIff(l: Limit, k: nat, now: int)
    requires l.interval > 0
    ensures ReserveSlot(ReserveTimes(l, k)).0 <= now <==> k < Slots(l.next, l.interval, now)
  {
    RefundsMove(l, k);
    NextProduct(l.interval, k);
    if l.next + l.interval * k <= now {
      SlotsAfter(l.next, l.interval, k, now);
    } else if l.next <= now {
      var q := (now - l.next) / l.interval;
      assert now - l.next == l.interval * q + (now - l.next) % l.interval;
      if k <= q { Scales(l.interval, k, q); }
    }
  }

  /** A rate change leaves no burst: of the calls that arrive together with it, or before the
      new schedule goes on, at most one passes at once, whatever was left of the old schedule. */
  lemma NoBurstAfterSetRate(l: Limit, rate: real, k: nat, now: int)
    requires 0.0 < rate <= 1_000_000_000.0
    ensures ReserveSlot(ReserveTimes(ChangeInterval(l, IntervalOf(rate), now), k)).0 <= now
       <==> k == 0 && l.next <= now
  {
    IntervalPositiveIff(rate);
    var i := IntervalOf(rate);
    hide IntervalOf;
    RefundsMove(ChangeInterval(l, i, now), k);
    if k > 0 { Scales(i, 1, k); }
  }

  // ---------------------------------------------------------------- rate changes

  function ReserveTimes(l: Limit, k: nat): Limit {
    if k == 0 then l else ReserveSlot(ReserveTimes(l, k - 1)).1
  }

  function RefundTimes(l: Limit, k: nat): Limit {
    if k == 0 then l else RefundSlot(RefundTimes(l, k - 1))
  }

  lemma {:induction false} RefundsMove(l: Limit, k: nat)
    ensures RefundTimes(l, k) == Limit(l.next - k * l.interval, l.interval)
    ensures ReserveTimes(l, k) == Limit(l.next + k * l.interval, l.interval)
  {
    if k != 0 {
      RefundsMove(l, k - 1);
      assert k * l.interval == (k - 1) * l.interval + l.interval;
    }
  }

  /** A refund gives back the current interval, not the one reserved with. When the rate
      changes while k calls wait and j of them cancel, the schedule is off by j times the
      difference of the intervals: behind by that much after a slowdown, so that many calls
      pass at once later, and ahead after a speedup, so capacity is lost. Unless the change
      found the schedule in the past, it is what the calls still waiting need exactly when
      there was no cancellation or no change. */
  lemma RateChangeDrift(l: Limit, k: nat, j: nat, interval: int, now: int)
    requires j <= k
    ensures var after := RefundTimes(ChangeInterval(ReserveTimes(l, k), interval, now), j);
            && after.next == Max(l.next + k * l.interval, now) - j * interval
            && (now <= l.next + k * l.interval ==>
                  && after.next == l.next + (k - j) * l.interval + j * (l.interval - interval)
                  && (after.next == l.next + (k - j) * l.interval <==> j == 0 || interval == l.interval))
  {
    RefundsMove(l, k);
    RefundsMove(ChangeInterval(ReserveTimes(l, k), interval, now), j);
    Distributes(j, l.interval, interval);
    assert (k - j) * l.interval == k * l.interval - j * l.interval;
  }

  lemma {:induction false} Distributes(k: nat, x: int, y: int)
    ensures k * (x - y) == k * x - k * y
    ensures k > 0 && x < y ==> k * x < k * y
    ensures k > 0 && x > y ==> k * x > k * y
  {
    if k > 0 {
      Distributes(k - 1, x, y);
      assert k * x == (k - 1) * x + x && k * y == (k - 1) * y + y;
      assert k * (x - y) == (k - 1) * (x - y) + (x - y);
    }
  }
}

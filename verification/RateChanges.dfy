/** The limiter under changing rates (internal/ratelimit/limiter.go): SetRate may run between any
    waits, and a cancelled wait refunds the interval of the moment. */
module RateChanges {
  import opened Numbers
  import opened RateLimiter

  /** A reservation: its permit time, the interval that it moved the schedule by, and the time
      that its call read after it. A permit time not after that passes at once; the call blocks,
      and can be cancelled, only otherwise. */
  datatype Slot = Slot(permitTime: int, interval: int, seen: int)

  datatype Granted = Granted(slot: Slot, at: int)

  datatype State = State(limit: Limit, waiting: seq<Slot>, granted: seq<Granted>)

  datatype Change =
    | Wait(now: int)
    | Pass(i: nat, at: int)
    | GiveUp(i: nat)
    | SetInterval(interval: int, now: int)

  function Begin(now: int, interval: int): State { State(Limit(now, interval), [], []) }

  predicate Blocked(slot: Slot) { slot.permitTime > slot.seen }

  predicate Enabled(s: State, c: Change) {
    match c
    case Wait(_) => true
    case Pass(i, at) => i < |s.waiting| && s.waiting[i].permitTime <= at
    case GiveUp(i) => i < |s.waiting| && Blocked(s.waiting[i])
    case SetInterval(_, _) => true
  }

  function Drop(slots: seq<Slot>, i: nat): seq<Slot> requires i < |slots| { slots[..i] + slots[i + 1..] }

  function Next(s: State, c: Change): State {
    if !Enabled(s, c) then s else
    match c
    case Wait(now) =>
      var (t, l) := ReserveSlot(s.limit);
      s.(limit := l, waiting := s.waiting + [Slot(t, s.limit.interval, now)])
    case Pass(i, at) =>
      s.(waiting := Drop(s.waiting, i), granted := s.granted + [Granted(s.waiting[i], at)])
    case GiveUp(i) => s.(limit := RefundSlot(s.limit), waiting := Drop(s.waiting, i))
    case SetInterval(interval, now) => s.(limit := ChangeInterval(s.limit, interval, now))
  }

  function After(s: State, changes: seq<Change>): State
    decreases |changes|
  {
    if changes == [] then s else Next(After(s, changes[..|changes| - 1]), changes[|changes| - 1])
  }

  // ---------------------------------------------------------------- sums and counts

  function SlotsOf(granted: seq<Granted>): (r: seq<Slot>)
    ensures |r| == |granted|
  {
    if granted == [] then [] else SlotsOf(granted[..|granted| - 1]) + [granted[|granted| - 1].slot]
  }

  /** How far a reservation may still take the schedule back at most without being unfair: by its
      own interval if its call blocks. One that passes at once uses a slot of the least interval. */
  function Worth(slot: Slot, least: int): int { if Blocked(slot) then slot.interval else least }

  function Sum(slots: seq<Slot>, least: int): int {
    if slots == [] then 0 else Sum(slots[..|slots| - 1], least) + Worth(slots[|slots| - 1], least)
  }

  /** Reservations for times up to t. */
  function UpTo(slots: seq<Slot>, t: int): (n: nat)
    ensures n <= |slots|
  {
    if slots == [] then 0 else UpTo(slots[..|slots| - 1], t) + if slots[|slots| - 1].permitTime <= t then 1 else 0
  }

  /** The calls granted by time t. */
  function Passed(granted: seq<Granted>, t: int): nat {
    if granted == [] then 0 else Passed(granted[..|granted| - 1], t) + if granted[|granted| - 1].at <= t then 1 else 0
  }

  lemma {:induction false} Append(r: seq<Slot>, s: seq<Slot>, least: int, t: int)
    ensures Sum(r + s, least) == Sum(r, least) + Sum(s, least) && UpTo(r + s, t) == UpTo(r, t) + UpTo(s, t)
    decreases |s|
  {
    if s == [] {
      assert r + s == r;
    } else {
      Append(r, s[..|s| - 1], least, t);
      assert (r + s)[..|r + s| - 1] == r + s[..|s| - 1];
    }
  }

  lemma AppendOne(slots: seq<Slot>, x: Slot, least: int, t: int)
    ensures Sum(slots + [x], least) == Sum(slots, least) + Worth(x, least)
    ensures UpTo(slots + [x], t) == UpTo(slots, t) + if x.permitTime <= t then 1 else 0
  {
    assert (slots + [x])[..|slots|] == slots;
  }

  lemma Dropped(slots: seq<Slot>, i: nat, least: int, t: int)
    requires i < |slots|
    ensures Sum(slots, least) == Sum(Drop(slots, i), least) + Worth(slots[i], least)
    ensures UpTo(slots, t) == UpTo(Drop(slots, i), t) + if slots[i].permitTime <= t then 1 else 0
  {
    assert slots == (slots[..i] + [slots[i]]) + slots[i + 1..];
    AppendOne(slots[..i], slots[i], least, t);
    Append(slots[..i] + [slots[i]], slots[i + 1..], least, t);
    Append(slots[..i], slots[i + 1..], least, t);
    hide Sum, UpTo;
  }

  lemma {:induction false} SumAtLeast(slots: seq<Slot>, least: int)
    requires AllAtLeast(slots, least)
    ensures Sum(slots, least) >= least * |slots|
  {
    if slots != [] {
      SumAtLeast(slots[..|slots| - 1], least);
      NextProduct(least, |slots| - 1);
    }
  }

  lemma {:induction false} SumUnblocked(slots: seq<Slot>, least: int)
    requires forall i :: 0 <= i < |slots| ==> !Blocked(slots[i])
    ensures Sum(slots, least) == least * |slots|
  {
    if slots != [] {
      SumUnblocked(slots[..|slots| - 1], least);
      NextProduct(least, |slots| - 1);
    }
  }

  // ---------------------------------------------------------------- the slack

  function Holding(s: State, t: int): nat { UpTo(s.waiting, t) + UpTo(SlotsOf(s.granted), t) }

  ghost predicate AllAtLeast(slots: seq<Slot>, least: int) {
    forall i :: 0 <= i < |slots| ==> slots[i].interval >= least
  }

  ghost predicate Punctual(granted: seq<Granted>) {
    forall i :: 0 <= i < |granted| ==> granted[i].slot.permitTime <= granted[i].at
  }

  ghost predicate Within(start: int, least: int, s: State)
    requires least > 0
  {
    forall t :: Holding(s, t) <= Slots(start, least, t)
  }

  /** No interval is below the least one, and no stretch from the start holds more reservations
      than the schedule of the least interval has slots. */
  ghost predicate Sound(start: int, least: int, s: State)
    requires least > 0
  {
    && s.limit.interval >= least && AllAtLeast(s.waiting, least)
    && Punctual(s.granted) && Within(start, least, s)
  }

  /** How far the schedule will at least be ahead of the granted calls, one least interval for
      each, when every blocked call has given up and taken its own interval back. */
  function Slack(start: int, least: int, s: State): int {
    s.limit.next - Sum(s.waiting, least) - start - least * |s.granted|
  }

  /** No interval is set below the least one, and no refund exceeds its reservation: a call that
      reserved before a slowdown does not give up after it. */
  predicate Fair(s: State, c: Change, least: int) {
    match c
    case SetInterval(interval, _) => interval >= least
    case GiveUp(i) => Enabled(s, c) ==> s.limit.interval <= s.waiting[i].interval
    case _ => true
  }

  /** What a refund may exceed its reservation by: the slack. */
  ghost predicate Affordable(start: int, least: int, s: State, c: Change) {
    match c
    case GiveUp(i) => Enabled(s, c) ==> s.limit.interval - s.waiting[i].interval <= Slack(start, least, s)
    case _ => true
  }

  predicate NotBelow(c: Change, least: int) { c.SetInterval? ==> c.interval >= least }

  lemma WaitSound(start: int, least: int, s: State, now: int)
    requires least > 0 && Sound(start, least, s) && Slack(start, least, s) >= 0
    ensures Sound(start, least, Next(s, Wait(now))) && Slack(start, least, Next(s, Wait(now))) >= 0
  {
    var r, slot := Next(s, Wait(now)), Slot(s.limit.next, s.limit.interval, now);
    var k := |s.waiting| + |s.granted|;
    SumAtLeast(s.waiting, least);
    Distribute(least, |s.waiting|, |s.granted|);
    AppendOne(s.waiting, slot, least, 0);
    assert r.waiting == s.waiting + [slot] && r.granted == s.granted;
    hide Next, Sum, UpTo, SlotsOf, Slots;
    forall t ensures Holding(r, t) <= Slots(start, least, t) {
      AppendOne(s.waiting, slot, least, t);
      assert Holding(s, t) <= Slots(start, least, t);
      if s.limit.next <= t { SlotsAfter(start, least, k, t); }
    }
  }

  lemma Distribute(x: int, m: nat, n: nat)
    ensures x * m + x * n == x * (m + n)
  {
  }

  lemma PassSound(start: int, least: int, s: State, i: nat, at: int)
    requires least > 0 && Sound(start, least, s) && Enabled(s, Pass(i, at))
    ensures var r := Next(s, Pass(i, at));
            Sound(start, least, r) && Slack(start, least, r) >= Slack(start, least, s)
  {
    var r, x := Next(s, Pass(i, at)), s.waiting[i];
    assert r.granted == s.granted + [Granted(x, at)] && r.waiting == Drop(s.waiting, i) && r.limit == s.limit;
    assert r.granted[..|s.granted|] == s.granted;
    assert SlotsOf(r.granted) == SlotsOf(s.granted) + [x];
    hide Next, Sum, UpTo, SlotsOf, Slots;
    Dropped(s.waiting, i, least, 0);
    NextProduct(least, |s.granted|);
    forall t ensures Holding(r, t) <= Slots(start, least, t) {
      Dropped(s.waiting, i, least, t);
      AppendOne(SlotsOf(s.granted), x, least, t);
      assert Holding(s, t) <= Slots(start, least, t);
    }
  }

  lemma GiveUpSound(start: int, least: int, s: State, i: nat)
    requires least > 0 && Sound(start, least, s) && Enabled(s, GiveUp(i))
    ensures var r := Next(s, GiveUp(i));
            && Sound(start, least, r)
            && Slack(start, least, r) == Slack(start, least, s) + s.waiting[i].interval - s.limit.interval
  {
    var r := Next(s, GiveUp(i));
    assert r.granted == s.granted && r.waiting == Drop(s.waiting, i) && r.limit == RefundSlot(s.limit);
    hide Next, Sum, UpTo, SlotsOf, Slots;
    Dropped(s.waiting, i, least, 0);
    forall t ensures Holding(r, t) <= Slots(start, least, t) {
      Dropped(s.waiting, i, least, t);
      assert Holding(s, t) <= Slots(start, least, t);
    }
  }

  lemma SetIntervalSound(start: int, least: int, s: State, interval: int, now: int)
    requires least > 0 && Sound(start, least, s) && interval >= least
    ensures var r := Next(s, SetInterval(interval, now));
            Sound(start, least, r) && Slack(start, least, r) >= Slack(start, least, s)
  {
    hide Sum, UpTo, SlotsOf, Slots;
    assert forall t :: Holding(Next(s, SetInterval(interval, now)), t) == Holding(s, t);
  }

  /** Exactly which changes keep the slack: all but a refund that exceeds its reservation by more
      than it. */
  lemma SlackIffAffordable(start: int, least: int, s: State, c: Change)
    requires least > 0 && Sound(start, least, s) && Slack(start, least, s) >= 0 && NotBelow(c, least)
    ensures Sound(start, least, Next(s, c))
    ensures Slack(start, least, Next(s, c)) >= 0 <==> Affordable(start, least, s, c)
  {
    if !Enabled(s, c) { return; }
    hide Sound, Next, Slack;
    match c
    case Wait(now) => WaitSound(start, least, s, now);
    case Pass(i, at) => PassSound(start, least, s, i, at);
    case GiveUp(i) => GiveUpSound(start, least, s, i);
    case SetInterval(interval, now) => SetIntervalSound(start, least, s, interval, now);
  }

  // ---------------------------------------------------------------- enough slack is enough

  ghost predicate FairRun(s: State, changes: seq<Change>, least: int) {
    forall k :: 0 <= k < |changes| ==> Fair(After(s, changes[..k]), changes[k], least)
  }

  lemma FairPrefix(s: State, changes: seq<Change>, least: int)
    requires changes != [] && FairRun(s, changes, least)
    ensures FairRun(s, changes[..|changes| - 1], least)
    ensures Fair(After(s, changes[..|changes| - 1]), changes[|changes| - 1], least)
  {
    hide After, Fair;
    var init := changes[..|changes| - 1];
    forall k | 0 <= k < |init| ensures Fair(After(s, init[..k]), init[k], least) {
      assert init[..k] == changes[..k];
    }
  }

  lemma FairAffordable(start: int, least: int, s: State, c: Change)
    requires Fair(s, c, least) && Slack(start, least, s) >= 0
    ensures Affordable(start, least, s, c) && NotBelow(c, least)
  {
    hide Slack;
  }

  lemma {:induction false} FairKeepsSlack(start: int, least: int, s: State, changes: seq<Change>)
    requires least > 0 && Sound(start, least, s) && Slack(start, least, s) >= 0 && FairRun(s, changes, least)
    ensures Sound(start, least, After(s, changes)) && Slack(start, least, After(s, changes)) >= 0
    decreases |changes|
  {
    if changes != [] {
      hide Sound, Slack, Fair, Next, Affordable, NotBelow;
      var init, c := changes[..|changes| - 1], changes[|changes| - 1];
      FairPrefix(s, changes, least);
      FairKeepsSlack(start, least, s, init);
      FairAffordable(start, least, After(s, init), c);
      SlackIffAffordable(start, least, After(s, init), c);
    }
  }

  lemma {:induction false} PassedHeld(granted: seq<Granted>, t: int)
    requires Punctual(granted)
    ensures Passed(granted, t) <= UpTo(SlotsOf(granted), t)
  {
    if granted != [] {
      PassedHeld(granted[..|granted| - 1], t);
    }
  }

  lemma SoundBound(start: int, least: int, s: State, t: int)
    requires least > 0 && Sound(start, least, s)
    ensures Passed(s.granted, t) <= Slots(start, least, t)
  {
    hide Passed, UpTo, SlotsOf, Slots;
    PassedHeld(s.granted, t);
    assert Holding(s, t) <= Slots(start, least, t);
  }

  // ---------------------------------------------------------------- too little is too little

  /** A continuation that breaks the bound. */
  ghost predicate Breaks(start: int, least: int, s: State, more: seq<Change>, t: int)
    requires least > 0
  {
    FairRun(s, more, least) && Passed(After(s, more).granted, t) > Slots(start, least, t)
  }

  lemma {:induction false} AfterFirst(s: State, c: Change, more: seq<Change>)
    ensures After(s, [c] + more) == After(Next(s, c), more)
    decreases |more|
  {
    var all := [c] + more;
    if more == [] {
      assert all == [c] && all[..0] == [];
    } else {
      AfterFirst(s, c, more[..|more| - 1]);
      assert all[..|all| - 1] == [c] + more[..|more| - 1];
    }
  }

  /** A fair change in front of a continuation. */
  lemma FairFirst(s: State, c: Change, more: seq<Change>, least: int)
    requires Fair(s, c, least) && FairRun(Next(s, c), more, least)
    ensures FairRun(s, [c] + more, least) && After(s, [c] + more) == After(Next(s, c), more)
  {
    hide Next, Fair;
    var all := [c] + more;
    forall k | 0 <= k < |all| ensures Fair(After(s, all[..k]), all[k], least) {
      if k == 0 {
        assert all[..0] == [];
      } else {
        assert all[..k] == [c] + more[..k - 1] && all[k] == more[k - 1];
        AfterFirst(s, c, more[..k - 1]);
      }
    }
    AfterFirst(s, c, more);
  }

  lemma BreaksFirst(start: int, least: int, s: State, c: Change, more: seq<Change>, t: int)
    requires least > 0 && Fair(s, c, least) && Breaks(start, least, Next(s, c), more, t)
    ensures Breaks(start, least, s, [c] + more, t)
  {
    hide Next, Fair, After, Passed, Slots, FairRun;
    FairFirst(s, c, more, least);
  }

  ghost predicate AllBy(s: State, t: int) {
    && (forall i :: 0 <= i < |s.waiting| ==> s.waiting[i].permitTime <= t)
    && (forall i :: 0 <= i < |s.granted| ==> s.granted[i].at <= t)
  }

  lemma {:induction false} AllPassed(granted: seq<Granted>, t: int)
    requires forall i :: 0 <= i < |granted| ==> granted[i].at <= t
    ensures Passed(granted, t) == |granted|
  {
    if granted != [] { AllPassed(granted[..|granted| - 1], t); }
  }

  /** Everybody passes. */
  lemma {:induction false} LetPass(s: State, least: int, t: int) returns (more: seq<Change>)
    requires AllBy(s, t)
    ensures FairRun(s, more, least) && Passed(After(s, more).granted, t) == |s.waiting| + |s.granted|
    decreases |s.waiting|
  {
    if s.waiting == [] {
      more := [];
      AllPassed(s.granted, t);
    } else {
      var c := Pass(0, t);
      var rest := LetPass(Next(s, c), least, t);
      FairFirst(s, c, rest, least);
      more := [c] + rest;
    }
  }

  /** More calls arrive, n of them, and then everybody passes. */
  lemma {:induction false} LetArrive(s: State, least: int, t: int, n: nat) returns (more: seq<Change>)
    requires AllBy(s, t) && least > 0 && s.limit.interval == least && s.limit.next + least * (n - 1) <= t
    ensures FairRun(s, more, least) && Passed(After(s, more).granted, t) == |s.waiting| + n + |s.granted|
    decreases n
  {
    if n == 0 {
      more := LetPass(s, least, t);
    } else {
      var c := Wait(t);
      NextProduct(least, n - 2);
      Scales(least, 0, n - 1);
      var rest := LetArrive(Next(s, c), least, t, n - 1);
      FairFirst(s, c, rest, least);
      more := [c] + rest;
    }
  }

  /** A time by which all reservations are due, and all grants past. */
  lemma {:induction false} Latest(waiting: seq<Slot>, granted: seq<Granted>) returns (t: int)
    ensures forall i :: 0 <= i < |waiting| ==> waiting[i].permitTime <= t
    ensures forall i :: 0 <= i < |granted| ==> granted[i].at <= t
    decreases |waiting| + |granted|
  {
    if waiting != [] {
      var u := Latest(waiting[..|waiting| - 1], granted);
      t := Max(u, waiting[|waiting| - 1].permitTime);
    } else if granted != [] {
      var u := Latest(waiting, granted[..|granted| - 1]);
      t := Max(u, granted[|granted| - 1].at);
    } else {
      t := 0;
    }
  }

  /** A schedule that is behind by less than k least intervals has at most n + k slots up to its
      n-th next one. */
  lemma FewSlots(start: int, least: int, next: int, k: nat, n: nat)
    requires least > 0 && next < start + least * k
    ensures Slots(start, least, next + least * n) < k + n + 1
  {
    var t := next + least * n;
    if t >= start {
      var q := (t - start) / least;
      assert t - start == least * q + (t - start) % least;
      Distribute(least, k, n);
      if q >= k + n { Scales(least, k + n, q); }
    }
  }

  /** Without a blocked call the schedule is the least interval's from now on. */
  lemma IdleBreaks(start: int, least: int, s: State) returns (more: seq<Change>, t: int)
    requires least > 0 && Slack(start, least, s) < 0
    requires forall i :: 0 <= i < |s.waiting| ==> !Blocked(s.waiting[i])
    ensures Breaks(start, least, s, more, t)
  {
    var c, k := SetInterval(least, s.limit.next), |s.waiting| + |s.granted|;
    var r := Next(s, c);
    SumUnblocked(s.waiting, least);
    Distribute(least, |s.waiting|, |s.granted|);
    var late := Latest(s.waiting, s.granted);
    var n: nat := Max(0, late - s.limit.next);
    t := s.limit.next + least * n;
    if n > 0 { Scales(n, 1, least); }
    FewSlots(start, least, s.limit.next, k, n);
    var rest := LetArrive(r, least, t, n + 1);
    hide Slots, Slack;
    BreaksFirst(start, least, s, c, rest, t);
    more := [c] + rest;
  }

  /** Every blocked call first gives up, for its own interval. */
  lemma {:induction false} ShortBreaks(start: int, least: int, s: State) returns (more: seq<Change>, t: int)
    requires least > 0 && Sound(start, least, s) && Slack(start, least, s) < 0
    ensures Breaks(start, least, s, more, t)
    decreases |s.waiting|
  {
    if i :| 0 <= i < |s.waiting| && Blocked(s.waiting[i]) {
      var c, d := SetInterval(s.waiting[i].interval, s.limit.next), GiveUp(i);
      var r := Next(s, c);
      SetIntervalSound(start, least, s, c.interval, c.now);
      assert r == s.(limit := Limit(s.limit.next, s.waiting[i].interval));
      assert Slack(start, least, r) == Slack(start, least, s);
      GiveUpSound(start, least, r, i);
      assert |Next(r, d).waiting| < |s.waiting|;
      hide Sound, Slack, Breaks;
      var rest, u := ShortBreaks(start, least, Next(r, d));
      BreaksFirst(start, least, r, d, rest, u);
      BreaksFirst(start, least, s, c, [d] + rest, u);
      more, t := [c] + ([d] + rest), u;
    } else {
      more, t := IdleBreaks(start, least, s);
    }
  }

  // ---------------------------------------------------------------- results

  /** Every fair continuation keeps the rate bound. */
  ghost predicate Robust(start: int, least: int, s: State)
    requires least > 0
  {
    forall more, t :: FairRun(s, more, least) ==> Passed(After(s, more).granted, t) <= Slots(start, least, t)
  }

  /** Exactly when the rate bound is safe from here on: if and only if the slack is not negative. */
  lemma RobustIff(start: int, least: int, s: State)
    requires least > 0 && Sound(start, least, s)
    ensures Robust(start, least, s) <==> Slack(start, least, s) >= 0
  {
    hide Sound, Slack, Slots, Passed, After;
    if Slack(start, least, s) >= 0 {
      forall more, t | FairRun(s, more, least) ensures Passed(After(s, more).granted, t) <= Slots(start, least, t) {
        FairKeepsSlack(start, least, s, more);
        SoundBound(start, least, After(s, more), t);
      }
    } else {
      var more, t := ShortBreaks(start, least, s);
      assert FairRun(s, more, least) && Passed(After(s, more).granted, t) > Slots(start, least, t);
    }
  }

  /** What one cancellation does to it: the bound stays safe if and only if the refund exceeds
      its reservation by no more than the slack. */
  lemma GiveUpRobustIff(start: int, least: int, s: State, i: nat)
    requires least > 0 && Sound(start, least, s) && Enabled(s, GiveUp(i))
    ensures Robust(start, least, Next(s, GiveUp(i)))
       <==> s.limit.interval - s.waiting[i].interval <= Slack(start, least, s)
  {
    hide Sound, Slack, Robust, Next;
    GiveUpSound(start, least, s, i);
    RobustIff(start, least, Next(s, GiveUp(i)));
  }

  lemma BeginSound(start: int, least: int, interval: int)
    requires 0 < least <= interval
    ensures Sound(start, least, Begin(start, interval)) && Slack(start, least, Begin(start, interval)) == 0
  {
    assert least * 0 == 0;
  }

  /** The run with its first k changes done. */
  function At(start: int, interval: int, changes: seq<Change>, k: nat): State
    requires k <= |changes|
  {
    After(Begin(start, interval), changes[..k])
  }

  lemma AtNext(start: int, interval: int, changes: seq<Change>, k: nat)
    requires k < |changes|
    ensures At(start, interval, changes, k + 1) == Next(At(start, interval, changes, k), changes[k])
  {
    hide Next, Begin;
    assert changes[..k + 1][..k] == changes[..k];
  }

  ghost predicate AffordableUpTo(start: int, least: int, interval: int, changes: seq<Change>, k: nat)
    requires k <= |changes|
  {
    forall j :: 0 <= j < k ==> Affordable(start, least, At(start, interval, changes, j), changes[j])
  }

  lemma {:induction false} AffordableKeepsSlack(start: int, least: int, interval: int, changes: seq<Change>, k: nat)
    requires 0 < least <= interval && k <= |changes| && forall c :: c in changes ==> NotBelow(c, least)
    requires AffordableUpTo(start, least, interval, changes, k)
    ensures Sound(start, least, At(start, interval, changes, k))
    ensures Slack(start, least, At(start, interval, changes, k)) >= 0
  {
    if k == 0 {
      BeginSound(start, least, interval);
      assert changes[..0] == [];
      hide Sound, Slack, Begin;
    } else {
      hide Sound, Slack, At, Affordable, NotBelow;
      AffordableKeepsSlack(start, least, interval, changes, k - 1);
      AtNext(start, interval, changes, k - 1);
      assert changes[k - 1] in changes;
      SlackIffAffordable(start, least, At(start, interval, changes, k - 1), changes[k - 1]);
    }
  }

  /** The rate bound under any rate changes: as long as no refund exceeds its reservation by more
      than the slack, no more calls pass by time t than the schedule of the least interval has
      slots. At a constant rate no refund exceeds its reservation, and this is the bound of that
      rate. */
  lemma RateBoundUnderChanges(start: int, least: int, interval: int, changes: seq<Change>, t: int)
    requires 0 < least <= interval && forall c :: c in changes ==> NotBelow(c, least)
    requires AffordableUpTo(start, least, interval, changes, |changes|)
    ensures Passed(After(Begin(start, interval), changes).granted, t) <= Slots(start, least, t)
  {
    assert changes[..|changes|] == changes;
    assert At(start, interval, changes, |changes|) == After(Begin(start, interval), changes);
    hide After, Begin, Passed, Slots, Sound, Slack, At, AffordableUpTo, NotBelow;
    AffordableKeepsSlack(start, least, interval, changes, |changes|);
    SoundBound(start, least, At(start, interval, changes, |changes|), t);
  }

  /** Exactly when: the bound stays safe at every point of a run if and only if each of its
      cancellations is affordable when it comes. */
  lemma RunRobustIff(start: int, least: int, interval: int, changes: seq<Change>)
    requires 0 < least <= interval && forall c :: c in changes ==> NotBelow(c, least)
    ensures (forall k :: 0 <= k <= |changes| ==> Robust(start, least, At(start, interval, changes, k)))
       <==> AffordableUpTo(start, least, interval, changes, |changes|)
  {
    hide Sound, Slack, At, Affordable, NotBelow, Robust;
    if AffordableUpTo(start, least, interval, changes, |changes|) {
      forall k | 0 <= k <= |changes| ensures Robust(start, least, At(start, interval, changes, k)) {
        AffordableKeepsSlack(start, least, interval, changes, k);
        RobustIff(start, least, At(start, interval, changes, k));
      }
    }
    if forall k :: 0 <= k <= |changes| ==> Robust(start, least, At(start, interval, changes, k)) {
      RobustAffordable(start, least, interval, changes, |changes|);
    }
  }

  lemma {:induction false} RobustAffordable(start: int, least: int, interval: int, changes: seq<Change>, k: nat)
    requires 0 < least <= interval && k <= |changes| && forall c :: c in changes ==> NotBelow(c, least)
    requires forall j :: 0 <= j <= |changes| ==> Robust(start, least, At(start, interval, changes, j))
    ensures AffordableUpTo(start, least, interval, changes, k)
  {
    hide Sound, Slack, At, Affordable, NotBelow, Robust;
    if k > 0 {
      var s := At(start, interval, changes, k - 1);
      RobustAffordable(start, least, interval, changes, k - 1);
      AffordableKeepsSlack(start, least, interval, changes, k - 1);
      AtNext(start, interval, changes, k - 1);
      assert changes[k - 1] in changes;
      SlackIffAffordable(start, least, s, changes[k - 1]);
      RobustIff(start, least, At(start, interval, changes, k));
      assert Robust(start, least, At(start, interval, changes, k));
    }
  }

  // ---------------------------------------------------------------- a slowdown

  lemma AfterOne(s: State, changes: seq<Change>, c: Change)
    ensures After(s, changes + [c]) == Next(After(s, changes), c)
  {
    hide Next;
    assert (changes + [c])[..|changes|] == changes;
  }

  lemma AfterTriple(s: State, changes: seq<Change>, c: Change, d: Change, e: Change)
    ensures After(s, changes + [c, d, e]) == Next(Next(Next(After(s, changes), c), d), e)
  {
    hide Next, After;
    AfterOne(s, changes, c);
    AfterOne(s, changes + [c], d);
    AfterOne(s, changes + [c] + [d], e);
    assert changes + [c] + [d] + [e] == changes + [c, d, e];
  }

  /** A run that breaks the bound, all at one moment: the first call passes at once, two more
      reserve at one per nanosecond and block, the rate slows down to one in three, and both give
      up. Their refunds let the next call pass at once as well: two calls where the fastest
      schedule of the run has one slot. */
  lemma SlowdownBreaksBound(start: int)
    ensures var changes := [] + [Wait(start), Pass(0, start), Wait(start)]
                           + [Wait(start), SetInterval(3, start), GiveUp(0)]
                           + [GiveUp(0), Wait(start), Pass(0, start)];
            Passed(After(Begin(start, 1), changes).granted, start) == 2 && Slots(start, 1, start) == 1
  {
    var a := [] + [Wait(start), Pass(0, start), Wait(start)];
    var b := a + [Wait(start), SetInterval(3, start), GiveUp(0)];
    AfterTriple(Begin(start, 1), [], Wait(start), Pass(0, start), Wait(start));
    AfterTriple(Begin(start, 1), a, Wait(start), SetInterval(3, start), GiveUp(0));
    AfterTriple(Begin(start, 1), b, GiveUp(0), Wait(start), Pass(0, start));
    var x, y := Granted(Slot(start, 1, start), start), Granted(Slot(start - 3, 3, start), start);
    assert After(Begin(start, 1), []) == Begin(start, 1) && Slots(start, 1, start) == 1;
    OnePasses(start);
    OneGivesUp(start);
    NextPasses(start);
    hide After, Next, Begin;
    assert After(Begin(start, 1), a) == State(Limit(start + 2, 1), [Slot(start + 1, 1, start)], [x]);
    assert After(Begin(start, 1), b) == State(Limit(start, 3), [Slot(start + 2, 1, start)], [x]);
    PassedTwo(x, y, start);
    assert Slots(start, 1, start) == 1;
    var d := [] + [Wait(start), Pass(0, start), Wait(start)]
             + [Wait(start), SetInterval(3, start), GiveUp(0)] + [GiveUp(0), Wait(start), Pass(0, start)];
    assert d == b + [GiveUp(0), Wait(start), Pass(0, start)];
    assert Passed(After(Begin(start, 1), d).granted, start) == 2;
  }

  lemma OnePasses(start: int)
    ensures Next(Next(Next(Begin(start, 1), Wait(start)), Pass(0, start)), Wait(start))
         == State(Limit(start + 2, 1), [Slot(start + 1, 1, start)], [Granted(Slot(start, 1, start), start)])
  {
    var s := Next(Begin(start, 1), Wait(start));
    assert s == State(Limit(start + 1, 1), [Slot(start, 1, start)], []);
    assert Next(s, Pass(0, start)) == State(Limit(start + 1, 1), [], [Granted(Slot(start, 1, start), start)]);
  }

  lemma OneGivesUp(start: int)
    ensures var x := Granted(Slot(start, 1, start), start);
            var s := State(Limit(start + 2, 1), [Slot(start + 1, 1, start)], [x]);
            Next(Next(Next(s, Wait(start)), SetInterval(3, start)), GiveUp(0))
            == State(Limit(start, 3), [Slot(start + 2, 1, start)], [x])
  {
    var x := Granted(Slot(start, 1, start), start);
    var s := Next(State(Limit(start + 2, 1), [Slot(start + 1, 1, start)], [x]), Wait(start));
    assert s.waiting == [Slot(start + 1, 1, start), Slot(start + 2, 1, start)];
  }

  lemma NextPasses(start: int)
    ensures var x := Granted(Slot(start, 1, start), start);
            var s := State(Limit(start, 3), [Slot(start + 2, 1, start)], [x]);
            Next(Next(Next(s, GiveUp(0)), Wait(start)), Pass(0, start)).granted
            == [x, Granted(Slot(start - 3, 3, start), start)]
  {
    var x := Granted(Slot(start, 1, start), start);
    var s := Next(State(Limit(start, 3), [Slot(start + 2, 1, start)], [x]), GiveUp(0));
    assert s == State(Limit(start - 3, 3), [], [x]);
    assert Next(s, Wait(start)).waiting == [Slot(start - 3, 3, start)];
  }

  lemma PassedTwo(x: Granted, y: Granted, t: int)
    requires x.at <= t && y.at <= t
    ensures Passed([x, y], t) == 2
  {
    assert [x, y][..1] == [x] && [x][..0] == [];
    assert Passed([x], t) == 1;
  }
}

/** The rolling five-second windows behind the live MGas/s and TX/s charts
    (internal/loadgen/blockmetrics.go).  Times are integer nanoseconds, rates are reals. */
module RollingWindow {
  import opened Numbers

  const SECOND: int := 1_000_000_000
  const WINDOW: int := 5 * SECOND
  const MIN_DURATION: int := SECOND / 5
  const MIN_BLOCKS: nat := 3

  /** What a rate is divided by: a million for gas, one for transactions. */
  type Scale = s: real | s > 0.0 witness 1.0

  /** A block's gas, or its transaction count, and when it was seen. */
  datatype Point = Point(timestamp: int, amount: nat)

  /** The test's context as a query finds it. */
  datatype Context = NoTest | Running | Ended

  // ---------------------------------------------------------------- reference definitions

  /** The points later than the cutoff. */
  function After(points: seq<Point>, cutoff: int): seq<Point> {
    if points == [] then []
    else
      var last := points[|points| - 1];
      var rest := After(points[..|points| - 1], cutoff);
      if last.timestamp > cutoff then rest + [last] else rest
  }

  function Total(points: seq<Point>): nat {
    if points == [] then 0 else Total(points[..|points| - 1]) + points[|points| - 1].amount
  }

  function Oldest(points: seq<Point>): int
    requires points != []
  {
    var last := points[|points| - 1];
    if |points| == 1 then last.timestamp
    else
      var t := Oldest(points[..|points| - 1]);
      if last.timestamp < t then last.timestamp else t
  }

  lemma {:induction false} OldestIsLeast(points: seq<Point>)
    requires points != []
    ensures exists p :: p in points && p.timestamp == Oldest(points)
    ensures forall p :: p in points ==> Oldest(points) <= p.timestamp
  {
    if |points| > 1 {
      var rest := points[..|points| - 1];
      OldestIsLeast(rest);
      assert points == rest + [points[|points| - 1]];
    }
    assert points[|points| - 1] in points;
  }

  lemma {:induction false} AfterIsLater(points: seq<Point>, cutoff: int)
    ensures |After(points, cutoff)| <= |points|
    ensures forall p :: p in After(points, cutoff) ==> p in points && p.timestamp > cutoff
  {
    if points != [] {
      var rest := points[..|points| - 1];
      AfterIsLater(rest, cutoff);
      assert points == rest + [points[|points| - 1]];
    }
  }

  lemma {:induction false} AfterConcat(points: seq<Point>, more: seq<Point>, cutoff: int)
    ensures After(points + more, cutoff) == After(points, cutoff) + After(more, cutoff)
    decreases |more|
  {
    if more == [] {
      assert points + more == points;
    } else {
      var init, p := more[..|more| - 1], more[|more| - 1];
      AfterConcat(points, init, cutoff);
      assert points + more == points + init + [p];
      AfterAppend(points + init, p, cutoff);
    }
  }

  lemma AfterOne(p: Point, cutoff: int)
    ensures After([p], cutoff) == if p.timestamp > cutoff then [p] else []
  {
    AfterAppend([], p, cutoff);
    assert [] + [p] == [p];
  }

  /** Filtering looks at each point by itself: it keeps exactly the later ones, as often as they
      occur, and in their order. */
  lemma AfterExactly(before: seq<Point>, p: Point, after: seq<Point>, cutoff: int)
    ensures After(before + [p] + after, cutoff)
         == After(before, cutoff) + (if p.timestamp > cutoff then [p] else []) + After(after, cutoff)
  {
    AfterConcat(before + [p], after, cutoff);
    AfterConcat(before, [p], cutoff);
    AfterOne(p, cutoff);
    hide After;
  }

  function Clamp(d: int): int {
    if d < MIN_DURATION then MIN_DURATION else if d > WINDOW then WINDOW else d
  }

  lemma SumsAppend(points: seq<Point>, p: Point)
    ensures Total(points + [p]) == Total(points) + p.amount
    ensures Oldest(points + [p]) == if points == [] || p.timestamp < Oldest(points) then p.timestamp else Oldest(points)
  {
    assert (points + [p])[..|points|] == points;
  }

  function PerSecond(total: nat, duration: int, scale: Scale): real
    requires duration > 0
  {
    total as real / scale / (duration as real / SECOND as real)
  }

  lemma {:induction false} TotalAdds(points: seq<Point>, more: seq<Point>)
    ensures Total(points + more) == Total(points) + Total(more)
    ensures forall p: Point :: Total([p]) == p.amount
    decreases |more|
  {
    if more == [] {
      assert points + more == points;
    } else {
      TotalAdds(points, more[..|more| - 1]);
      assert (points + more)[..|points + more| - 1] == points + more[..|more| - 1];
    }
  }

  /** The rate, scaled up again, gives the total over so many nanoseconds. */
  predicate IsRate(rate: real, total: nat, duration: int, scale: Scale) {
    rate * scale * duration as real == total as real * 1_000_000_000.0
  }

  lemma PerSecondIs(total: nat, duration: int, scale: Scale)
    requires duration > 0
    ensures IsRate(PerSecond(total, duration, scale), total, duration, scale)
  {
    var x, d := total as real / scale, duration as real / SECOND as real;
    assert x * scale == total as real && d * 1_000_000_000.0 == duration as real;
    var rate := x / d;
    assert rate * d == x;
    assert rate * scale * (d * 1_000_000_000.0) == (rate * d) * scale * 1_000_000_000.0;
  }

  datatype Answer = Answer(rate: real, remembered: real)

  /** The rate over all points seen so far, filtered by the cutoff of this query: what the
      pruned window is to compute. */
  function RateOver(history: seq<Point>, now: int, scale: Scale, remembered: real): Answer
  {
    var kept := After(history, now - WINDOW);
    if Total(kept) == 0 then Answer(0.0, remembered)
    else
      var duration := Clamp(now - Oldest(kept));
      if |kept| < MIN_BLOCKS && duration < SECOND then Answer(0.0, 0.0)
      else
        var rate := PerSecond(Total(kept), duration, scale);
        Answer(rate, rate)
  }

  /** Half-way through the compaction: the first i points are filtered to the front, and the
      rest is untouched. */
  ghost predicate Compacted(w: seq<Point>, all: seq<Point>, i: nat, kept: seq<Point>, cutoff: int) {
    && |kept| <= i <= |all| == |w|
    && kept == After(all[..i], cutoff)
    && w[..|kept|] == kept
    && w[i..] == all[i..]
  }

  lemma CompactedStart(w: seq<Point>, cutoff: int)
    ensures Compacted(w, w, 0, [], cutoff) && Total([]) == 0
  {
    assert w[..0] == [];
  }

  lemma CompactedEnd(w: seq<Point>, all: seq<Point>, kept: seq<Point>, cutoff: int)
    requires Compacted(w, all, |all|, kept, cutoff)
    ensures kept == After(all, cutoff) && |kept| <= |w| && w[..|kept|] == kept
  {
    assert all[..|all|] == all;
  }

  lemma CompactedNext(w: seq<Point>, all: seq<Point>, i: nat, kept: seq<Point>, cutoff: int)
    requires i < |all| && Compacted(w, all, i, kept, cutoff)
    ensures w[i].timestamp <= cutoff ==> Compacted(w, all, i + 1, kept, cutoff)
    ensures w[i].timestamp > cutoff ==> Compacted(w[|kept| := w[i]], all, i + 1, kept + [w[i]], cutoff)
    ensures |kept| == i ==> w[|kept| := w[i]] == w
  {
    hide After;
    assert w[i] == w[i..][0] == all[i..][0] == all[i];
    assert all[..i + 1] == all[..i] + [all[i]];
    AfterAppend(all[..i], all[i], cutoff);
    assert w[i + 1..] == w[i..][1..] == all[i..][1..] == all[i + 1..];
    StoreNext(w, |kept|, i, w[i]);
  }

  /** Storing at n, at or before i, extends the prefix and leaves what is behind i. */
  lemma StoreNext(w: seq<Point>, n: nat, i: nat, p: Point)
    requires n <= i < |w|
    ensures w[n := p][..n + 1] == w[..n] + [p] && w[n := p][i + 1..] == w[i + 1..]
    ensures n == i && p == w[i] ==> w[n := p] == w
  {
  }

  // ---------------------------------------------------------------- the window object

  datatype Window = Window(points: seq<Point>, remembered: real)

  /** One query: the answer and the window it leaves, pruned. */
  function Query(w: Window, ctx: Context, now: int, scale: Scale): (real, Window)
  {
    match ctx
    case NoTest => (0.0, w)
    case Ended => (w.remembered, w)
    case Running =>
      var a := RateOver(w.points, now, scale, w.remembered);
      (a.rate, Window(After(w.points, now - WINDOW), a.remembered))
  }

  class Rolling {
    var window: seq<Point>
    var last: real
    const scale: Scale

    function State(): Window reads this { Window(window, last) }

    constructor (scale: Scale)
      ensures State() == Window([], 0.0) && this.scale == scale
    {
      window, last, this.scale := [], 0.0, scale;
    }

    method Append(p: Point)
      modifies this
      ensures State() == Window(old(window) + [p], old(last))
    {
      window := window + [p];
    }

    /** Compacts the window in place and sums it up on the way. */
    method Prune(cutoff: int) returns (validIdx: nat, total: nat, oldest: int)
      modifies this
      ensures last == old(last)
      ensures window == After(old(window), cutoff)
      ensures validIdx == |window| && total == Total(window)
      ensures validIdx > 0 ==> oldest == Oldest(window)
    {
      hide After, Total, Oldest, Compacted;
      validIdx, total, oldest := 0, 0, 0;
      ghost var all := window;
      ghost var kept: seq<Point> := [];
      CompactedStart(window, cutoff);
      for i := 0 to |window|
        invariant last == old(last) && |window| == |all|
        invariant Compacted(window, all, i, kept, cutoff) && validIdx == |kept| <= i
        invariant total == Total(kept) && (kept != [] ==> oldest == Oldest(kept))
      {
        var p := window[i];
        CompactedNext(window, all, i, kept, cutoff);
        if p.timestamp > cutoff {
          if validIdx != i {
            window := window[validIdx := p];
          }
          if validIdx == 0 || p.timestamp < oldest {
            oldest := p.timestamp;
          }
          validIdx := validIdx + 1;
          total := total + p.amount;
          SumsAppend(kept, p);
          kept := kept + [p];
        }
      }
      CompactedEnd(window, all, kept, cutoff);
      window := window[..validIdx];
    }

    method Rate(ctx: Context, now: int) returns (rate: real)
      modifies this
      ensures (rate, State()) == Query(old(State()), ctx, now, scale)
    {
      if ctx.NoTest? { return 0.0; }
      if ctx.Ended? { return last; }
      if |window| == 0 {
        assert After(window, now - WINDOW) == [];
        return 0.0;
      }
      ghost var kept := After(window, now - WINDOW);
      var validIdx, total, oldest := Prune(now - WINDOW);
      if total == 0 || validIdx == 0 { return 0.0; }
      var duration := now - oldest;
      if duration < MIN_DURATION { duration := MIN_DURATION; }
      if duration > WINDOW { duration := WINDOW; }
      assert duration == Clamp(now - Oldest(kept));
      if validIdx < MIN_BLOCKS && duration < SECOND {
        last := 0.0;
        return 0.0;
      }
      rate := PerSecond(total, duration, scale);
      last := rate;
    }
  }

  // ---------------------------------------------------------------- runs

  datatype Event = AppendEvent(p: Point) | QueryEvent(ctx: Context, now: int)

  function Run(events: seq<Event>, scale: Scale): Window
    decreases |events|
  {
    if events == [] then Window([], 0.0)
    else
      var w := Run(events[..|events| - 1], scale);
      match events[|events| - 1]
      case AppendEvent(p) => w.(points := w.points + [p])
      case QueryEvent(ctx, now) => Query(w, ctx, now, scale).1
  }

  /** Everything ever appended. */
  function History(events: seq<Event>): seq<Point> {
    if events == [] then []
    else History(events[..|events| - 1]) + match events[|events| - 1]
                                            case AppendEvent(p) => [p]
                                            case QueryEvent(_, _) => []
  }

  /** What the rate getters remember when they always filter the whole history. */
  function Remembered(events: seq<Event>, scale: Scale): real
    decreases |events|
  {
    if events == [] then 0.0
    else
      var init := events[..|events| - 1];
      match events[|events| - 1]
      case AppendEvent(_) => Remembered(init, scale)
      case QueryEvent(ctx, now) =>
        if ctx.Running? then RateOver(History(init), now, scale, Remembered(init, scale)).remembered
        else Remembered(init, scale)
  }

  /** The clock of the queries never goes back; the points may carry any timestamps. */
  ghost predicate ClockAdvances(events: seq<Event>) {
    forall i, j :: 0 <= i < j < |events| && events[i].QueryEvent? && events[j].QueryEvent? ==>
      events[i].now <= events[j].now
  }

  ghost predicate NotAfter(events: seq<Event>, now: int) {
    forall i :: 0 <= i < |events| && events[i].QueryEvent? ==> events[i].now <= now
  }

  lemma {:induction false} AfterAfter(points: seq<Point>, c: int, d: int)
    requires c <= d
    ensures After(After(points, c), d) == After(points, d)
  {
    if points != [] {
      var init, p := points[..|points| - 1], points[|points| - 1];
      AfterAfter(init, c, d);
      if p.timestamp > c { AfterAppend(After(init, c), p, d); }
    }
  }

  lemma AfterAppend(points: seq<Point>, p: Point, c: int)
    ensures After(points + [p], c) == if p.timestamp > c then After(points, c) + [p] else After(points, c)
  {
    assert (points + [p])[..|points|] == points;
  }

  /** A pruned window and the whole history agree on every cutoff that can still come. */
  lemma {:induction false} WindowAgrees(events: seq<Event>, scale: Scale, now: int, cutoff: int)
    requires ClockAdvances(events) && NotAfter(events, now) && now - WINDOW <= cutoff
    ensures After(Run(events, scale).points, cutoff) == After(History(events), cutoff)
    decreases |events|
  {
    hide Run, History, After;
    if events == [] {
      NothingYet(scale);
    } else {
      var init, e := events[..|events| - 1], events[|events| - 1];
      WindowAgrees(init, scale, now, cutoff);
      LastEvent(events, scale);
      match e
      case AppendEvent(p) =>
        AfterAppend(Run(init, scale).points, p, cutoff);
        AfterAppend(History(init), p, cutoff);
      case QueryEvent(ctx, then_) =>
        if ctx.Running? {
          AfterAfter(Run(init, scale).points, then_ - WINDOW, cutoff);
        }
    }
  }

  lemma NothingYet(scale: Scale)
    ensures Run([], scale).points == [] && History([]) == []
  {
  }

  /** What the last event does to the window and to the history. */
  lemma LastEvent(events: seq<Event>, scale: Scale)
    requires events != []
    ensures var init, e := events[..|events| - 1], events[|events| - 1];
            var w, h := Run(init, scale).points, History(init);
            && Run(events, scale).points == (if e.AppendEvent? then w + [e.p]
                                             else if e.ctx.Running? then After(w, e.now - WINDOW) else w)
            && History(events) == (if e.AppendEvent? then h + [e.p] else h)
  {
    hide RateOver, After;
  }

  lemma SameFilterSameRate(points: seq<Point>, history: seq<Point>, now: int, scale: Scale, remembered: real)
    requires After(points, now - WINDOW) == After(history, now - WINDOW)
    ensures RateOver(points, now, scale, remembered) == RateOver(history, now, scale, remembered)
  {
    hide PerSecond, After, Total, Oldest, Clamp;
  }

  lemma {:induction false} RememberedAgrees(events: seq<Event>, scale: Scale)
    requires ClockAdvances(events)
    ensures Run(events, scale).remembered == Remembered(events, scale)
    decreases |events|
  {
    if events != [] {
      var init, e := events[..|events| - 1], events[|events| - 1];
      RememberedAgrees(init, scale);
      if e.QueryEvent? && e.ctx.Running? {
        WindowAgrees(init, scale, e.now, e.now - WINDOW);
        SameFilterSameRate(Run(init, scale).points, History(init), e.now, scale, Remembered(init, scale));
      }
    }
  }

  /** Pruning loses nothing: after any appends and queries, with a clock that does not go
      back, a query on the pruned window gives the rate of the full history, filtered by the
      query's own cutoff; and once the test has ended, the last such rate. */
  lemma PrunedRateIsFullRate(events: seq<Event>, ctx: Context, now: int, scale: Scale)
    requires ClockAdvances(events) && NotAfter(events, now)
    ensures Query(Run(events, scale), ctx, now, scale).0 ==
            match ctx
            case NoTest => 0.0
            case Ended => Remembered(events, scale)
            case Running => RateOver(History(events), now, scale, Remembered(events, scale)).rate
  {
    RememberedAgrees(events, scale);
    if ctx.Running? {
      WindowAgrees(events, scale, now, now - WINDOW);
      SameFilterSameRate(Run(events, scale).points, History(events), now, scale, Remembered(events, scale));
    }
  }

  /** What a query answers, from everything ever appended: nothing without an amount in the last
      five seconds, or with fewer than three points in less than one second; otherwise the
      amount per second since the oldest point, but over a fifth of a second at least. A test
      that ends here goes on answering that, unless there was no amount. */
  lemma RateOfHistory(events: seq<Event>, now: int, scale: Scale)
    requires ClockAdvances(events) && NotAfter(events, now)
    ensures var kept, w := After(History(events), now - 5_000_000_000), Run(events, scale);
            var (rate, left) := Query(w, Running, now, scale);
            && (if Total(kept) == 0 || (|kept| < 3 && now - Oldest(kept) < 1_000_000_000) then rate == 0.0
                else IsRate(rate, Total(kept), Max(now - Oldest(kept), 200_000_000), scale))
            && left.points == kept
            && left.remembered == if Total(kept) == 0 then w.remembered else rate
  {
    hide Query, After, Run, History, Oldest, Total, IsRate;
    WindowAgrees(events, scale, now, now - WINDOW);
    RateOfWindow(Run(events, scale), now, scale);
  }

  lemma RateOfWindow(w: Window, now: int, scale: Scale)
    ensures var kept, (rate, left) := After(w.points, now - 5_000_000_000), Query(w, Running, now, scale);
            && (if Total(kept) == 0 || (|kept| < 3 && now - Oldest(kept) < 1_000_000_000) then rate == 0.0
                else IsRate(rate, Total(kept), Max(now - Oldest(kept), 200_000_000), scale))
            && left.points == kept
            && left.remembered == if Total(kept) == 0 then w.remembered else rate
  {
    hide PerSecond, IsRate, After, Oldest, Total, Clamp;
    var kept := After(w.points, now - WINDOW);
    if Total(kept) != 0 {
      DurationOf(w.points, now);
      PerSecondIs(Total(kept), Clamp(now - Oldest(kept)), scale);
    }
  }

  lemma DurationOf(points: seq<Point>, now: int)
    requires Total(After(points, now - WINDOW)) != 0
    ensures var kept := After(points, now - WINDOW);
            && kept != [] && Clamp(now - Oldest(kept)) == Max(now - Oldest(kept), 200_000_000)
  {
    UpperClampUnused(points, now);
    hide After, Oldest;
  }

  /** What survives the cutoff is younger than the window, so the duration is never capped. */
  lemma UpperClampUnused(points: seq<Point>, now: int)
    requires After(points, now - WINDOW) != []
    ensures now - Oldest(After(points, now - WINDOW)) < WINDOW
  {
    AfterIsLater(points, now - WINDOW);
    OldestIsLeast(After(points, now - WINDOW));
  }
}

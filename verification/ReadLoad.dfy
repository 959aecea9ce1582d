/** Read-load selection: the weighted method picker and the block windows
    (internal/readload/readload.go). */
module ReadLoad {
  import opened Numbers

  /** What the configuration says of blocks; anything else than the three modes is rejected. */
  datatype Selection = Unset | Latest | Recent | Archive | Other

  /** The shares of eth_call, getBalance, getLogs, getBlock and getReceipt, in that order. */
  datatype Config = Config(enabled: bool, targetRps: int, shares: seq<int>, selection: Selection, blockWindow: int,
                           logsRangeBlocks: int, archiveDepthPct: int, concurrency: int)

  datatype Outcome = Ok | Invalid

  function Sum(s: seq<int>): int {
    if s == [] then 0 else Sum(s[..|s| - 1]) + s[|s| - 1]
  }

  function Validate(c: Config): (o: Outcome)
    requires |c.shares| == 5
    ensures o == Ok && c.enabled ==> Sum(c.shares) == 100 && forall k :: 0 <= k < 5 ==> 0 <= c.shares[k] <= 100
  {
    if !c.enabled then Ok
    else if c.targetRps <= 0 then Invalid
    else if Sum(c.shares) != 100 then Invalid
    else if exists k :: 0 <= k < 5 && !(0 <= c.shares[k] <= 100) then Invalid
    else if c.selection.Other? then Invalid
    else if c.blockWindow < 0 || c.logsRangeBlocks < 0 then Invalid
    else if c.archiveDepthPct < 0 || c.archiveDepthPct > 100 then Invalid
    else if c.concurrency < 0 then Invalid
    else if c.blockWindow > 0 && c.logsRangeBlocks > c.blockWindow && !c.selection.Archive? then Invalid
    else Ok
  }

  function WithDefaults(c: Config): (r: Config)
    ensures r.enabled == c.enabled && r.targetRps == c.targetRps
    ensures r.shares == c.shares && r.concurrency == c.concurrency
    ensures r.selection == c.selection || (c.selection.Unset? && r.selection.Recent?)
    ensures !r.selection.Unset? && r.blockWindow > 0 && r.logsRangeBlocks > 0 && r.archiveDepthPct > 0
    ensures r.blockWindow == c.blockWindow || (c.blockWindow <= 0 && r.blockWindow == 64)
    ensures r.logsRangeBlocks == c.logsRangeBlocks || (c.logsRangeBlocks <= 0 && r.logsRangeBlocks == 16)
    ensures r.archiveDepthPct == c.archiveDepthPct || (c.archiveDepthPct <= 0 && r.archiveDepthPct == 100)
  {
    c.(selection := if c.selection.Unset? then Recent else c.selection,
       blockWindow := if c.blockWindow <= 0 then 64 else c.blockWindow,
       logsRangeBlocks := if c.logsRangeBlocks <= 0 then 16 else c.logsRangeBlocks,
       archiveDepthPct := if c.archiveDepthPct <= 0 then 100 else c.archiveDepthPct)
  }

  // ---------------------------------------------------------------- the picker

  /** What the mix and the windows of a sound configuration are like. The upper bound of each
      share is not part of it. */
  ghost predicate Sound(c: Config) {
    && |c.shares| == 5 && Sum(c.shares) == 100 && (forall k :: 0 <= k < 5 ==> 0 <= c.shares[k])
    && !c.selection.Other? && c.targetRps > 0 && c.concurrency >= 0 && c.blockWindow >= 0 && c.logsRangeBlocks >= 0
    && 0 <= c.archiveDepthPct <= 100
    && (c.selection.Archive? || c.blockWindow == 0 || c.logsRangeBlocks <= c.blockWindow)
  }

  lemma {:induction false} PartWithinSum(shares: seq<int>, k: nat)
    requires k < |shares| && forall i :: 0 <= i < |shares| ==> 0 <= shares[i]
    ensures shares[k] <= Sum(shares) && Sum(shares) >= 0
  {
    var init := shares[..|shares| - 1];
    if k < |init| { PartWithinSum(init, k); } else if init != [] { PartWithinSum(init, 0); }
  }

  /** Exactly which configurations pass: those not enabled, and the sound ones; the check of each
      share against one hundred rejects nothing that the sum does not. */
  lemma ValidIffSound(c: Config)
    requires |c.shares| == 5
    ensures Validate(c) == Ok <==> !c.enabled || Sound(c)
  {
    if Sound(c) {
      forall k | 0 <= k < 5 ensures c.shares[k] <= 100 {
        PartWithinSum(c.shares, k);
      }
    }
  }

  /** One row of the table: a method and the shares up to and including its own. */
  datatype Weighted = Weighted(kind: nat, cumulative: int)

  function Table(shares: seq<int>): seq<Weighted> {
    if shares == [] then []
    else
      var k := |shares| - 1;
      Table(shares[..k]) + if shares[k] <= 0 then [] else [Weighted(k, Sum(shares))]
  }

  method BuildPicker(shares: seq<int>) returns (picker: seq<Weighted>)
    requires forall k :: 0 <= k < |shares| ==> 0 <= shares[k]
    ensures picker == Table(shares)
  {
    picker := [];
    var cum := 0;
    for i := 0 to |shares|
      invariant picker == Table(shares[..i]) && cum == Sum(shares[..i])
    {
      assert shares[..i + 1][..i] == shares[..i];
      if shares[i] <= 0 { continue; }
      cum := cum + shares[i];
      picker := picker + [Weighted(i, cum)];
    }
    assert shares[..|shares|] == shares;
  }

  datatype Picked = Method(kind: nat) | FallThrough

  /** The first row whose cumulative share exceeds the roll. */
  function PickFrom(picker: seq<Weighted>, roll: int): Picked {
    if picker == [] then FallThrough
    else if roll < picker[0].cumulative then Method(picker[0].kind)
    else PickFrom(picker[1..], roll)
  }

  /** The loop, and the last row where it falls through. */
  method Pick(picker: seq<Weighted>, roll: int) returns (kind: nat)
    requires picker != []
    ensures Method(kind) == PickFrom(picker, roll)
            || (PickFrom(picker, roll) == FallThrough && kind == picker[|picker| - 1].kind)
  {
    for i := 0 to |picker|
      invariant PickFrom(picker[i..], roll) == PickFrom(picker, roll)
    {
      if roll < picker[i].cumulative { return picker[i].kind; }
      assert picker[i..][1..] == picker[i + 1..];
    }
    kind := picker[|picker| - 1].kind;
  }

  lemma {:induction false} PickAppend(picker: seq<Weighted>, w: Weighted, roll: int)
    ensures PickFrom(picker + [w], roll) ==
            if PickFrom(picker, roll) != FallThrough then PickFrom(picker, roll)
            else if roll < w.cumulative then Method(w.kind) else FallThrough
  {
    if picker == [] {
      assert [] + [w] == [w];
    } else {
      PickAppend(picker[1..], w, roll);
      assert (picker + [w])[1..] == picker[1..] + [w];
    }
  }

  /** The roll picks the method into whose stretch of the shares it falls. */
  lemma {:induction false} PickRange(shares: seq<int>, roll: int)
    requires forall k :: 0 <= k < |shares| ==> 0 <= shares[k]
    requires 0 <= roll
    ensures PickFrom(Table(shares), roll) == FallThrough <==> Sum(shares) <= roll
    ensures forall k :: 0 <= k < |shares| ==>
            (PickFrom(Table(shares), roll) == Method(k) <==> Sum(shares[..k]) <= roll < Sum(shares[..k + 1]))
    ensures Sum(shares) >= 0
    ensures PickFrom(Table(shares), roll).Method? ==> PickFrom(Table(shares), roll).kind < |shares|
  {
    if shares != [] {
      var n := |shares| - 1;
      var init := shares[..n];
      PickRange(init, roll);
      if shares[n] > 0 {
        PickAppend(Table(init), Weighted(n, Sum(shares)), roll);
      } else {
        assert Table(init) + [] == Table(init);
      }
      forall k | 0 <= k < |shares|
        ensures PickFrom(Table(shares), roll) == Method(k) <==> Sum(shares[..k]) <= roll < Sum(shares[..k + 1])
      {
        if k < n {
          assert init[..k] == shares[..k] && init[..k + 1] == shares[..k + 1];
          SumMonotone(shares, k + 1, n);
        } else {
          assert shares[..n + 1] == shares;
        }
      }
    }
  }

  lemma {:induction false} SumMonotone(shares: seq<int>, i: nat, j: nat)
    requires forall k :: 0 <= k < |shares| ==> 0 <= shares[k]
    requires i <= j <= |shares|
    ensures Sum(shares[..i]) <= Sum(shares[..j])
    decreases j - i
  {
    if i < j {
      SumMonotone(shares, i, j - 1);
      assert shares[..j][..j - 1] == shares[..j - 1];
    }
  }

  /** How many of the rolls below n pick method k. */
  function RollsFor(shares: seq<int>, k: nat, n: nat): nat {
    if n == 0 then 0
    else RollsFor(shares, k, n - 1) + if PickFrom(Table(shares), n - 1) == Method(k) then 1 else 0
  }

  lemma {:induction false} RollsInRange(shares: seq<int>, k: nat, n: nat)
    requires k < |shares| && forall i :: 0 <= i < |shares| ==> 0 <= shares[i]
    ensures var lo, hi := Sum(shares[..k]), Sum(shares[..k + 1]);
            0 <= lo <= hi && RollsFor(shares, k, n) == if n <= lo then 0 else if n <= hi then n - lo else hi - lo
  {
    SumMonotone(shares, 0, k);
    SumMonotone(shares, k, k + 1);
    if n != 0 {
      RollsInRange(shares, k, n - 1);
      PickRange(shares, n - 1);
    }
  }

  /** Of the hundred rolls exactly `share` pick each method, and the line after the loop is
      never reached. */
  lemma PickerIsFair(c: Config, k: nat, roll: nat)
    requires |c.shares| == 5 && c.enabled && Validate(c) == Ok && k < 5 && roll < 100
    ensures RollsFor(c.shares, k, 100) == c.shares[k]
    ensures Table(c.shares) != [] && PickFrom(Table(c.shares), roll) != FallThrough
  {
    ValidIffSound(c);
    RollsInRange(c.shares, k, 100);
    PickRange(c.shares, roll);
    assert c.shares[..k + 1][..k] == c.shares[..k];
    SumMonotone(c.shares, k + 1, 5);
    assert c.shares[..5] == c.shares;
  }

  // ---------------------------------------------------------------- block windows

  datatype BlockTag = LatestTag | Number(block: nat)

  /** A random number below n, from a draw. */
  function IntN(draw: nat, n: nat): (r: nat)
    requires n > 0
    ensures r < n
  {
    draw % n
  }

  /** The start of a window of that percentage of the chain which ends at the head. */
  function ArchiveOldest(head: nat, depthPct: nat): (oldest: nat)
    ensures head > 0 ==> 1 <= oldest <= head
  {
    var raw := head * depthPct / 100;
    var span := if raw < 1 then 1 else raw;
    if span >= head then 1 else head - span + 1
  }

  function Tag(c: Config, head: nat, draw: nat): BlockTag
    requires c.blockWindow > 0 && c.archiveDepthPct > 0
  {
    match c.selection
    case Latest => LatestTag
    case Archive =>
      if head <= 1 then LatestTag
      else
        var oldest := ArchiveOldest(head, c.archiveDepthPct);
        Number(oldest + IntN(draw, head - oldest + 1))
    case _ =>
      if head == 0 then LatestTag
      else
        var window := if c.blockWindow > head then head else c.blockWindow;
        Number(head - IntN(draw, window))
  }

  datatype LogRange = NoRange | Span(first: int, last: int)

  function Logs(c: Config, head: nat, draw: nat): LogRange
    requires c.blockWindow > 0 && c.logsRangeBlocks > 0 && c.archiveDepthPct > 0
  {
    if head == 0 then NoRange
    else
      var span := if c.logsRangeBlocks > head then head else c.logsRangeBlocks;
      var oldest :=
        if c.selection.Archive? then ArchiveOldest(head, c.archiveDepthPct)
        else
          var window := if c.blockWindow > head then head else c.blockWindow;
          head - (if window < span then span else window) + 1;
      var from := if oldest < 1 then 1 else oldest;
      var latestStart := head - span + 1;
      if latestStart < from then Span(from, head)
      else
        var start := from + IntN(draw, latestStart - from + 1);
        Span(start, start + span - 1)
  }

  lemma PercentOf(head: nat, p: nat, q: nat)
    requires p <= q
    ensures head * p / 100 <= head * q / 100
    ensures p <= 100 ==> head * p / 100 <= head
  {
    assert head * p <= head * q;
    assert p <= 100 ==> head * p <= head * 100;
  }

  /** The archive window ends at the head, starts in the chain, and only widens with depth:
      sweeping the percentage down walks its start towards the head. */
  lemma ArchiveNested(head: nat, p: nat, q: nat)
    requires head > 0 && p <= q
    ensures 1 <= ArchiveOldest(head, q) <= ArchiveOldest(head, p) <= head
    ensures p >= 100 ==> ArchiveOldest(head, p) == 1
  {
    PercentOf(head, p, q);
    if p >= 100 { PercentOf(head, 100, p); }
  }

  /** How long the window is: that percentage of the chain, rounded down, but one block at least. */
  lemma ArchiveLength(head: nat, pct: nat)
    requires head > 0 && pct <= 100
    ensures var length := head - ArchiveOldest(head, pct) + 1;
            if head * pct < 100 then length == 1 else 100 * length <= head * pct < 100 * (length + 1)
  {
    PercentOf(head, pct, pct);
  }

  lemma DrawReaches(n: nat, k: nat)
    requires k < n
    ensures IntN(k, n) == k
  {
  }

  /** The first block of the window that a selection reads from. */
  function WindowStart(c: Config, head: nat): nat
    requires head > 0 && c.blockWindow > 0 && c.archiveDepthPct > 0
  {
    if c.selection.Archive? then ArchiveOldest(head, c.archiveDepthPct)
    else if c.blockWindow > head then 1 else head - c.blockWindow + 1
  }

  /** Which blocks a read may name: exactly those of the window, and each of them by some draw. */
  lemma TagIff(c: Config, head: nat, b: nat)
    requires c.blockWindow > 0 && c.archiveDepthPct > 0
    ensures (exists draw: nat :: Tag(c, head, draw) == Number(b)) <==>
            && !c.selection.Latest? && head > (if c.selection.Archive? then 1 else 0)
            && WindowStart(c, head) <= b <= head
  {
    if head > 0 {
      ArchiveNested(head, c.archiveDepthPct, c.archiveDepthPct);
      var low := WindowStart(c, head);
      if low <= b <= head {
        var draw := if c.selection.Archive? then b - low else head - b;
        DrawReaches(head - low + 1, draw);
        hide IntN;
        assert !c.selection.Latest? && (c.selection.Archive? ==> head > 1) ==> Tag(c, head, draw) == Number(b);
      }
    }
  }

  /** Which ranges a log query may name: as long as configured where the chain and the window
      allow it, anywhere in the window; and the whole window where it is shorter. A window of
      recent blocks is widened to the range. */
  lemma LogsIff(c: Config, head: nat, first: int, last: int)
    requires c.blockWindow > 0 && c.logsRangeBlocks > 0 && c.archiveDepthPct > 0
    ensures (exists draw: nat :: Logs(c, head, draw) == Span(first, last)) <==>
            && head > 0
            && var span, start := Min(c.logsRangeBlocks, head), WindowStart(c, head);
            && var low := if c.selection.Archive? then start else Min(start, head - span + 1);
            && if head - low + 1 < span then first == low && last == head
               else low <= first && last == first + span - 1 && last <= head
  {
    if head > 0 {
      ArchiveNested(head, c.archiveDepthPct, c.archiveDepthPct);
      var span, start := Min(c.logsRangeBlocks, head), WindowStart(c, head);
      var low := if c.selection.Archive? then start else Min(start, head - span + 1);
      var starts := head - span + 1 - low + 1;
      if starts <= 0 {
        assert Logs(c, head, 0) == Span(low, head);
      } else if 0 <= first - low < starts {
        DrawReaches(starts, first - low);
        hide IntN;
        assert Logs(c, head, first - low) == Span(first, first + span - 1);
      }
    }
  }

  /** A block named in a read exists: it lies between 1 and the head, inside the window of the
      selection; and it is named whenever there is a chain to read, but for block 1 alone in
      an archive. */
  lemma TagExists(c: Config, head: nat, draw: nat)
    requires c.blockWindow > 0 && c.archiveDepthPct > 0
    ensures var t := Tag(c, head, draw);
            && (t.Number? ==> 1 <= t.block <= head)
            && (t.Number? && c.selection.Archive? ==> t.block >= ArchiveOldest(head, c.archiveDepthPct))
            && (t.Number? && !c.selection.Archive? ==> t.block > head - c.blockWindow)
            && (t.LatestTag? <==> c.selection.Latest? || head == 0 || (c.selection.Archive? && head == 1))
  {
    if head > 0 { ArchiveNested(head, c.archiveDepthPct, c.archiveDepthPct); }
  }

  /** A log filter is a range of the chain, no longer than configured, and it exists exactly
      when there is a block at all. */
  lemma LogsBounded(c: Config, head: nat, draw: nat)
    requires c.blockWindow > 0 && c.logsRangeBlocks > 0 && c.archiveDepthPct > 0
    ensures var r := Logs(c, head, draw);
            && (r.NoRange? <==> head == 0)
            && (r.Span? ==> 1 <= r.first <= r.last <= head && r.last - r.first + 1 <= c.logsRangeBlocks)
            && (r.Span? && !c.selection.Archive? ==>
                  r.first > head - c.blockWindow || r.first > head - c.logsRangeBlocks)
            && (r.Span? && c.selection.Archive? ==> r.first >= ArchiveOldest(head, c.archiveDepthPct))
  {
    if head > 0 { ArchiveNested(head, c.archiveDepthPct, c.archiveDepthPct); }
  }
}

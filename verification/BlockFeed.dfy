/** Block metrics from three feeds into one record: builder events, polled blocks and new
    heads, drained period by period (internal/loadgen/websocket.go,
    internal/loadgen/chainpoller.go, internal/loadgen/blockmetrics.go). */
module BlockFeed {
  import opened Numbers

  datatype Block = Block(number: nat, gasUsed: nat, gasLimit: nat)

  /** A point of the time series, waiting to be reported in a period. */
  type Point = Block

  datatype Feed = Feed(lastRecorded: nat, firstBlock: nat, lastBlock: nat, rpcLastBlock: nat,
                       timed: bool, gasUsed: nat, gasLimit: nat, blockCount: nat, points: seq<Point>)

  const EMPTY_FEED := Feed(0, 0, 0, 0, false, 0, 0, 0, [])

  /** What builder events and polled blocks share: the running totals, and a point once an
      earlier block gives a time to measure from. */
  function Count(f: Feed, b: Block): Feed {
    Feed(b.number, f.firstBlock, b.number, Max(f.rpcLastBlock, b.number), true,
         f.gasUsed + b.gasUsed, f.gasLimit + b.gasLimit, f.blockCount + 1,
         if f.timed then f.points + [b] else f.points)
  }

  function FirstSeen(f: Feed, number: nat): Feed {
    f.(firstBlock := if f.firstBlock == 0 then number else f.firstBlock)
  }

  function Builder(f: Feed, b: Block, running: bool, testEnd: nat): Feed {
    if !running || (testEnd > 0 && b.number > testEnd) then f
    else
      var g := FirstSeen(f, b.number);
      if b.number <= f.lastRecorded then g else Count(g, b)
  }

  function Polled(f: Feed, b: Block): Feed {
    if b.number <= f.lastRecorded then f else Count(FirstSeen(f, b.number), b)
  }

  function NewHead(f: Feed, b: Block): Feed {
    var g := FirstSeen(f, b.number).(timed := true, lastBlock := b.number);
    if b.number > f.lastRecorded then g.(points := f.points + [b], lastRecorded := b.number) else g
  }

  function Gas(points: seq<Point>): nat {
    if points == [] then 0 else Gas(points[..|points| - 1]) + points[|points| - 1].gasUsed
  }

  function Limit(points: seq<Point>): nat {
    if points == [] then 0 else Limit(points[..|points| - 1]) + points[|points| - 1].gasLimit
  }

  /** The report of a period: its gas, its gas limit and its number of blocks. */
  datatype Report = Report(gasUsed: nat, gasLimit: nat, blockCount: nat)

  function ReportOf(points: seq<Point>): Report { Report(Gas(points), Limit(points), |points|) }

  function Drain(f: Feed): (Report, Feed) { (ReportOf(f.points), f.(points := [])) }

  // ---------------------------------------------------------------- the object

  class BlockMetrics {
    var lastRecordedBlock: nat
    var firstBlockNumber: nat
    var lastBlockNumber: nat
    var rpcLastBlockNumber: nat
    var lastBlockTimeSet: bool
    var cumulativeGasUsed: nat
    var cumulativeGasLimit: nat
    var totalBlockCount: nat
    var blockMetrics: seq<Point>

    function State(): Feed reads this {
      Feed(lastRecordedBlock, firstBlockNumber, lastBlockNumber, rpcLastBlockNumber, lastBlockTimeSet,
           cumulativeGasUsed, cumulativeGasLimit, totalBlockCount, blockMetrics)
    }

    constructor ()
      ensures State() == EMPTY_FEED
    {
      lastRecordedBlock, firstBlockNumber, lastBlockNumber, rpcLastBlockNumber := 0, 0, 0, 0;
      lastBlockTimeSet, cumulativeGasUsed, cumulativeGasLimit, totalBlockCount := false, 0, 0, 0;
      blockMetrics := [];
    }

    method ProcessBuilderBlockMetrics(event: Block, running: bool, testEnd: nat)
      modifies this
      ensures State() == Builder(old(State()), event, running, testEnd)
    {
      if !running { return; }
      if testEnd > 0 && event.number > testEnd { return; }
      if firstBlockNumber == 0 && event.number > 0 {
        firstBlockNumber := event.number;
      }
      if event.number <= lastRecordedBlock { return; }
      CountBlock(event);
    }

    method RecordPolledBlockMetrics(block: Block)
      modifies this
      ensures State() == Polled(old(State()), block)
    {
      if block.number <= lastRecordedBlock { return; }
      if firstBlockNumber == 0 {
        firstBlockNumber := block.number;
      }
      CountBlock(block);
    }

    method CountBlock(b: Block)
      modifies this
      ensures State() == Count(old(State()), b)
    {
      cumulativeGasUsed := cumulativeGasUsed + b.gasUsed;
      cumulativeGasLimit := cumulativeGasLimit + b.gasLimit;
      totalBlockCount := totalBlockCount + 1;
      lastBlockNumber := b.number;
      if rpcLastBlockNumber < b.number {
        rpcLastBlockNumber := b.number;
      }
      if lastBlockTimeSet {
        blockMetrics := blockMetrics + [b];
      }
      lastRecordedBlock := b.number;
      lastBlockTimeSet := true;
    }

    method ProcessNewHead(head: Block)
      modifies this
      ensures State() == NewHead(old(State()), head)
    {
      if firstBlockNumber == 0 {
        firstBlockNumber := head.number;
      }
      if head.number > lastRecordedBlock {
        blockMetrics := blockMetrics + [head];
        lastRecordedBlock := head.number;
      }
      lastBlockTimeSet := true;
      lastBlockNumber := head.number;
    }

    /** Sums up the collected points and clears them. */
    method GetBlockMetricsForPeriod() returns (r: Report)
      modifies this
      ensures (r, State()) == Drain(old(State()))
    {
      var totalGasUsed, totalGasLimit := 0, 0;
      for i := 0 to |blockMetrics|
        invariant totalGasUsed == Gas(blockMetrics[..i]) && totalGasLimit == Limit(blockMetrics[..i])
        invariant State() == old(State())
      {
        var m := blockMetrics[i];
        assert blockMetrics[..i + 1][..i] == blockMetrics[..i];
        totalGasUsed := totalGasUsed + m.gasUsed;
        totalGasLimit := totalGasLimit + m.gasLimit;
      }
      assert blockMetrics[..|blockMetrics|] == blockMetrics;
      r := Report(totalGasUsed, totalGasLimit, |blockMetrics|);
      blockMetrics := [];
    }
  }

  // ---------------------------------------------------------------- runs

  datatype Event =
    | BuilderEvent(b: Block, running: bool, testEnd: nat)
    | PolledEvent(b: Block)
    | HeadEvent(b: Block)
    | DrainEvent

  /** The feed with a log: blocks in the order in which they advanced the record, those of
      them that entered the running totals, appended points, the periods drained, and what was
      reported for each. */
  datatype Log = Log(feed: Feed, recorded: seq<Block>, counted: seq<Block>,
                     appended: seq<Point>, periods: seq<seq<Point>>, reports: seq<Report>)

  function Apply(f: Feed, e: Event): Feed {
    match e
    case BuilderEvent(b, running, testEnd) => Builder(f, b, running, testEnd)
    case PolledEvent(b) => Polled(f, b)
    case HeadEvent(b) => NewHead(f, b)
    case DrainEvent => Drain(f).1
  }

  function Step(l: Log, e: Event): Log {
    var f, g := l.feed, Apply(l.feed, e);
    if e.DrainEvent? then l.(feed := g, periods := l.periods + [f.points], reports := l.reports + [Drain(f).0])
    else Log(g,
             if g.lastRecorded != f.lastRecorded then l.recorded + [e.b] else l.recorded,
             if g.blockCount != f.blockCount then l.counted + [e.b] else l.counted,
             if g.points != f.points then l.appended + [e.b] else l.appended,
             l.periods, l.reports)
  }

  function Run(events: seq<Event>): Log {
    if events == [] then Log(EMPTY_FEED, [], [], [], [], [])
    else Step(Run(events[..|events| - 1]), events[|events| - 1])
  }

  ghost predicate Ascending(s: seq<Block>) {
    forall i, j :: 0 <= i < j < |s| ==> s[i].number < s[j].number
  }

  ghost predicate UpTo(s: seq<Block>, number: nat) {
    forall i :: 0 <= i < |s| ==> s[i].number <= number
  }

  function Flatten(periods: seq<seq<Point>>): seq<Point> {
    if periods == [] then [] else Flatten(periods[..|periods| - 1]) + periods[|periods| - 1]
  }

  function Plus(a: Report, b: Report): Report {
    Report(a.gasUsed + b.gasUsed, a.gasLimit + b.gasLimit, a.blockCount + b.blockCount)
  }

  /** The sum of the reports. */
  function TotalReport(reports: seq<Report>): Report {
    if reports == [] then Report(0, 0, 0)
    else Plus(TotalReport(reports[..|reports| - 1]), reports[|reports| - 1])
  }

  ghost predicate Consistent(l: Log) {
    && Ascending(l.recorded) && UpTo(l.recorded, l.feed.lastRecorded)
    && Ascending(l.counted) && UpTo(l.counted, l.feed.lastRecorded)
    && Ascending(l.appended) && UpTo(l.appended, l.feed.lastRecorded)
    && l.feed.gasUsed == Gas(l.counted) && l.feed.gasLimit == Limit(l.counted)
    && l.feed.blockCount == |l.counted|
    && Flatten(l.periods) + l.feed.points == l.appended
  }

  lemma AscendingAppend(s: seq<Block>, b: Block, number: nat)
    requires Ascending(s) && UpTo(s, number) && number < b.number
    ensures Ascending(s + [b]) && UpTo(s + [b], b.number) && UpTo(s, b.number)
    ensures Gas(s + [b]) == Gas(s) + b.gasUsed && Limit(s + [b]) == Limit(s) + b.gasLimit
  {
    assert (s + [b])[..|s|] == s;
  }

  /** What one message does to the record: nothing, or it advances it to its own block. */
  lemma ApplyEffect(f: Feed, e: Event)
    requires !e.DrainEvent?
    ensures var g := Apply(f, e);
            && g.lastRecorded == (if g.lastRecorded == f.lastRecorded then f.lastRecorded else e.b.number)
            && g.lastRecorded >= f.lastRecorded
            && (g.points == f.points || g.points == f.points + [e.b])
            && (g.lastRecorded == f.lastRecorded ==> g.points == f.points && g.blockCount == f.blockCount)
            && g.blockCount - f.blockCount in {0, 1}
            && (if g.blockCount == f.blockCount then g.gasUsed == f.gasUsed && g.gasLimit == f.gasLimit
                else g.gasUsed == f.gasUsed + e.b.gasUsed && g.gasLimit == f.gasLimit + e.b.gasLimit)
  {
  }

  lemma StepDrain(l: Log)
    requires Consistent(l)
    ensures Consistent(Step(l, DrainEvent))
  {
    hide Gas, Limit, Ascending, UpTo;
    FlattenNext(l.periods, l.feed.points);
    hide Flatten;
    assert Flatten(l.periods) + l.feed.points + [] == l.appended;
  }

  lemma FlattenNext(periods: seq<seq<Point>>, points: seq<Point>)
    ensures Flatten(periods + [points]) == Flatten(periods) + points
  {
    assert (periods + [points])[..|periods|] == periods;
  }

  lemma StepAdvances(l: Log, e: Event)
    requires Consistent(l) && !e.DrainEvent? && Apply(l.feed, e).lastRecorded != l.feed.lastRecorded
    ensures Consistent(Step(l, e))
  {
    var f, g, m := l.feed, Apply(l.feed, e), Step(l, e);
    ApplyEffect(f, e);
    assert m.feed == g && m.recorded == l.recorded + [e.b] && m.periods == l.periods;
    assert m.counted == if g.blockCount != f.blockCount then l.counted + [e.b] else l.counted;
    assert m.appended == if g.points != f.points then l.appended + [e.b] else l.appended;
    hide Apply, Step;
    AscendingAppend(l.recorded, e.b, f.lastRecorded);
    CountedAdvances(l.counted, f, g, e.b);
    AppendedAdvances(l.appended, Flatten(l.periods), f, g, e.b);
    hide Flatten, Gas, Limit, Ascending, UpTo;
  }

  /** The counted blocks and the running totals move together. */
  lemma CountedAdvances(counted: seq<Block>, f: Feed, g: Feed, b: Block)
    requires Ascending(counted) && UpTo(counted, f.lastRecorded) && f.lastRecorded < b.number
    requires f.gasUsed == Gas(counted) && f.gasLimit == Limit(counted) && f.blockCount == |counted|
    requires g.blockCount - f.blockCount in {0, 1}
    requires if g.blockCount == f.blockCount then g.gasUsed == f.gasUsed && g.gasLimit == f.gasLimit
             else g.gasUsed == f.gasUsed + b.gasUsed && g.gasLimit == f.gasLimit + b.gasLimit
    ensures var r := if g.blockCount != f.blockCount then counted + [b] else counted;
            && Ascending(r) && UpTo(r, b.number)
            && g.gasUsed == Gas(r) && g.gasLimit == Limit(r) && g.blockCount == |r|
  {
    hide Gas, Limit, Ascending, UpTo;
    AscendingAppend(counted, b, f.lastRecorded);
  }

  lemma AppendedAdvances(appended: seq<Block>, drained: seq<Block>, f: Feed, g: Feed, b: Block)
    requires Ascending(appended) && UpTo(appended, f.lastRecorded) && f.lastRecorded < b.number
    requires drained + f.points == appended && (g.points == f.points || g.points == f.points + [b])
    ensures var r := if g.points != f.points then appended + [b] else appended;
            Ascending(r) && UpTo(r, b.number) && drained + g.points == r
  {
    hide Ascending, UpTo;
    AscendingAppend(appended, b, f.lastRecorded);
    assert drained + (f.points + [b]) == (drained + f.points) + [b];
  }

  lemma StepConsistent(l: Log, e: Event)
    requires Consistent(l)
    ensures Consistent(Step(l, e))
  {
    if e.DrainEvent? {
      StepDrain(l);
    } else {
      ApplyEffect(l.feed, e);
      if Apply(l.feed, e).lastRecorded != l.feed.lastRecorded {
        StepAdvances(l, e);
      } else {
        var m := Step(l, e);
        assert m == l.(feed := m.feed);
      }
    }
  }

  /** Over any interleaving of the three feeds recorded numbers strictly increase, so each
      number enters the running gas, gas limit and block count at most once; and the drained
      periods, in order, followed by what is not drained yet, are exactly the appended points:
      each is reported in exactly one period. */
  lemma {:induction false} RunConsistent(events: seq<Event>)
    ensures Consistent(Run(events))
  {
    if events != [] {
      RunConsistent(events[..|events| - 1]);
      StepConsistent(Run(events[..|events| - 1]), events[|events| - 1]);
    }
  }

  // ---------------------------------------------------------------- against the messages

  /** Messages that may advance the record: all but drains and builder events outside the test. */
  predicate Eligible(e: Event) {
    match e
    case DrainEvent => false
    case BuilderEvent(b, running, testEnd) => running && (testEnd == 0 || b.number <= testEnd)
    case _ => true
  }

  /** The highest number among the eligible messages. */
  function Highest(events: seq<Event>): nat {
    if events == [] then 0
    else
      var h, e := Highest(events[..|events| - 1]), events[|events| - 1];
      if Eligible(e) then Max(h, e.b.number) else h
  }

  /** The eligible messages whose number is above that of every earlier one. */
  function Maxima(events: seq<Event>): seq<Event> {
    if events == [] then []
    else
      var init, e := events[..|events| - 1], events[|events| - 1];
      Maxima(init) + if Eligible(e) && e.b.number > Highest(init) then [e] else []
  }

  function Blocks(events: seq<Event>, heads: bool): seq<Block> {
    if events == [] then []
    else
      var e := events[|events| - 1];
      Blocks(events[..|events| - 1], heads)
      + if !e.DrainEvent? && (heads || !e.HeadEvent?) then [e.b] else []
  }

  lemma BlocksAppend(events: seq<Event>, e: Event, heads: bool)
    ensures Blocks(events + [e], heads) == Blocks(events, heads)
            + if !e.DrainEvent? && (heads || !e.HeadEvent?) then [e.b] else []
  {
    assert (events + [e])[..|events|] == events;
  }

  /** What one message does, by its kind: when it advances the record, and when it counts. */
  lemma ApplyIff(f: Feed, e: Event)
    requires !e.DrainEvent?
    ensures var g, advances := Apply(f, e), Eligible(e) && e.b.number > f.lastRecorded;
            && g.lastRecorded == (if advances then e.b.number else f.lastRecorded)
            && g.blockCount == f.blockCount + (if advances && !e.HeadEvent? then 1 else 0)
            && g.points == f.points + (if advances && (f.timed || e.HeadEvent?) then [e.b] else [])
            && g.timed == (f.timed || e.HeadEvent? || advances)
  {
  }

  /** The record holds exactly the messages that were news when they came, and the running
      totals are exactly the gas and the number of those that did not come as new heads. */
  lemma {:induction false} RecordedAreMaxima(events: seq<Event>)
    ensures var l := Run(events);
            && l.feed.lastRecorded == Highest(events)
            && l.recorded == Blocks(Maxima(events), true)
            && l.counted == Blocks(Maxima(events), false)
  {
    if events != [] {
      var init, e := events[..|events| - 1], events[|events| - 1];
      RecordedAreMaxima(init);
      StepLogs(Run(init), e);
      BlocksAppend(Maxima(init), e, true);
      BlocksAppend(Maxima(init), e, false);
      assert Maxima(init) + [] == Maxima(init);
      hide Apply, Step, Blocks;
    }
  }

  lemma StepLogs(l: Log, e: Event)
    ensures var m, advances := Step(l, e), Eligible(e) && e.b.number > l.feed.lastRecorded;
            && m.feed.lastRecorded == (if advances then e.b.number else l.feed.lastRecorded)
            && m.recorded == l.recorded + (if advances then [e.b] else [])
            && m.counted == l.counted + (if advances && !e.HeadEvent? then [e.b] else [])
            && m.appended == l.appended + (if advances && (l.feed.timed || e.HeadEvent?) then [e.b] else [])
            && m.feed.timed == (l.feed.timed || e.HeadEvent? || advances)
  {
    if !e.DrainEvent? { ApplyIff(l.feed, e); }
    hide Apply;
    assert l.recorded + [] == l.recorded && l.counted + [] == l.counted && l.appended + [] == l.appended;
  }

  // ---------------------------------------------------------------- what the periods report

  /** A message that is news if nothing was recorded before it. */
  predicate Numbered(e: Event) { Eligible(e) && e.b.number > 0 }

  /** The first news came at k, in no new head and after none: there was no time yet to measure
      its block from. */
  ghost predicate UntimedAt(events: seq<Event>, k: nat)
    requires k < |events|
  {
    && Numbered(events[k]) && !events[k].HeadEvent?
    && forall j :: 0 <= j < k ==> !events[j].HeadEvent? && !Numbered(events[j])
  }

  ghost predicate StartsUntimed(events: seq<Event>) {
    exists k :: 0 <= k < |events| && UntimedAt(events, k)
  }

  ghost predicate HasHead(events: seq<Event>) {
    exists k :: 0 <= k < |events| && events[k].HeadEvent?
  }

  /** The blocks that get a point: everything that was news, but for a first block without a time
      to measure from. */
  ghost function Reported(events: seq<Event>): seq<Block> {
    var news := Blocks(Maxima(events), true);
    if StartsUntimed(events) && news != [] then news[1..] else news
  }

  lemma {:induction false} HighestIsZero(events: seq<Event>)
    ensures Highest(events) == 0 <==> forall j :: 0 <= j < |events| ==> !Numbered(events[j])
    ensures Highest(events) == 0 <==> Blocks(Maxima(events), true) == []
  {
    if events != [] {
      var init, e := events[..|events| - 1], events[|events| - 1];
      HighestIsZero(init);
      BlocksAppend(Maxima(init), e, true);
      assert Maxima(init) + [] == Maxima(init);
      assert events == init + [e];
      hide Blocks;
    }
  }

  lemma HasHeadNext(events: seq<Event>, e: Event)
    ensures HasHead(events + [e]) <==> HasHead(events) || e.HeadEvent?
  {
    var all := events + [e];
    assert all[|events|] == e;
    assert forall k :: 0 <= k < |events| ==> all[k] == events[k];
  }

  lemma StartsNext(events: seq<Event>, e: Event)
    ensures StartsUntimed(events + [e]) <==>
            || StartsUntimed(events)
            || (!HasHead(events) && Highest(events) == 0 && Numbered(e) && !e.HeadEvent?)
    ensures StartsUntimed(events) ==> Highest(events) > 0
  {
    var all := events + [e];
    HighestIsZero(events);
    hide Highest, Numbered, Blocks, Maxima;
    assert all[|events|] == e && forall k :: 0 <= k < |events| ==> all[k] == events[k];
    assert forall k :: 0 <= k < |events| ==> (UntimedAt(all, k) <==> UntimedAt(events, k));
    var last := !HasHead(events) && Highest(events) == 0 && Numbered(e) && !e.HeadEvent?;
    assert UntimedAt(all, |events|) <==> last by {
      assert forall j :: 0 <= j < |events| ==> (events[j].HeadEvent? <==> all[j].HeadEvent?);
    }
    hide UntimedAt;
    if StartsUntimed(all) && !last {
      var k :| 0 <= k < |all| && UntimedAt(all, k);
      assert k < |events| && UntimedAt(events, k);
    }
    if StartsUntimed(events) {
      var k :| 0 <= k < |events| && UntimedAt(events, k);
      assert UntimedAt(all, k);
    }
  }

  /** What is appended for the periods, from the messages alone: exactly the news, in order,
      without the first block when that has no time to measure from. */
  lemma {:induction false} AppendedAreReported(events: seq<Event>)
    ensures Run(events).appended == Reported(events)
    ensures Run(events).feed.timed <==> HasHead(events) || Highest(events) > 0
  {
    if events != [] {
      var init, e := events[..|events| - 1], events[|events| - 1];
      AppendedAreReported(init);
      RecordedAreMaxima(init);
      assert events == init + [e];
      assert Run(events) == Step(Run(init), e);
      hide Apply, Step, Run, Reported, Highest, HasHead, Eligible;
      StepLogs(Run(init), e);
      HasHeadNext(init, e);
      NewsNext(init, e);
      ReportedNext(init, e);
      hide Blocks, Maxima;
    }
  }

  lemma ReportedNext(events: seq<Event>, e: Event)
    ensures var timed := HasHead(events) || Highest(events) > 0;
            Reported(events + [e]) == Reported(events)
            + if Eligible(e) && e.b.number > Highest(events) && (timed || e.HeadEvent?) then [e.b] else []
  {
    StartsNext(events, e);
    HighestIsZero(events);
    NewsNext(events, e);
    hide Blocks, Maxima, Highest, HasHead, Eligible, StartsUntimed;
    assert Reported(events) + [] == Reported(events);
  }

  lemma NewsNext(events: seq<Event>, e: Event)
    ensures Blocks(Maxima(events + [e]), true) == Blocks(Maxima(events), true)
            + if Eligible(e) && e.b.number > Highest(events) then [e.b] else []
    ensures Highest(events + [e]) == if Eligible(e) then Max(Highest(events), e.b.number) else Highest(events)
  {
    assert (events + [e])[..|events|] == events;
    BlocksAppend(Maxima(events), e, true);
    var news := Eligible(e) && e.b.number > Highest(events);
    assert Maxima(events + [e]) == Maxima(events) + if news then [e] else [];
    assert Highest(events + [e]) == if Eligible(e) then Max(Highest(events), e.b.number) else Highest(events);
    hide Blocks, Maxima, Highest;
    if !news {
      assert Maxima(events) + [] == Maxima(events);
      assert Blocks(Maxima(events), true) + [] == Blocks(Maxima(events), true);
    }
  }

  /** The running totals, told from the messages alone. */
  lemma TotalsAreMaxima(events: seq<Event>)
    ensures var f, counted := Run(events).feed, Blocks(Maxima(events), false);
            f.gasUsed == Gas(counted) && f.gasLimit == Limit(counted) && f.blockCount == |counted|
  {
    RecordedAreMaxima(events);
    RunConsistent(events);
  }

  /** The first number that any message may set: zero counts as none. */
  function FirstNumber(events: seq<Event>): nat {
    if events == [] then 0
    else
      var n, e := FirstNumber(events[..|events| - 1]), events[|events| - 1];
      if n == 0 && Eligible(e) then e.b.number else n
  }

  /** The number of the latest message that was a new head, or news. */
  function LatestShown(events: seq<Event>): nat {
    if events == [] then 0
    else
      var init, e := events[..|events| - 1], events[|events| - 1];
      if e.HeadEvent? || (Eligible(e) && e.b.number > Highest(init)) then e.b.number else LatestShown(init)
  }

  /** The highest number of the blocks, which ascend. */
  function LastNumber(blocks: seq<Block>): nat { if blocks == [] then 0 else blocks[|blocks| - 1].number }

  lemma NumbersStep(f: Feed, e: Event)
    requires !e.DrainEvent? && (f.firstBlock == 0 ==> f.lastRecorded == 0) && f.rpcLastBlock <= f.lastRecorded
    ensures var g, news := Apply(f, e), Eligible(e) && e.b.number > f.lastRecorded;
            && g.firstBlock == (if f.firstBlock == 0 && Eligible(e) then e.b.number else f.firstBlock)
            && g.lastBlock == (if e.HeadEvent? || news then e.b.number else f.lastBlock)
            && g.rpcLastBlock == (if news && !e.HeadEvent? then e.b.number else f.rpcLastBlock)
            && (g.firstBlock == 0 ==> g.lastRecorded == 0) && g.rpcLastBlock <= g.lastRecorded
  {
  }

  /** The block numbers of the record, from the messages alone: the first one seen, the one shown
      last, and the one from which a fallback would fetch, which is the last one counted. */
  lemma {:induction false} NumbersAreOfMessages(events: seq<Event>)
    ensures var f := Run(events).feed;
            && f.firstBlock == FirstNumber(events) && f.lastBlock == LatestShown(events)
            && f.rpcLastBlock == LastNumber(Blocks(Maxima(events), false))
            && (f.firstBlock == 0 ==> f.lastRecorded == 0) && f.rpcLastBlock <= f.lastRecorded
  {
    if events != [] {
      var init, e := events[..|events| - 1], events[|events| - 1];
      var f := Run(init).feed;
      NumbersAreOfMessages(init);
      RecordedAreMaxima(init);
      RecordedAreMaxima(events);
      StepLogs(Run(init), e);
      if e.DrainEvent? {
        assert Run(events).feed == f.(points := []);
      } else {
        NumbersStep(f, e);
        assert Run(events).feed == Apply(f, e);
      }
      hide Apply, Step, Run, Blocks, Maxima, Highest;
    }
  }

  lemma {:induction false} ReportsAdd(s: seq<Point>, t: seq<Point>)
    ensures Gas(s + t) == Gas(s) + Gas(t) && Limit(s + t) == Limit(s) + Limit(t)
    decreases |t|
  {
    if t == [] {
      assert s + t == s;
    } else {
      ReportsAdd(s, t[..|t| - 1]);
      assert (s + t)[..|s + t| - 1] == s + t[..|t| - 1];
    }
  }

  /** The reports so far are those of the points drained so far. */
  ghost predicate Reports(l: Log) {
    var drained := Flatten(l.periods);
    TotalReport(l.reports) == Report(Gas(drained), Limit(drained), |drained|)
  }

  lemma StepReports(l: Log, e: Event)
    requires Reports(l)
    ensures Reports(Step(l, e))
  {
    hide Apply, Flatten, TotalReport, Gas, Limit;
    if e.DrainEvent? {
      FlattenNext(l.periods, l.feed.points);
      ReportsAdd(Flatten(l.periods), l.feed.points);
      TotalNext(l.reports, Drain(l.feed).0);
    } else {
      var m := Step(l, e);
      assert m.periods == l.periods && m.reports == l.reports;
    }
  }

  lemma {:induction false} RunReports(events: seq<Event>)
    ensures Reports(Run(events))
  {
    if events != [] {
      RunReports(events[..|events| - 1]);
      StepReports(Run(events[..|events| - 1]), events[|events| - 1]);
      hide Step, Reports;
    }
  }

  lemma TotalNext(reports: seq<Report>, r: Report)
    ensures TotalReport(reports + [r]) == Plus(TotalReport(reports), r)
  {
    assert (reports + [r])[..|reports|] == reports;
  }

  /** The reports of all periods, and the one still to come, add up to the gas, the gas limits and
      the number of exactly the blocks that get a point. */
  lemma PeriodsConserve(events: seq<Event>)
    ensures var l, blocks := Run(events), Reported(events);
            Plus(TotalReport(l.reports), Drain(l.feed).0) == Report(Gas(blocks), Limit(blocks), |blocks|)
  {
    var l := Run(events);
    RunConsistent(events);
    AppendedAreReported(events);
    RunReports(events);
    ReportsAdd(Flatten(l.periods), l.feed.points);
    hide Run, Flatten, Gas, Limit, Reported, Ascending, UpTo;
  }

  /** A new head records its block without counting it: when it comes before the builder
      event or the poll of the same block, that block never enters the running totals. */
  lemma HeadHidesBlock(f: Feed, b: Block, running: bool, testEnd: nat)
    ensures Builder(NewHead(f, b), b, running, testEnd).gasUsed == f.gasUsed
    ensures Builder(NewHead(f, b), b, running, testEnd).blockCount == f.blockCount
    ensures Polled(NewHead(f, b), b).gasUsed == f.gasUsed && Polled(NewHead(f, b), b).blockCount == f.blockCount
    ensures b.number > f.lastRecorded ==> Polled(f, b).blockCount == f.blockCount + 1
  {
  }
}

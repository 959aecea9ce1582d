/** The chain poller: a cursor over block numbers, and the confirmation scan of one block
    (internal/loadgen/chainpoller.go). */
module ChainPoller {
  import Collector
  import TxTracker

  const MAX_BLOCKS_PER_TICK: nat := 50

  datatype HeadRead = Head(number: nat) | Failed

  // ---------------------------------------------------------------- the cursor

  /** The last block a tick may scan. */
  function EndOf(next: nat, head: nat): nat
    requires next <= head
  {
    if head - next + 1 > MAX_BLOCKS_PER_TICK then next + MAX_BLOCKS_PER_TICK - 1 else head
  }

  /** A node's answer for one block: an error, "null" for a block it does not have, or the block
      with its transaction hashes. */
  datatype Answer = Error | Null | Block(hashes: seq<TxTracker.Hash>)

  /** The cursor after asking from `next` to `end`: it stops at the first error. A null answer is
      no error, so the cursor passes that block too. */
  function Advance(next: nat, end: nat, answer: nat -> Answer): (r: nat)
    requires next <= end + 1
    ensures next <= r <= end + 1
    ensures forall n :: next <= n < r ==> !answer(n).Error?
    ensures r <= end ==> answer(r).Error?
    decreases end + 1 - next
  {
    if next <= end && !answer(next).Error? then Advance(next + 1, end, answer) else next
  }

  function Tick(next: nat, head: HeadRead, answer: nat -> Answer): (r: nat)
    ensures next <= r
  {
    if head.Failed? || head.number < next then next else Advance(next, EndOf(next, head.number), answer)
  }

  /** The numbers from a to b, b excluded. */
  function Range(a: nat, b: nat): (s: seq<nat>)
    requires a <= b
    ensures |s| == b - a
  {
    seq(b - a, i requires 0 <= i => a + i)
  }

  /** The numbers from a to b, b excluded, that were answered with a block. */
  function ScannedIn(a: nat, b: nat, answer: nat -> Answer): seq<nat>
    requires a <= b
    decreases b - a
  {
    if a == b then [] else ScannedIn(a, b - 1, answer) + if answer(b - 1).Block? then [b - 1] else []
  }

  class Poller {
    var nextBlock: nat

    constructor (testStartBlock: nat)
      ensures nextBlock == testStartBlock + 1
    {
      nextBlock := testStartBlock + 1;
    }

    /** One tick. `answer` is what the node says about each block during it; the result lists the
        blocks whose transactions were scanned, in order. */
    method RunTick(head: HeadRead, answer: nat -> Answer) returns (scanned: seq<nat>)
      modifies this
      ensures nextBlock == Tick(old(nextBlock), head, answer)
      ensures scanned == ScannedIn(old(nextBlock), nextBlock, answer)
    {
      scanned := [];
      if head.Failed? || head.number < nextBlock { return; }
      var end := head.number;
      if end - nextBlock + 1 > MAX_BLOCKS_PER_TICK {
        end := nextBlock + MAX_BLOCKS_PER_TICK - 1;
      }
      var n := nextBlock;
      while n <= end
        invariant old(nextBlock) <= n == nextBlock <= end + 1
        invariant scanned == ScannedIn(old(nextBlock), nextBlock, answer)
        invariant Advance(n, end, answer) == Advance(old(nextBlock), end, answer)
        decreases end + 1 - n
      {
        var block := answer(n);
        if block.Error? { break; }
        if block.Block? {
          scanned := scanned + [n];
        }
        nextBlock := n + 1;
        n := n + 1;
      }
    }
  }

  // ---------------------------------------------------------------- runs of ticks

  datatype TickInput = TickInput(head: HeadRead, answer: nat -> Answer)

  function Cursor(start: nat, ticks: seq<TickInput>): (r: nat)
    ensures start <= r
  {
    if ticks == [] then start
    else
      var t := ticks[|ticks| - 1];
      Tick(Cursor(start, ticks[..|ticks| - 1]), t.head, t.answer)
  }

  /** The blocks that the ticks of a run scan, one after the other. */
  function Scanned(start: nat, ticks: seq<TickInput>): seq<nat> {
    if ticks == [] then []
    else
      var init, t := ticks[..|ticks| - 1], ticks[|ticks| - 1];
      var next := Cursor(start, init);
      Scanned(start, init) + ScannedIn(next, Tick(next, t.head, t.answer), t.answer)
  }

  /** What the node said about a block when the cursor passed it. */
  function AnswerAt(start: nat, ticks: seq<TickInput>, n: nat): Answer
    requires start <= n < Cursor(start, ticks)
  {
    var init, t := ticks[..|ticks| - 1], ticks[|ticks| - 1];
    if n < Cursor(start, init) then AnswerAt(start, init, n) else t.answer(n)
  }

  ghost predicate Ascending(s: seq<nat>) {
    forall i, j :: 0 <= i < j < |s| ==> s[i] < s[j]
  }

  lemma {:induction false} ScannedInMembers(a: nat, b: nat, answer: nat -> Answer)
    requires a <= b
    ensures Ascending(ScannedIn(a, b, answer))
    ensures forall n :: n in ScannedIn(a, b, answer) <==> a <= n < b && answer(n).Block?
    decreases b - a
  {
    if a < b {
      ScannedInMembers(a, b - 1, answer);
      var rest := ScannedIn(a, b - 1, answer);
      AscendingConcat(rest, if answer(b - 1).Block? then [b - 1] else [], b - 1);
      hide Ascending;
    }
  }

  lemma AscendingConcat(s: seq<nat>, t: seq<nat>, m: nat)
    requires Ascending(s) && Ascending(t) && (forall n :: n in s ==> n < m) && forall n :: n in t ==> m <= n
    ensures Ascending(s + t)
  {
    var r := s + t;
    forall i, j | 0 <= i < j < |r| ensures r[i] < r[j] {
      if i < |s| { assert r[i] in s; }
      if j >= |s| { assert r[j] in t; }
    }
  }

  /** Whatever heads are read, decreasing ones and failures included, and whatever the node
      answers: blocks are scanned in ascending order, none twice, and exactly those that the
      cursor has passed on a block and not on a null. */
  lemma {:induction false} ScannedIff(start: nat, ticks: seq<TickInput>)
    ensures Ascending(Scanned(start, ticks))
    ensures forall n :: n in Scanned(start, ticks) <==>
                        start <= n < Cursor(start, ticks) && AnswerAt(start, ticks, n).Block?
  {
    if ticks != [] {
      var init, t := ticks[..|ticks| - 1], ticks[|ticks| - 1];
      var next, r := Cursor(start, init), Cursor(start, ticks);
      ScannedIff(start, init);
      ScannedInMembers(next, r, t.answer);
      AscendingConcat(Scanned(start, init), ScannedIn(next, r, t.answer), next);
      assert forall n :: start <= n < r ==>
        AnswerAt(start, ticks, n) == if n < next then AnswerAt(start, init, n) else t.answer(n);
      hide Ascending, Tick, ScannedIn;
    }
  }

  lemma HasMember(s: seq<nat>)
    requires s != []
    ensures exists n :: n in s
  {
    assert s[0] in s;
  }

  lemma LastApart(s: seq<nat>, n: nat)
    requires Ascending(s) && s != []
    ensures n in s[..|s| - 1] <==> n in s && n < s[|s| - 1]
  {
    var k := |s| - 1;
    assert s == s[..k] + [s[k]];
    if n in s[..k] {
      var j :| 0 <= j < k && s[..k][j] == n;
      assert s[j] == n;
    }
  }

  lemma {:induction false} AscendingIsRange(s: seq<nat>, a: nat, b: nat)
    requires a <= b && Ascending(s) && forall n: nat :: n in s <==> a <= n < b
    ensures s == Range(a, b)
    decreases b - a
  {
    if a == b {
      if s != [] { HasMember(s); }
    } else {
      assert b - 1 in s;
      var k, init := |s| - 1, s[..|s| - 1];
      assert s[k] in s;
      var i :| 0 <= i < |s| && s[i] == b - 1;
      assert i == k;
      forall n: nat ensures n in init <==> a <= n < b - 1 {
        LastApart(s, n);
      }
      AscendingIsRange(init, a, b - 1);
      assert s == init + [b - 1];
    }
  }

  ghost predicate NoNull(start: nat, ticks: seq<TickInput>) {
    forall n :: start <= n < Cursor(start, ticks) ==> !AnswerAt(start, ticks, n).Null?
  }

  lemma ScannedAt(start: nat, ticks: seq<TickInput>, n: nat)
    requires start <= n < Cursor(start, ticks)
    ensures n in Scanned(start, ticks) <==> !AnswerAt(start, ticks, n).Null?
  {
    hide Scanned, Cursor, AnswerAt, Ascending;
    ScannedIff(start, ticks);
    NeverPastError(start, ticks, n);
  }

  lemma RangeHas(a: nat, b: nat, n: nat)
    requires a <= n < b
    ensures n in Range(a, b)
  {
    assert Range(a, b)[n - a] == n;
  }

  /** Scanning is without a gap, from the start to the cursor, if and only if no block that the
      cursor passed was answered with null. */
  lemma ContiguousIff(start: nat, ticks: seq<TickInput>)
    ensures Scanned(start, ticks) == Range(start, Cursor(start, ticks)) <==> NoNull(start, ticks)
  {
    hide Scanned, Cursor, AnswerAt, Ascending, Range;
    var s, r := Scanned(start, ticks), Cursor(start, ticks);
    if s == Range(start, r) {
      forall n | start <= n < r ensures !AnswerAt(start, ticks, n).Null? {
        ScannedAt(start, ticks, n);
        RangeHas(start, r, n);
      }
    }
    if NoNull(start, ticks) {
      ScannedIff(start, ticks);
      forall n: nat | start <= n < r ensures n in s {
        ScannedAt(start, ticks, n);
        assert !AnswerAt(start, ticks, n).Null?;
      }
      AscendingIsRange(s, start, r);
    }
  }

  /** The cursor never passes a block that it could not read. */
  lemma {:induction false} NeverPastError(start: nat, ticks: seq<TickInput>, n: nat)
    requires start <= n < Cursor(start, ticks)
    ensures !AnswerAt(start, ticks, n).Error?
  {
    if n < Cursor(start, ticks[..|ticks| - 1]) {
      NeverPastError(start, ticks[..|ticks| - 1], n);
    }
  }

  /** The cursor never comes back: a block that was passed without being scanned stays so. */
  lemma {:induction false} SkippedForever(start: nat, ticks: seq<TickInput>, more: seq<TickInput>, n: nat)
    requires start <= n < Cursor(start, ticks) && n !in Scanned(start, ticks)
    ensures n < Cursor(start, ticks + more) && n !in Scanned(start, ticks + more)
    decreases |more|
  {
    if more == [] {
      assert ticks + more == ticks;
    } else {
      var init, t := more[..|more| - 1], more[|more| - 1];
      SkippedForever(start, ticks, init, n);
      assert (ticks + more)[..|ticks + more| - 1] == ticks + init;
      var next := Cursor(start, ticks + init);
      ScannedInMembers(next, Tick(next, t.head, t.answer), t.answer);
    }
  }

  /** A run that skips a block: one node knows the head, the node asked for the block is behind. */
  lemma NullSkips(start: nat, more: seq<TickInput>)
    ensures var ticks := [TickInput(Head(start), n => Null)] + more;
            start < Cursor(start, ticks) && start !in Scanned(start, ticks)
  {
    var first := [TickInput(Head(start), n => Null)];
    var answer := first[0].answer;
    assert first[..0] == [];
    assert Advance(start, start, answer) == Advance(start + 1, start, answer) == start + 1;
    assert Cursor(start, first) == Tick(start, Head(start), answer) == start + 1;
    ScannedInMembers(start, start + 1, answer);
    assert start !in Scanned(start, first);
    SkippedForever(start, first, more, start);
  }

  /** A tick passes every block up to the head, at most fifty, or stops at one it cannot read. */
  lemma TickProgress(next: nat, head: nat, answer: nat -> Answer)
    requires next <= head
    ensures var r := Tick(next, Head(head), answer);
            && r <= next + 50 && r <= head + 1
            && (r == head + 1 || r == next + 50 || answer(r).Error?)
  {
  }

  ghost predicate Good(t: TickInput, head: nat) {
    t.head.Head? && t.head.number >= head && forall n: nat :: !t.answer(n).Error?
  }

  /** A poller that fell behind catches up by fifty blocks a tick while nothing fails. */
  lemma {:induction false} CatchUp(start: nat, ticks: seq<TickInput>, head: nat)
    requires forall k :: 0 <= k < |ticks| ==> Good(ticks[k], head)
    ensures Cursor(start, ticks) >= head + 1 || Cursor(start, ticks) >= start + 50 * |ticks|
  {
    if ticks != [] {
      var init, t := ticks[..|ticks| - 1], ticks[|ticks| - 1];
      CatchUp(start, init, head);
      assert Good(t, head);
      var next := Cursor(start, init);
      if next <= t.head.number {
        TickProgress(next, t.head.number, t.answer);
      }
    }
  }

  // ---------------------------------------------------------------- the confirmation scan

  function ScanHash(m: Collector.Metrics, hash: TxTracker.Hash, at: int, beyondTestEnd: bool): Collector.Metrics {
    if hash !in Collector.Tracked(m) then m
    else if beyondTestEnd then Collector.ConfirmedFlowOnly(m, hash)
    else Collector.Confirmed(m, hash, at)
  }

  function ScanHashes(m: Collector.Metrics, hashes: seq<TxTracker.Hash>, at: int, beyondTestEnd: bool)
    : Collector.Metrics
  {
    if hashes == [] then m
    else ScanHash(ScanHashes(m, hashes[..|hashes| - 1], at, beyondTestEnd), hashes[|hashes| - 1], at, beyondTestEnd)
  }

  function Matched(m: Collector.Metrics, hashes: seq<TxTracker.Hash>, at: int, beyondTestEnd: bool): nat {
    if hashes == [] then 0
    else
      var init := hashes[..|hashes| - 1];
      Matched(m, init, at, beyondTestEnd)
      + if hashes[|hashes| - 1] in Collector.Tracked(ScanHashes(m, init, at, beyondTestEnd)) then 1 else 0
  }

  function SubSaturating(x: nat, d: nat): nat { if x < d then 0 else x - d }

  /** The scan of one block's transaction hashes; `pending` is the generator's pending count. */
  method ScanBlock(c: Collector.MemoryCollector, hashes: seq<TxTracker.Hash>, at: int, beyondTestEnd: bool,
                   pending: nat)
    returns (matched: nat, pendingAfter: nat)
    requires c.Valid()
    modifies c, c.txTracker, c.flowTracker
    ensures c.Valid() && c.txTracker.insertOrder == old(c.txTracker.insertOrder)
    ensures c.State() == ScanHashes(old(c.State()), hashes, at, beyondTestEnd)
    ensures matched == Matched(old(c.State()), hashes, at, beyondTestEnd)
    ensures pendingAfter == if pending < matched then 0 else pending - matched
  {
    matched, pendingAfter := 0, pending;
    for i := 0 to |hashes|
      invariant c.Valid() && c.txTracker.insertOrder == old(c.txTracker.insertOrder)
      invariant c.State() == ScanHashes(old(c.State()), hashes[..i], at, beyondTestEnd)
      invariant matched == Matched(old(c.State()), hashes[..i], at, beyondTestEnd)
      invariant pendingAfter == SubSaturating(pending, matched)
    {
      var hash := hashes[i];
      assert hashes[..i + 1][..i] == hashes[..i];
      var sent := c.txTracker.GetSentTime(hash);
      if sent.Missing? { continue; }
      if beyondTestEnd {
        c.RecordTxConfirmedFlowOnly(hash);
      } else {
        c.RecordTxConfirmed(hash, at);
      }
      pendingAfter := SubSaturating(pendingAfter, 1);
      matched := matched + 1;
    }
    assert hashes[..|hashes|] == hashes;
  }

  /** What one block does: an error or a null changes nothing, and only the error is reported. */
  method ScanBlockForConfirmations(c: Collector.MemoryCollector, answer: Answer, at: int, beyondTestEnd: bool,
                                   pending: nat)
    returns (ok: bool, pendingAfter: nat)
    requires c.Valid()
    modifies c, c.txTracker, c.flowTracker
    ensures c.Valid() && c.txTracker.insertOrder == old(c.txTracker.insertOrder)
    ensures ok <==> !answer.Error?
    ensures !answer.Block? ==> c.State() == old(c.State()) && pendingAfter == pending
    ensures answer.Block? ==>
              && c.State() == ScanHashes(old(c.State()), answer.hashes, at, beyondTestEnd)
              && pendingAfter == SubSaturating(pending, Matched(old(c.State()), answer.hashes, at, beyondTestEnd))
  {
    if answer.Error? { return false, pending; }
    if answer.Null? { return true, pending; }
    var _, after := ScanBlock(c, answer.hashes, at, beyondTestEnd, pending);
    return true, after;
  }

  function SetOf(hashes: seq<TxTracker.Hash>): set<TxTracker.Hash> { set h | h in hashes }

  /** The confirmed stages recorded so far: each counts for one pattern. */
  function FlowsEnded(m: Collector.Metrics): nat {
    m.flows.counters.direct + m.flows.counters.pending + m.flows.counters.preconf
  }

  lemma ScanHashEffect(m: Collector.Metrics, hash: TxTracker.Hash, at: int, beyondTestEnd: bool)
    ensures var after := ScanHash(m, hash, at, beyondTestEnd);
            && Collector.Tracked(after) == Collector.Tracked(m) - {hash}
            && after.confirmed == m.confirmed + (if hash in Collector.Tracked(m) && !beyondTestEnd then 1 else 0)
            && |after.latencies| - |m.latencies| == after.confirmed - m.confirmed
            && FlowsEnded(after) == FlowsEnded(m) + if hash in Collector.Tracked(m) then 1 else 0
  {
    assert TxTracker.Delete(m.tracker, hash).times.Keys == Collector.Tracked(m) - {hash};
  }

  lemma MatchOne(tracked: set<TxTracker.Hash>, done: set<TxTracker.Hash>, h: TxTracker.Hash)
    ensures tracked - done - {h} == tracked - (done + {h})
    ensures |tracked * (done + {h})| == |tracked * done| + if h in tracked - done then 1 else 0
  {
    if h in tracked - done {
      assert tracked * (done + {h}) == tracked * done + {h};
    } else {
      assert tracked * (done + {h}) == tracked * done;
    }
  }

  /** A block matches exactly the tracked hashes in it, each once however often it is listed;
      they leave the tracker and end their flows as confirmed, and only inside the test's blocks
      are they counted and timed. */
  lemma {:induction false} ScanMatchesTracked(m: Collector.Metrics, hashes: seq<TxTracker.Hash>, at: int,
                                              beyondTestEnd: bool)
    ensures var after := ScanHashes(m, hashes, at, beyondTestEnd);
            && Collector.Tracked(after) == Collector.Tracked(m) - SetOf(hashes)
            && Matched(m, hashes, at, beyondTestEnd) == |Collector.Tracked(m) * SetOf(hashes)|
            && after.confirmed == m.confirmed + (if beyondTestEnd then 0 else |Collector.Tracked(m) * SetOf(hashes)|)
            && |after.latencies| - |m.latencies| == after.confirmed - m.confirmed
            && FlowsEnded(after) == FlowsEnded(m) + |Collector.Tracked(m) * SetOf(hashes)|
  {
    if hashes == [] {
      assert SetOf(hashes) == {};
      assert Collector.Tracked(m) * {} == {};
    } else {
      var init, h := hashes[..|hashes| - 1], hashes[|hashes| - 1];
      ScanMatchesTracked(m, init, at, beyondTestEnd);
      assert hashes == init + [h];
      assert SetOf(hashes) == SetOf(init) + {h};
      ScanHashEffect(ScanHashes(m, init, at, beyondTestEnd), h, at, beyondTestEnd);
      MatchOne(Collector.Tracked(m), SetOf(init), h);
    }
  }
}

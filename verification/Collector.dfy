/** The metrics collector's accounting of sends, confirmations and discards
    (internal/metrics/collector.go). */
module Collector {
  import TxTracker
  import FlowTracker
  import opened Numbers

  type Hash = TxTracker.Hash

  /** `latencies` are the samples added to the confirmation latency statistics. */
  datatype Metrics = Metrics(tracker: TxTracker.Tracker, flows: FlowTracker.Flows,
                             confirmed: nat, failed: nat, latencies: seq<int>)

  /** A duration in nanoseconds as whole milliseconds, truncated towards zero. */
  function Milliseconds(d: int): int { if d >= 0 then d / 1_000_000 else -((-d) / 1_000_000) }

  function Flow(m: Metrics, hash: Hash, stage: FlowTracker.Stage): Metrics {
    m.(flows := FlowTracker.RecordEntry(m.flows, hash, stage))
  }

  function Sent(m: Metrics, hash: Hash, at: int): Metrics
    requires TxTracker.Sized(m.tracker)
  {
    Flow(m.(tracker := TxTracker.Record(m.tracker, hash, at)), hash, FlowTracker.Sent)
  }

  function Confirmed(m: Metrics, hash: Hash, at: int): Metrics {
    var hit := TxTracker.Get(m.tracker, hash);
    var counted := if hit.Found?
                   then m.(confirmed := m.confirmed + 1, latencies := m.latencies + [Milliseconds(at - hit.time)])
                   else m;
    Flow(counted.(tracker := TxTracker.Delete(m.tracker, hash)), hash, FlowTracker.Confirmed)
  }

  function ConfirmedFlowOnly(m: Metrics, hash: Hash): Metrics {
    Flow(m.(tracker := TxTracker.Delete(m.tracker, hash)), hash, FlowTracker.Confirmed)
  }

  function Discarded(m: Metrics, hash: Hash): Metrics {
    m.(tracker := TxTracker.Delete(m.tracker, hash))
  }

  // ---------------------------------------------------------------- the object

  class MemoryCollector {
    const txTracker: TxTracker.TxTracker
    const flowTracker: FlowTracker.TxFlowTracker
    var txConfirmed: nat
    var txFailed: nat
    var latencySamples: seq<int>

    ghost predicate Valid() reads this, txTracker, txTracker.insertOrder, flowTracker {
      txTracker.Valid()
    }

    ghost function State(): Metrics reads this, txTracker, txTracker.insertOrder, flowTracker {
      Metrics(txTracker.State(), flowTracker.State(), txConfirmed, txFailed, latencySamples)
    }

    constructor (maxSize: pos, evictBatch: nat)
      ensures Valid() && fresh(txTracker) && fresh(txTracker.insertOrder) && fresh(flowTracker)
      ensures State() == Metrics(TxTracker.Empty(maxSize, evictBatch), FlowTracker.NO_FLOWS, 0, 0, [])
    {
      txTracker := new TxTracker.TxTracker(maxSize, evictBatch);
      flowTracker := new FlowTracker.TxFlowTracker();
      txConfirmed, txFailed, latencySamples := 0, 0, [];
    }

    method RecordTxSent(txHash: Hash, sentTime: int)
      requires Valid()
      modifies txTracker, txTracker.insertOrder, flowTracker
      ensures Valid() && txTracker.insertOrder == old(txTracker.insertOrder)
      ensures State() == Sent(old(State()), txHash, sentTime)
    {
      txTracker.Set(txHash, sentTime);
      flowTracker.RecordStage(txHash, FlowTracker.Sent);
    }

    method RecordTxConfirmed(txHash: Hash, confirmTime: int)
      requires Valid()
      modifies this, txTracker, flowTracker
      ensures Valid() && txTracker.insertOrder == old(txTracker.insertOrder)
      ensures State() == Confirmed(old(State()), txHash, confirmTime)
    {
      var r := txTracker.GetAndDelete(txHash);
      if r.Missing? {
        flowTracker.RecordStage(txHash, FlowTracker.Confirmed);
        return;
      }
      latencySamples := latencySamples + [Milliseconds(confirmTime - r.time)];
      txConfirmed := txConfirmed + 1;
      flowTracker.RecordStage(txHash, FlowTracker.Confirmed);
    }

    method RecordTxConfirmedFlowOnly(txHash: Hash)
      requires Valid()
      modifies txTracker, flowTracker
      ensures Valid() && txTracker.insertOrder == old(txTracker.insertOrder)
      ensures State() == ConfirmedFlowOnly(old(State()), txHash)
    {
      var _ := txTracker.GetAndDelete(txHash);
      flowTracker.RecordStage(txHash, FlowTracker.Confirmed);
    }

    method RecordTxFailed()
      modifies this
      ensures State() == old(State()).(failed := old(txFailed) + 1)
    {
      txFailed := txFailed + 1;
    }

    method DiscardTx(txHash: Hash)
      requires Valid()
      modifies txTracker
      ensures Valid() && txTracker.insertOrder == old(txTracker.insertOrder)
      ensures State() == Discarded(old(State()), txHash)
    {
      var _ := txTracker.GetAndDelete(txHash);
    }
  }

  // ---------------------------------------------------------------- conservation

  datatype Event =
    | SendEvent(hash: Hash, at: int)
    | ConfirmEvent(hash: Hash, at: int)
    | FlowOnlyEvent(hash: Hash)
    | DiscardEvent(hash: Hash)
    | FailEvent

  /** The metrics together with what became of each send. A hash may be sent again, so every
      fate is a multiset. `replaced` are the sends whose entry was still tracked when the hash
      was sent again. */
  datatype Books = Books(metrics: Metrics, sent: multiset<Hash>, confirmed: multiset<Hash>,
                         flowOnly: multiset<Hash>, discarded: multiset<Hash>,
                         evicted: multiset<Hash>, replaced: multiset<Hash>)

  function Tracked(m: Metrics): set<Hash> { m.tracker.times.Keys }

  /** A lookup that removes an entry moves its hash; one that misses moves nothing. */
  function Hit(m: Metrics, hash: Hash): multiset<Hash> {
    if hash in Tracked(m) then multiset{hash} else multiset{}
  }

  /** The hashes tracked once the tracker has made room for the next one. */
  function Kept(m: Metrics): (r: set<Hash>)
    requires TxTracker.Sized(m.tracker)
    ensures r <= Tracked(m)
  {
    TxTracker.MakeRoom(m.tracker).times.Keys
  }

  function Step(b: Books, e: Event): (r: Books)
    requires TxTracker.Sized(b.metrics.tracker)
    ensures TxTracker.Sized(r.metrics.tracker)
  {
    var m := b.metrics;
    match e
    case SendEvent(hash, at) =>
      var m', kept := Sent(m, hash, at), Kept(m);
      b.(metrics := m', sent := b.sent + multiset{hash},
         evicted := b.evicted + multiset(Tracked(m) - kept) + multiset(kept + {hash} - Tracked(m')),
         replaced := b.replaced + if hash in kept then multiset{hash} else multiset{})
    case ConfirmEvent(hash, at) =>
      b.(metrics := Confirmed(m, hash, at), confirmed := b.confirmed + Hit(m, hash))
    case FlowOnlyEvent(hash) =>
      b.(metrics := ConfirmedFlowOnly(m, hash), flowOnly := b.flowOnly + Hit(m, hash))
    case DiscardEvent(hash) =>
      b.(metrics := Discarded(m, hash), discarded := b.discarded + Hit(m, hash))
    case FailEvent =>
      b.(metrics := m.(failed := m.failed + 1))
  }

  function Run(maxSize: pos, evictBatch: nat, events: seq<Event>): (r: Books)
    ensures TxTracker.Sized(r.metrics.tracker)
    decreases |events|
  {
    if events == []
    then Books(Metrics(TxTracker.Empty(maxSize, evictBatch), FlowTracker.NO_FLOWS, 0, 0, []),
               multiset{}, multiset{}, multiset{}, multiset{}, multiset{}, multiset{})
    else Step(Run(maxSize, evictBatch, events[..|events| - 1]), events[|events| - 1])
  }

  lemma RunNext(maxSize: pos, evictBatch: nat, events: seq<Event>, e: Event)
    ensures Run(maxSize, evictBatch, events + [e]) == Step(Run(maxSize, evictBatch, events), e)
  {
    hide Step;
    assert (events + [e])[..|events|] == events;
  }

  /** What the events ask of the tracker. */
  function Ops(events: seq<Event>): seq<TxTracker.Op> {
    if events == [] then []
    else
      Ops(events[..|events| - 1]) + match events[|events| - 1]
                                    case SendEvent(hash, at) => [TxTracker.SetOp(hash, at)]
                                    case FailEvent => []
                                    case e => [TxTracker.DeleteOp(e.hash)]
  }

  /** The hashes sent, in order. */
  function Sends(events: seq<Event>): seq<Hash> { TxTracker.Sent(Ops(events)) }

  lemma LastSend(events: seq<Event>)
    requires events != []
    ensures var init, e := events[..|events| - 1], events[|events| - 1];
            Sends(events) == Sends(init) + if e.SendEvent? then [e.hash] else []
  {
    var init, e := Ops(events[..|events| - 1]), events[|events| - 1];
    if e.SendEvent? {
      assert (init + [TxTracker.SetOp(e.hash, e.at)])[..|init|] == init;
    } else if e.FailEvent? {
      assert init + [] == init;
    } else {
      assert (init + [TxTracker.DeleteOp(e.hash)])[..|init|] == init;
    }
  }

  // ---------------------------------------------------------------- the balance

  /** The sends of a hash that are accounted for: its entry, if it is tracked, and its fates. */
  function Accounted(b: Books, h: Hash): nat {
    (if h in Tracked(b.metrics) then 1 else 0)
    + b.confirmed[h] + b.flowOnly[h] + b.discarded[h] + b.evicted[h] + b.replaced[h]
  }

  /** Every send is still tracked or has met exactly one fate. */
  ghost predicate Balanced(b: Books) {
    && (forall h :: b.sent[h] == Accounted(b, h))
    && (forall h :: b.replaced[h] > 0 ==> b.replaced[h] < b.sent[h])
    && |b.confirmed| == b.metrics.confirmed == |b.metrics.latencies|
  }

  lemma SendTracks(m: Metrics, hash: Hash, at: int)
    requires TxTracker.Sized(m.tracker)
    ensures Tracked(Sent(m, hash, at)) <= Kept(m) + {hash}
    ensures Sent(m, hash, at).confirmed == m.confirmed && Sent(m, hash, at).latencies == m.latencies
  {
    hide TxTracker.MakeRoom;
  }

  lemma SendAccounts(b: Books, hash: Hash, at: int, h: Hash)
    requires TxTracker.Sized(b.metrics.tracker)
    ensures var r := Step(b, SendEvent(hash, at));
            && r.sent[h] - b.sent[h] == Accounted(r, h) - Accounted(b, h) == (if h == hash then 1 else 0)
            && r.replaced[h] == b.replaced[h] + (if h == hash && h in Kept(b.metrics) then 1 else 0)
  {
    var m, r := b.metrics, Step(b, SendEvent(hash, at));
    var t, kept, t' := Tracked(m), Kept(m), Tracked(r.metrics);
    SendTracks(m, hash, at);
    assert r == b.(metrics := r.metrics, sent := b.sent + multiset{hash},
                   evicted := b.evicted + multiset(t - kept) + multiset(kept + {hash} - t'),
                   replaced := b.replaced + if hash in kept then multiset{hash} else multiset{});
    assert multiset(t - kept)[h] == (if h in t && h !in kept then 1 else 0);
    assert multiset(kept + {hash} - t')[h] == (if (h in kept || h == hash) && h !in t' then 1 else 0);
    hide Step, Sent, Kept, Tracked;
  }

  lemma SendBalances(b: Books, hash: Hash, at: int)
    requires TxTracker.Sized(b.metrics.tracker) && Balanced(b)
    ensures Balanced(Step(b, SendEvent(hash, at)))
  {
    var r := Step(b, SendEvent(hash, at));
    SendTracks(b.metrics, hash, at);
    assert r.metrics.confirmed == b.metrics.confirmed && r.metrics.latencies == b.metrics.latencies
        && r.confirmed == b.confirmed;
    hide Step, Sent;
    forall h
      ensures r.sent[h] == Accounted(r, h) && (r.replaced[h] > 0 ==> r.replaced[h] < r.sent[h])
    {
      SendAccounts(b, hash, at, h);
      assert b.sent[h] == Accounted(b, h);
    }
  }

  /** What a confirmation, a flow-only confirmation and a discard share. */
  lemma RemoveEffect(b: Books, e: Event)
    requires TxTracker.Sized(b.metrics.tracker) && !e.SendEvent? && !e.FailEvent?
    ensures var r, hit := Step(b, e), Hit(b.metrics, e.hash);
            && Tracked(r.metrics) == Tracked(b.metrics) - {e.hash}
            && r.confirmed == b.confirmed + (if e.ConfirmEvent? then hit else multiset{})
            && r.metrics.confirmed == b.metrics.confirmed + (if e.ConfirmEvent? then |hit| else 0)
            && |r.metrics.latencies| == |b.metrics.latencies| + (if e.ConfirmEvent? then |hit| else 0)
  {
    assert TxTracker.Delete(b.metrics.tracker, e.hash).times.Keys == Tracked(b.metrics) - {e.hash};
    assert b.confirmed + multiset{} == b.confirmed;
  }

  lemma RemoveAccounts(b: Books, e: Event, h: Hash)
    requires TxTracker.Sized(b.metrics.tracker) && !e.SendEvent? && !e.FailEvent?
    ensures var r := Step(b, e);
            r.sent == b.sent && r.replaced == b.replaced && Accounted(r, h) == Accounted(b, h)
  {
    RemoveEffect(b, e);
    hide Confirmed, ConfirmedFlowOnly, Discarded, Tracked;
  }

  lemma RemoveBalances(b: Books, e: Event)
    requires TxTracker.Sized(b.metrics.tracker) && Balanced(b) && !e.SendEvent? && !e.FailEvent?
    ensures Balanced(Step(b, e))
  {
    var r := Step(b, e);
    RemoveEffect(b, e);
    RemoveAccounts(b, e, 0);
    hide Step, Accounted;
    forall h ensures r.sent[h] == Accounted(r, h) {
      RemoveAccounts(b, e, h);
    }
  }

  lemma StepBalances(b: Books, e: Event)
    requires TxTracker.Sized(b.metrics.tracker) && Balanced(b)
    ensures Balanced(Step(b, e))
  {
    if e.SendEvent? { SendBalances(b, e.hash, e.at); }
    else if !e.FailEvent? { RemoveBalances(b, e); }
  }

  lemma {:induction false} RunBalances(maxSize: pos, evictBatch: nat, events: seq<Event>)
    ensures var b := Run(maxSize, evictBatch, events);
            Balanced(b) && b.sent == multiset(Sends(events))
    decreases |events|
  {
    if events != [] {
      var init, e := events[..|events| - 1], events[|events| - 1];
      RunBalances(maxSize, evictBatch, init);
      StepBalances(Run(maxSize, evictBatch, init), e);
      LastSend(events);
      assert Step(Run(maxSize, evictBatch, init), e).sent ==
             Run(maxSize, evictBatch, init).sent + if e.SendEvent? then multiset{e.hash} else multiset{};
      hide Step, Balanced, Sends;
      assert multiset(Sends(init) + if e.SendEvent? then [e.hash] else [])
          == multiset(Sends(init)) + if e.SendEvent? then multiset{e.hash} else multiset{};
    }
  }

  /** Nothing is lost or counted twice, in any run: the sends are those still tracked, plus the
      counted confirmations, plus those confirmed for the flow only, discarded, evicted, and
      replaced by a later send of the same hash. Hash by hash, confirmations and the entry
      still tracked never exceed the sends. */
  lemma Conservation(maxSize: pos, evictBatch: nat, events: seq<Event>)
    ensures var b := Run(maxSize, evictBatch, events);
            && |Sends(events)| == |b.metrics.tracker.times| + b.metrics.confirmed
                                  + |b.flowOnly| + |b.discarded| + |b.evicted| + |b.replaced|
            && |b.metrics.latencies| == b.metrics.confirmed == |b.confirmed|
            && forall h :: b.confirmed[h] + (if h in Tracked(b.metrics) then 1 else 0) <= multiset(Sends(events))[h]
  {
    hide Run, Sends;
    var b := Run(maxSize, evictBatch, events);
    RunBalances(maxSize, evictBatch, events);
    CountFates(b);
    assert |multiset(Sends(events))| == |Sends(events)|;
    forall h ensures b.confirmed[h] + (if h in Tracked(b.metrics) then 1 else 0) <= b.sent[h] {
      assert b.sent[h] == Accounted(b, h);
    }
  }

  lemma CountFates(b: Books)
    requires forall h :: b.sent[h] == Accounted(b, h)
    ensures |b.sent| == |b.metrics.tracker.times|
                        + |b.confirmed| + |b.flowOnly| + |b.discarded| + |b.evicted| + |b.replaced|
  {
    var t := Tracked(b.metrics);
    var all := multiset(t) + b.confirmed + b.flowOnly + b.discarded + b.evicted + b.replaced;
    assert all == b.sent by {
      forall h ensures all[h] == b.sent[h] { assert b.sent[h] == Accounted(b, h); }
    }
    assert |multiset(t)| == |t| == |b.metrics.tracker.times|;
  }

  // ---------------------------------------------------------------- fates

  ghost predicate SentIn(events: seq<Event>, h: Hash) {
    exists i :: 0 <= i < |events| && events[i].SendEvent? && events[i].hash == h
  }

  lemma UntrackedStep(b: Books, e: Event, h: Hash)
    requires TxTracker.Sized(b.metrics.tracker) && h !in Tracked(b.metrics)
    requires !(e.SendEvent? && e.hash == h)
    ensures h !in Tracked(Step(b, e).metrics) && Step(b, e).confirmed[h] == b.confirmed[h]
  {
    if e.SendEvent? { SendTracks(b.metrics, e.hash, e.at); }
    else if !e.FailEvent? { RemoveEffect(b, e); }
    hide Sent, Confirmed, ConfirmedFlowOnly, Discarded, Kept;
  }

  /** A hash that is not tracked is not counted until it is sent again, whatever became of it:
      never sent, confirmed, discarded or evicted. */
  lemma {:induction false} UncountedUntilSent(maxSize: pos, evictBatch: nat, before: seq<Event>, after: seq<Event>,
                                              h: Hash)
    requires h !in Tracked(Run(maxSize, evictBatch, before).metrics) && !SentIn(after, h)
    ensures var b, c := Run(maxSize, evictBatch, before), Run(maxSize, evictBatch, before + after);
            h !in Tracked(c.metrics) && c.confirmed[h] == b.confirmed[h]
    decreases |after|
  {
    if after == [] {
      assert before + after == before;
    } else {
      var init, e := after[..|after| - 1], after[|after| - 1];
      LastEvent(before, after, h);
      hide Run, SentIn, Tracked;
      UncountedUntilSent(maxSize, evictBatch, before, init, h);
      RunNext(maxSize, evictBatch, before + init, e);
      UntrackedStep(Run(maxSize, evictBatch, before + init), e, h);
      hide Step;
    }
  }

  lemma LastEvent(before: seq<Event>, after: seq<Event>, h: Hash)
    requires after != [] && !SentIn(after, h)
    ensures var init, e := after[..|after| - 1], after[|after| - 1];
            before + after == before + init + [e] && !SentIn(init, h) && !(e.SendEvent? && e.hash == h)
  {
    assert forall i :: 0 <= i < |after| - 1 ==> after[i] == after[..|after| - 1][i];
  }

  /** Every transaction is recorded as sent once. */
  ghost predicate SentOnce(events: seq<Event>) {
    forall h :: multiset(Sends(events))[h] <= 1
  }

  /** Of hashes that are sent once each is tracked or has exactly one fate, and none is
      replaced. */
  lemma DistinctFates(maxSize: pos, evictBatch: nat, events: seq<Event>, h: Hash)
    requires SentOnce(events) && h in Sends(events)
    ensures var b := Run(maxSize, evictBatch, events);
            && (if h in Tracked(b.metrics) then 1 else 0)
               + b.confirmed[h] + b.flowOnly[h] + b.discarded[h] + b.evicted[h] == 1
            && b.replaced[h] == 0
  {
    hide Run, Sends;
    var b := Run(maxSize, evictBatch, events);
    RunBalances(maxSize, evictBatch, events);
    assert h in multiset(Sends(events)) && b.sent[h] == 1 == Accounted(b, h);
  }

  function SentHash(e: Event): seq<Hash> { if e.SendEvent? then [e.hash] else [] }

  lemma SendsNext(events: seq<Event>, e: Event)
    ensures Sends(events + [e]) == Sends(events) + SentHash(e)
  {
    hide Sends;
    assert (events + [e])[..|events|] == events;
    LastSend(events + [e]);
  }

  lemma {:induction false} SendsAppend(before: seq<Event>, after: seq<Event>)
    ensures Sends(before + after) == Sends(before) + Sends(after)
    decreases |after|
  {
    if after == [] {
      assert before + after == before;
    } else {
      hide Sends;
      var init, e := after[..|after| - 1], after[|after| - 1];
      SendsAppend(before, init);
      assert after == init + [e] && before + after == before + init + [e];
      SendsNext(before + init, e);
      SendsNext(init, e);
      hide SentHash;
    }
  }

  lemma {:induction false} SentInSends(events: seq<Event>, h: Hash)
    ensures SentIn(events, h) <==> h in Sends(events)
  {
    if events != [] {
      var init, e := events[..|events| - 1], events[|events| - 1];
      SentInSends(init, h);
      LastSend(events);
      assert forall i :: 0 <= i < |init| ==> events[i] == init[i];
    }
  }

  /** What has become of a hash is final when every transaction is sent once: one that was
      discarded, evicted or confirmed at some point is never counted as confirmed after it. So
      a nonce-too-low submission, which is discarded and counted as failed, stays out of the
      confirmations although its hash may still appear on the chain. */
  lemma FatesAreFinal(maxSize: pos, evictBatch: nat, before: seq<Event>, after: seq<Event>, h: Hash)
    requires SentOnce(before + after)
    requires var b := Run(maxSize, evictBatch, before);
             h in b.discarded || h in b.confirmed || h in b.flowOnly || h in b.evicted
    ensures var b, c := Run(maxSize, evictBatch, before), Run(maxSize, evictBatch, before + after);
            h !in Tracked(c.metrics) && c.confirmed[h] == b.confirmed[h]
  {
    hide Run, Sends;
    var b := Run(maxSize, evictBatch, before);
    RunBalances(maxSize, evictBatch, before);
    SendsAppend(before, after);
    assert multiset(Sends(before) + Sends(after)) == multiset(Sends(before)) + multiset(Sends(after));
    assert b.sent[h] == Accounted(b, h);
    assert multiset(Sends(before + after))[h] <= 1;
    assert b.sent[h] == 1 && multiset(Sends(after))[h] == 0;
    SentInSends(after, h);
    assert h in Sends(after) ==> h in multiset(Sends(after));
    UncountedUntilSent(maxSize, evictBatch, before, after, h);
  }

  /** When the same transaction is sent again, exactly how it is counted again: the next
      confirmation counts if and only if the tracker's next slot does not still hold the hash
      from before. */
  lemma CountedAgainIff(maxSize: pos, evictBatch: nat, before: seq<Event>, h: Hash, sent: int, at: int)
    requires h != TxTracker.EMPTY
    ensures var b := Run(maxSize, evictBatch, before);
            var c := Run(maxSize, evictBatch, before + [SendEvent(h, sent)] + [ConfirmEvent(h, at)]);
            c.confirmed[h] == b.confirmed[h]
            + if TxTracker.Queue(TxTracker.MakeRoom(b.metrics.tracker))[0] != h then 1 else 0
  {
    RunNext(maxSize, evictBatch, before, SendEvent(h, sent));
    RunNext(maxSize, evictBatch, before + [SendEvent(h, sent)], ConfirmEvent(h, at));
    var b := Run(maxSize, evictBatch, before);
    hide Run, TxTracker.MakeRoom, TxTracker.Queue;
    RecordedTracks(b.metrics.tracker, h, sent);
    assert Step(b, SendEvent(h, sent)).metrics.tracker == TxTracker.Record(b.metrics.tracker, h, sent);
    hide TxTracker.Record;
  }

  lemma RecordedTracks(t: TxTracker.Tracker, h: Hash, time: int)
    requires TxTracker.Sized(t) && h != TxTracker.EMPTY
    ensures h in TxTracker.Record(t, h, time).times <==> TxTracker.Queue(TxTracker.MakeRoom(t))[0] != h
  {
    TxTracker.RecordQueue(t, h, time);
    hide TxTracker.Record, TxTracker.MakeRoom, TxTracker.Queue;
  }

  // ---------------------------------------------------------------- against the tracker's window

  lemma {:induction false} TrackerIsRun(maxSize: pos, evictBatch: nat, events: seq<Event>)
    ensures Run(maxSize, evictBatch, events).metrics.tracker == TxTracker.Run(maxSize, evictBatch, Ops(events))
    decreases |events|
  {
    if events != [] {
      var init, e := events[..|events| - 1], events[|events| - 1];
      TrackerIsRun(maxSize, evictBatch, init);
      var b, ops := Run(maxSize, evictBatch, init), Ops(init);
      StepTracker(b, e);
      hide Step;
      if e.SendEvent? {
        TxTracker.RunNext(maxSize, evictBatch, ops, TxTracker.SetOp(e.hash, e.at));
      } else if e.FailEvent? {
        assert ops + [] == ops;
      } else {
        TxTracker.RunNext(maxSize, evictBatch, ops, TxTracker.DeleteOp(e.hash));
      }
    }
  }

  lemma StepTracker(b: Books, e: Event)
    requires TxTracker.Sized(b.metrics.tracker)
    ensures Step(b, e).metrics.tracker ==
            match e
            case SendEvent(hash, at) => TxTracker.Record(b.metrics.tracker, hash, at)
            case FailEvent => b.metrics.tracker
            case _ => TxTracker.Delete(b.metrics.tracker, e.hash)
  {
    hide TxTracker.Record;
  }

  /** A confirmation is never missed for the latest sends: one within the tracker's window
      that has met no other fate is counted, with the latency since its send, unless a slot of
      an earlier send of the same hash was taken over after it. */
  lemma RecentSendCounts(maxSize: pos, evictBatch: nat, events: seq<Event>, k: nat, at: int)
    requires TxTracker.EMPTY !in Sends(events)
    requires k < |Sends(events)| && |Sends(events)| - TxTracker.Window(maxSize, evictBatch) <= k
    requires TxTracker.Clean(Sends(events), maxSize, k)
    requires Sends(events)[k] in TxTracker.Unbounded(Ops(events))
    ensures var b, h := Run(maxSize, evictBatch, events), Sends(events)[k];
            var c := Step(b, ConfirmEvent(h, at));
            && c.metrics.confirmed == b.metrics.confirmed + 1
            && c.metrics.latencies == b.metrics.latencies + [Milliseconds(at - TxTracker.Unbounded(Ops(events))[h])]
  {
    hide Run, Step, TxTracker.Run, TxTracker.Unbounded, TxTracker.Window, TxTracker.Clean;
    TrackerIsRun(maxSize, evictBatch, events);
    TxTracker.AgreesWithUnbounded(maxSize, evictBatch, Ops(events));
    ConfirmHit(Run(maxSize, evictBatch, events), Sends(events)[k], at);
  }

  lemma ConfirmHit(b: Books, h: Hash, at: int)
    requires TxTracker.Sized(b.metrics.tracker) && TxTracker.Get(b.metrics.tracker, h).Found?
    ensures var c, sent := Step(b, ConfirmEvent(h, at)), TxTracker.Get(b.metrics.tracker, h).time;
            && c.metrics.confirmed == b.metrics.confirmed + 1
            && c.metrics.latencies == b.metrics.latencies + [Milliseconds(at - sent)]
  {
  }

  // ---------------------------------------------------------------- flows and times

  /** A duration's whole milliseconds: what is left over is less than one, and has its sign. */
  lemma MillisecondsTruncate(d: int)
    ensures var ms := Milliseconds(d);
            if d >= 0 then ms * 1_000_000 <= d < (ms + 1) * 1_000_000 else (ms - 1) * 1_000_000 < d <= ms * 1_000_000
  {
  }

  /** The stages that the events stand for: a send, or a confirmation of either kind. */
  function Stages(events: seq<Event>): seq<FlowTracker.Entry>
    decreases |events|
  {
    if events == [] then []
    else
      Stages(events[..|events| - 1]) + match events[|events| - 1]
                                       case SendEvent(hash, _) => [FlowTracker.Entry(hash, FlowTracker.Sent)]
                                       case ConfirmEvent(hash, _) => [FlowTracker.Entry(hash, FlowTracker.Confirmed)]
                                       case FlowOnlyEvent(hash) => [FlowTracker.Entry(hash, FlowTracker.Confirmed)]
                                       case _ => []
  }

  /** How many confirmations of either kind there were, and how many failed sends. */
  function Confirmations(events: seq<Event>): nat
    decreases |events|
  {
    if events == [] then 0
    else
      var e := events[|events| - 1];
      Confirmations(events[..|events| - 1]) + if e.ConfirmEvent? || e.FlowOnlyEvent? then 1 else 0
  }

  function Failures(events: seq<Event>): nat
    decreases |events|
  {
    if events == [] then 0
    else Failures(events[..|events| - 1]) + if events[|events| - 1].FailEvent? then 1 else 0
  }

  lemma StepFlows(b: Books, e: Event)
    requires TxTracker.Sized(b.metrics.tracker)
    ensures var m, n := b.metrics, Step(b, e).metrics;
            && n.flows == (match e
                           case SendEvent(hash, _) => FlowTracker.RecordEntry(m.flows, hash, FlowTracker.Sent)
                           case ConfirmEvent(hash, _) => FlowTracker.RecordEntry(m.flows, hash, FlowTracker.Confirmed)
                           case FlowOnlyEvent(hash) => FlowTracker.RecordEntry(m.flows, hash, FlowTracker.Confirmed)
                           case _ => m.flows)
            && n.failed == m.failed + if e.FailEvent? then 1 else 0
  {
    hide TxTracker.Record, FlowTracker.RecordEntry;
  }

  /** The flows are those of the stages, and only failed sends count as failed. */
  lemma {:induction false} FlowsFollow(maxSize: pos, evictBatch: nat, events: seq<Event>)
    ensures var m := Run(maxSize, evictBatch, events).metrics;
            m.flows == FlowTracker.Run(Stages(events)) && m.failed == Failures(events)
    decreases |events|
  {
    if events != [] {
      var init, e := events[..|events| - 1], events[|events| - 1];
      FlowsFollow(maxSize, evictBatch, init);
      StepFlows(Run(maxSize, evictBatch, init), e);
      var all, last := Stages(events), Stages(init);
      hide Step, FlowTracker.RecordEntry;
      if e.SendEvent? || e.ConfirmEvent? || e.FlowOnlyEvent? {
        assert all[..|last|] == last;
      } else {
        assert all == last;
      }
    }
  }

  lemma {:induction false} NoDetours(events: seq<Event>, hash: Hash)
    ensures forall s :: s in FlowTracker.Since(Stages(events), hash) ==> s == FlowTracker.Sent
    decreases |events|
  {
    if events != [] {
      var init := events[..|events| - 1];
      NoDetours(init, hash);
      var all, last := Stages(events), Stages(init);
      assert all == last || all[..|last|] == last;
    }
  }

  lemma {:induction false} ConfirmedDirectly(events: seq<Event>)
    ensures var h := Stages(events);
            && FlowTracker.CountStage(h, FlowTracker.Confirmed) == Confirmations(events)
            && FlowTracker.Confirmations(h, FlowTracker.Direct) == Confirmations(events)
            && FlowTracker.CountStage(h, FlowTracker.Failed) == 0 && FlowTracker.AfterRequeue(h) == 0
    decreases |events|
  {
    if events != [] {
      var init, e := events[..|events| - 1], events[|events| - 1];
      ConfirmedDirectly(init);
      var all, last := Stages(events), Stages(init);
      if e.ConfirmEvent? || e.FlowOnlyEvent? {
        NoDetours(init, e.hash);
        OneMore(last, e.hash, FlowTracker.Confirmed);
      } else if e.SendEvent? {
        OneMore(last, e.hash, FlowTracker.Sent);
      } else {
        assert all == last;
      }
      hide FlowTracker.CountStage, FlowTracker.Confirmations, FlowTracker.AfterRequeue, FlowTracker.Since;
    }
  }

  /** What one more stage adds to the counts, for a flow of sends alone. */
  lemma OneMore(h: seq<FlowTracker.Entry>, hash: Hash, stage: FlowTracker.Stage)
    requires forall s :: s in FlowTracker.Since(h, hash) ==> s == FlowTracker.Sent || stage.Sent?
    requires stage.Sent? || stage.Confirmed?
    ensures var all, one := h + [FlowTracker.Entry(hash, stage)], if stage.Confirmed? then 1 else 0;
            && FlowTracker.CountStage(all, FlowTracker.Confirmed)
               == FlowTracker.CountStage(h, FlowTracker.Confirmed) + one
            && FlowTracker.Confirmations(all, FlowTracker.Direct)
               == FlowTracker.Confirmations(h, FlowTracker.Direct) + one
            && FlowTracker.CountStage(all, FlowTracker.Failed) == FlowTracker.CountStage(h, FlowTracker.Failed)
            && FlowTracker.AfterRequeue(all) == FlowTracker.AfterRequeue(h)
  {
    assert (h + [FlowTracker.Entry(hash, stage)])[..|h|] == h;
    hide FlowTracker.Since;
  }

  /** What the flow counters of sends and confirmations are: every confirmation, counted or for the
      flow only, of a tracked hash or not, is a direct one. */
  lemma FlowCounters(maxSize: pos, evictBatch: nat, events: seq<Event>)
    ensures var c := Run(maxSize, evictBatch, events).metrics.flows.counters;
            && c.direct == Confirmations(events) && c.pending == c.preconf == c.droppedRequeued == 0
            && c.revoked == c.failed == 0
  {
    FlowsFollow(maxSize, evictBatch, events);
    FlowTracker.PatternCounters(Stages(events));
    ConfirmedDirectly(events);
    hide Run, FlowTracker.Run, Stages, FlowTracker.Confirmations, FlowTracker.CountStage, FlowTracker.AfterRequeue;
  }

  /** Every counted confirmation is timed from the latest send of its hash, whatever was evicted,
      deleted or sent again before. */
  lemma HitsAreTimed(maxSize: pos, evictBatch: nat, events: seq<Event>, h: Hash, at: int)
    requires TxTracker.EMPTY !in Sends(events)
    requires h in Tracked(Run(maxSize, evictBatch, events).metrics)
    ensures var b, m := Run(maxSize, evictBatch, events), TxTracker.Unbounded(Ops(events));
            && h in m
            && Step(b, ConfirmEvent(h, at)).metrics.latencies == b.metrics.latencies + [Milliseconds(at - m[h])]
  {
    hide Run, Step, TxTracker.Run, TxTracker.Unbounded;
    TrackerIsRun(maxSize, evictBatch, events);
    TxTracker.AgreesWithUnbounded(maxSize, evictBatch, Ops(events));
    ConfirmHit(Run(maxSize, evictBatch, events), h, at);
  }
}

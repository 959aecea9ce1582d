/** The stage-flow tracker: per transaction the stages since its last terminal one, and
    counters over the flows that end in a confirmation (internal/metrics/txflow.go).
    Timestamps of transitions are not used by any counter and are left out. */
module FlowTracker {
  import TxTracker

  type Hash = TxTracker.Hash

  datatype Stage = Sent | Pending | Preconfirmed | Confirmed | Dropped | Requeued | Revoked | Failed

  predicate Terminal(s: Stage) { s.Confirmed? || s.Failed? || s.Dropped? || s.Revoked? }

  datatype Counters = Counters(totalTracked: nat, direct: nat, pending: nat, preconf: nat,
                               droppedRequeued: nat, revoked: nat, failed: nat, totalStages: nat)

  datatype Flows = Flows(live: map<Hash, seq<Stage>>, counters: Counters)

  const NO_FLOWS := Flows(map[], Counters(0, 0, 0, 0, 0, 0, 0, 0))

  // ---------------------------------------------------------------- one record

  /** The counters after a confirmation that ends the given flow. */
  function CountConfirmed(c: Counters, flow: seq<Stage>): Counters {
    var c1 := if Dropped in flow || Requeued in flow then c.(droppedRequeued := c.droppedRequeued + 1) else c;
    var c2 := if Revoked in flow then c1.(revoked := c1.revoked + 1) else c1;
    if Preconfirmed in flow then c2.(preconf := c2.preconf + 1)
    else if Pending in flow then c2.(pending := c2.pending + 1)
    else c2.(direct := c2.direct + 1)
  }

  function StagesOf(f: Flows, hash: Hash): seq<Stage> { if hash in f.live then f.live[hash] else [] }

  function Extended(f: Flows, hash: Hash): Counters {
    f.counters.(totalTracked := f.counters.totalTracked + (if hash in f.live then 0 else 1),
                totalStages := f.counters.totalStages + 1)
  }

  function RecordEntry(f: Flows, hash: Hash, stage: Stage): Flows {
    var flow := StagesOf(f, hash) + [stage];
    var c := Extended(f, hash);
    if stage.Confirmed? then Flows(f.live - {hash}, CountConfirmed(c, flow))
    else if stage.Failed? then Flows(f.live - {hash}, c.(failed := c.failed + 1))
    else if Terminal(stage) then Flows(f.live - {hash}, c)
    else Flows(f.live[hash := flow], c)
  }

  // ---------------------------------------------------------------- the object

  class TxFlowTracker {
    var flows: map<Hash, seq<Stage>>
    var totalTracked: nat
    var directConfirmed: nat
    var pendingConfirmed: nat
    var preconfConfirmed: nat
    var droppedRequeued: nat
    var revokedFlow: nat
    var failedFlow: nat
    var totalStages: nat

    function State(): Flows reads this {
      Flows(flows, Counters(totalTracked, directConfirmed, pendingConfirmed, preconfConfirmed,
                            droppedRequeued, revokedFlow, failedFlow, totalStages))
    }

    constructor ()
      ensures State() == NO_FLOWS
    {
      flows := map[];
      totalTracked, directConfirmed, pendingConfirmed, preconfConfirmed := 0, 0, 0, 0;
      droppedRequeued, revokedFlow, failedFlow, totalStages := 0, 0, 0, 0;
    }

    static method HasStage(stages: seq<Stage>, stage: Stage) returns (has: bool)
      ensures has <==> stage in stages
    {
      for i := 0 to |stages|
        invariant stage !in stages[..i]
      {
        if stages[i] == stage { return true; }
      }
      has := false;
    }

    method RecordStage(hash: Hash, stage: Stage)
      modifies this
      ensures State() == RecordEntry(old(State()), hash, stage)
    {
      ghost var before := State();
      AppendStage(hash, stage);
      assert flows - {hash} == before.live - {hash};
      match stage {
        case Confirmed =>
          UpdateConfirmedCounters(hash);
          flows := flows - {hash};
        case Failed =>
          failedFlow := failedFlow + 1;
          flows := flows - {hash};
        case Dropped => flows := flows - {hash};
        case Revoked => flows := flows - {hash};
        case _ =>
      }
    }

    /** The first part of RecordStage: the transition joins its flow, or starts one. */
    method AppendStage(hash: Hash, stage: Stage)
      modifies this
      ensures flows == old(flows)[hash := StagesOf(old(State()), hash) + [stage]]
      ensures State().counters == Extended(old(State()), hash)
    {
      if hash in flows {
        flows := flows[hash := flows[hash] + [stage]];
      } else {
        flows := flows[hash := [] + [stage]];
        totalTracked := totalTracked + 1;
      }
      totalStages := totalStages + 1;
    }

    method UpdateConfirmedCounters(hash: Hash)
      modifies this
      ensures flows == old(flows)
      ensures State().counters ==
              if hash in flows then CountConfirmed(old(State()).counters, flows[hash]) else old(State()).counters
    {
      if hash !in flows { return; }
      var flow := flows[hash];
      var hasPending := HasStage(flow, Pending);
      var hasPreconf := HasStage(flow, Preconfirmed);
      var hasDropped := HasStage(flow, Dropped);
      var hasRequeued := HasStage(flow, Requeued);
      var hasRevoked := HasStage(flow, Revoked);
      if hasDropped || hasRequeued { droppedRequeued := droppedRequeued + 1; }
      if hasRevoked { revokedFlow := revokedFlow + 1; }
      if hasPreconf {
        preconfConfirmed := preconfConfirmed + 1;
      } else if hasPending {
        pendingConfirmed := pendingConfirmed + 1;
      } else {
        directConfirmed := directConfirmed + 1;
      }
    }
  }

  // ---------------------------------------------------------------- against the history

  datatype Entry = Entry(hash: Hash, stage: Stage)

  function Run(history: seq<Entry>): Flows
    decreases |history|
  {
    if history == [] then NO_FLOWS
    else
      var e := history[|history| - 1];
      RecordEntry(Run(history[..|history| - 1]), e.hash, e.stage)
  }

  /** The stages recorded for a hash since its last terminal stage. */
  function Since(history: seq<Entry>, hash: Hash): seq<Stage>
    decreases |history|
  {
    if history == [] then []
    else
      var init, e := history[..|history| - 1], history[|history| - 1];
      if e.hash != hash then Since(init, hash)
      else if Terminal(e.stage) then []
      else Since(init, hash) + [e.stage]
  }

  datatype Pattern = Direct | ThroughPending | ThroughPreconf

  function PatternOf(stages: seq<Stage>): Pattern {
    if Preconfirmed in stages then ThroughPreconf
    else if Pending in stages then ThroughPending
    else Direct
  }

  /** How many entries of a history are confirmations of the pattern. */
  function Confirmations(history: seq<Entry>, p: Pattern): nat
    decreases |history|
  {
    if history == [] then 0
    else
      var init, e := history[..|history| - 1], history[|history| - 1];
      Confirmations(init, p) + if e.stage.Confirmed? && PatternOf(Since(init, e.hash)) == p then 1 else 0
  }

  /** How many confirmations came after a requeue of the same flow. */
  function AfterRequeue(history: seq<Entry>): nat
    decreases |history|
  {
    if history == [] then 0
    else
      var init, e := history[..|history| - 1], history[|history| - 1];
      AfterRequeue(init) + if e.stage.Confirmed? && Requeued in Since(init, e.hash) then 1 else 0
  }

  function Terminals(history: seq<Entry>): nat
    decreases |history|
  {
    if history == [] then 0
    else Terminals(history[..|history| - 1]) + if Terminal(history[|history| - 1].stage) then 1 else 0
  }

  function CountStage(history: seq<Entry>, stage: Stage): nat
    decreases |history|
  {
    if history == [] then 0
    else CountStage(history[..|history| - 1], stage) + if history[|history| - 1].stage == stage then 1 else 0
  }

  lemma {:induction false} SinceOpen(history: seq<Entry>, hash: Hash)
    ensures forall s :: s in Since(history, hash) ==> !Terminal(s)
    decreases |history|
  {
    if history != [] { SinceOpen(history[..|history| - 1], hash); }
  }

  /** The tracker's live flows are exactly the non-empty open flows of the history. */
  lemma {:induction false} LiveIsSince(history: seq<Entry>)
    ensures forall h :: h in Run(history).live <==> Since(history, h) != []
    ensures forall h :: h in Run(history).live ==> Run(history).live[h] == Since(history, h)
    decreases |history|
  {
    if history != [] { LiveIsSince(history[..|history| - 1]); }
  }

  /** A confirmation moves the counter of exactly one pattern: that of the flow it ends. */
  lemma ConfirmedStep(c: Counters, flow: seq<Stage>)
    requires forall s :: s in flow ==> !Terminal(s)
    ensures var d, p := CountConfirmed(c, flow + [Confirmed]), PatternOf(flow);
            && d.direct == c.direct + (if p == Direct then 1 else 0)
            && d.pending == c.pending + (if p == ThroughPending then 1 else 0)
            && d.preconf == c.preconf + (if p == ThroughPreconf then 1 else 0)
            && d.droppedRequeued == c.droppedRequeued + (if Requeued in flow then 1 else 0)
            && d.revoked == c.revoked && d.failed == c.failed
            && d.totalTracked == c.totalTracked && d.totalStages == c.totalStages
  {
    InFlow(flow, Confirmed);
    assert Dropped !in flow && Revoked !in flow;
  }

  /** Each confirmation is in exactly one of the three patterns, decided by what was recorded
      since the hash's last terminal stage. Drops and revocations end a flow themselves, so
      the revoked counter never leaves zero and the dropped-or-requeued one counts requeues. */
  lemma {:induction false} PatternCounters(history: seq<Entry>)
    ensures var c := Run(history).counters;
            && c.direct == Confirmations(history, Direct)
            && c.pending == Confirmations(history, ThroughPending)
            && c.preconf == Confirmations(history, ThroughPreconf)
            && c.direct + c.pending + c.preconf == CountStage(history, Confirmed)
            && c.failed == CountStage(history, Failed)
            && c.revoked == 0
            && c.droppedRequeued == AfterRequeue(history)
            && c.totalStages == |history|
    decreases |history|
  {
    if history != [] {
      var init, e := history[..|history| - 1], history[|history| - 1];
      PatternCounters(init);
      LiveIsSince(init);
      SinceOpen(init, e.hash);
      assert StagesOf(Run(init), e.hash) == Since(init, e.hash);
      if e.stage == Confirmed { ConfirmedStep(Extended(Run(init), e.hash), Since(init, e.hash)); }
    }
  }

  lemma LiveFlowsOpen(history: seq<Entry>)
    ensures forall h, s :: h in Run(history).live && s in Run(history).live[h] ==> !Terminal(s)
  {
    hide Run, Since;
    LiveIsSince(history);
    forall h, s | h in Run(history).live && s in Run(history).live[h] ensures !Terminal(s) {
      SinceOpen(history, h);
    }
  }

  lemma TrackedStep(f: Flows, e: Entry)
    ensures var g := RecordEntry(f, e.hash, e.stage);
            && g.counters.totalTracked == f.counters.totalTracked + (if e.hash in f.live then 0 else 1)
            && g.live == if Terminal(e.stage) then f.live - {e.hash}
                         else f.live[e.hash := StagesOf(f, e.hash) + [e.stage]]
  {
    hide StagesOf;
  }

  /** Every flow ever tracked is still live or has ended in a terminal record, and no live
      flow holds a terminal stage. */
  lemma {:induction false} TrackedFlows(history: seq<Entry>)
    ensures Run(history).counters.totalTracked == |Run(history).live| + Terminals(history)
    ensures forall h, s :: h in Run(history).live && s in Run(history).live[h] ==> !Terminal(s)
    decreases |history|
  {
    if history != [] {
      var init, e := history[..|history| - 1], history[|history| - 1];
      TrackedFlows(init);
      LiveSize(Run(init).live, e.hash, StagesOf(Run(init), e.hash) + [e.stage]);
      TrackedStep(Run(init), e);
    }
    LiveFlowsOpen(history);
    hide RecordEntry;
  }

  lemma InFlow(flow: seq<Stage>, stage: Stage)
    ensures forall s :: s in flow + [stage] <==> s in flow || s == stage
  {
  }

  lemma LiveSize(m: map<Hash, seq<Stage>>, hash: Hash, flow: seq<Stage>)
    ensures |m[hash := flow]| == |m| + if hash in m then 0 else 1
    ensures |m - {hash}| == |m| - if hash in m then 1 else 0
  {
    assert m[hash := flow].Keys == m.Keys + {hash};
    assert (m - {hash}).Keys == m.Keys - {hash};
    assert |m[hash := flow]| == |m[hash := flow].Keys| && |m - {hash}| == |(m - {hash}).Keys|;
    assert |m| == |m.Keys|;
  }
}

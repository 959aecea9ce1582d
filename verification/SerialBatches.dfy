/** Pipeline depth one: the worker waits for every acknowledgement before it fills the next
    batch (internal/loadgen/workers.go).  Then batches of the account never overlap, and the
    nonces inside each one ascend whatever is rolled back and resynced on the way. */
module SerialBatches {
  import opened NonceAllocator
  import Runs = NonceRuns
  import opened SenderProtocol

  function Value(s: State, id: nat): nat
    requires id < |s.ledger.handles|
  {
    s.ledger.handles[id].value
  }

  ghost predicate Exist(s: State, ids: seq<nat>) {
    forall k :: 0 <= k < |ids| ==> ids[k] < |s.ledger.handles|
  }

  ghost predicate AscendingValues(s: State, ids: seq<nat>) {
    && Exist(s, ids)
    && forall i, j :: 0 <= i < j < |ids| ==> Value(s, ids[i]) < Value(s, ids[j])
  }

  /** Everything the account may still hand out lies above n. */
  ghost predicate PoolAbove(s: State, n: nat) {
    forall m :: m in Pool(s.ledger.alloc) ==> n < m
  }

  predicate Filling(s: State) { s.pc.Fill? || s.pc.Holding? || s.pc.Ready? || s.pc.Queueing? }

  ghost predicate Serial(s: State) {
    && AscendingValues(s, s.batch)
    && (forall b :: 0 <= b < |s.flights| ==> AscendingValues(s, s.flights[b].ids))
    && (Filling(s) ==> forall k :: 0 <= k < |s.batch| ==> PoolAbove(s, Value(s, s.batch[k])))
    && (s.pc.Holding? ==>
          && s.pc.id < |s.ledger.handles|
          && PoolAbove(s, Value(s, s.pc.id))
          && forall k :: 0 <= k < |s.batch| ==> Value(s, s.batch[k]) < Value(s, s.pc.id))
  }

  /** Outside the wait for its batch the worker finds every callback of every batch done. */
  lemma NothingInFlight(c: Config, s: State)
    requires Inv(s) && Flow(c, s) && c.depth <= 1 && Undisturbed(s) && !s.pc.Awaiting?
    ensures forall b :: 0 <= b < |s.flights| ==> !Running(s.flights[b]) && !IsUnacked(s.flights[b])
  {
    forall b | 0 <= b < |s.flights| ensures !Running(s.flights[b]) && !IsUnacked(s.flights[b]) {
      assert WaiterMatches(s, s.flights[b]) && AcksMatch(s.flights[b]);
      assert !IsWaiting(s.flights[b]);
    }
  }

  // ---------------------------------------------------------------- preservation

  lemma SameValues(s: State, t: State, ids: seq<nat>)
    requires Exist(s, ids) && Runs.Later(s.ledger, t.ledger)
    ensures Exist(t, ids) && forall k :: 0 <= k < |ids| ==> Value(t, ids[k]) == Value(s, ids[k])
    ensures AscendingValues(s, ids) ==> AscendingValues(t, ids)
  {
  }

  /** The batches themselves never change their values. */
  lemma FlightsStayAscending(c: Config, s: State, e: Event)
    requires Serial(s) && !(e.Queue? && Enabled(c, s, e))
    ensures var t := Step(c, s, e);
            |t.flights| == |s.flights| && forall b :: 0 <= b < |t.flights| ==> AscendingValues(t, t.flights[b].ids)
  {
    var t := Step(c, s, e);
    LedgerOnlyGrows(c, s, e);
    if Enabled(c, s, e) && TouchesFlight(e) { FlightStepFrame(c, s, e); }
    else if Enabled(c, s, e) { WorkerStepFrame(c, s, e); }
    forall b | 0 <= b < |t.flights| ensures AscendingValues(t, t.flights[b].ids) {
      assert t.flights[b].ids == s.flights[b].ids;
      SameValues(s, t, s.flights[b].ids);
    }
  }

  lemma SerialTake(c: Config, s: State)
    requires Inv(s) && Serial(s) && Enabled(c, s, Take)
    ensures Serial(Step(c, s, Take))
  {
    var t := Step(c, s, Take);
    ReserveExtractsMinimum(s.ledger.alloc);
    LedgerOnlyGrows(c, s, Take);
    SameValues(s, t, s.batch);
    FlightsStayAscending(c, s, Take);
    forall k | 0 <= k < |t.batch| ensures PoolAbove(t, Value(t, t.batch[k])) {
      assert PoolAbove(s, Value(s, s.batch[k]));
    }
  }

  lemma SerialKeep(c: Config, s: State)
    requires Inv(s) && Serial(s) && Enabled(c, s, Keep)
    ensures Serial(Step(c, s, Keep))
  {
    FlightsStayAscending(c, s, Keep);
  }

  /** A build failure or an expired linger puts the held nonce back above the batch. */
  lemma SerialRollback(c: Config, s: State, e: Event)
    requires Inv(s) && Serial(s) && Enabled(c, s, e) && (e.Abandon? || e.Linger? || e.Quit?)
    ensures Serial(Step(c, s, e))
  {
    var t, id := Step(c, s, e), s.pc.id;
    FlightsStayAscending(c, s, e);
    LedgerOnlyGrows(c, s, e);
    SameValues(s, t, s.batch);
    SettlesLive(c, s, e);
    assert Runs.Held(s.ledger.handles[id]);
    RollbackInserts(s.ledger.alloc, Value(s, id));
    assert t.ledger.alloc == Rollback(s.ledger.alloc, Value(s, id));
    forall k | 0 <= k < |t.batch| ensures PoolAbove(t, Value(t, t.batch[k])) {
      assert PoolAbove(s, Value(s, s.batch[k]));
    }
  }

  lemma SerialResync(c: Config, s: State, chain: nat, plain: bool)
    requires Inv(s) && Serial(s)
    ensures Serial(Step(c, s, Resync(chain, plain)))
  {
    var e := Resync(chain, plain);
    var t := Step(c, s, e);
    FlightsStayAscending(c, s, e);
    LedgerOnlyGrows(c, s, e);
    SameValues(s, t, s.batch);
    ResyncPools(s.ledger.alloc, chain);
    assert forall m :: m in Pool(t.ledger.alloc) ==> m in Pool(s.ledger.alloc);
    forall n: nat | PoolAbove(s, n) ensures PoolAbove(t, n) {}
    assert Filling(t) ==> forall k :: 0 <= k < |t.batch| ==> PoolAbove(s, Value(s, s.batch[k]));
  }

  lemma SerialQueue(c: Config, s: State)
    requires Inv(s) && Serial(s) && Enabled(c, s, Queue)
    ensures Serial(Step(c, s, Queue))
  {
    var t := Step(c, s, Queue);
    assert t.ledger == s.ledger;
    forall b | 0 <= b < |t.flights| ensures AscendingValues(t, t.flights[b].ids) {
      if b < |s.flights| {
        SameValues(s, t, s.flights[b].ids);
      } else {
        SameValues(s, t, s.batch);
      }
    }
  }

  lemma RestFrame(c: Config, s: State, e: Event)
    requires Enabled(c, s, e)
    requires !e.Take? && !e.Keep? && !e.Abandon? && !e.Linger? && !e.Quit? && !e.Resync? && !e.Queue?
    requires Filling(s) ==> !e.Callback?
    requires s.pc.Top? ==> s.batch == []
    ensures var t := Step(c, s, e);
            && (t.batch == s.batch || t.batch == [])
            && (Filling(t) ==> t.ledger == s.ledger && (Filling(s) || t.batch == []))
            && (t.pc.Holding? ==> t.pc == s.pc)
  {
  }

  /** Steps that are never taken while a batch is being filled, or that keep the ledger. */
  lemma SerialRest(c: Config, s: State, e: Event)
    requires Serial(s) && Enabled(c, s, e)
    requires !e.Take? && !e.Keep? && !e.Abandon? && !e.Linger? && !e.Quit? && !e.Resync? && !e.Queue?
    requires Filling(s) ==> !e.Callback?
    requires s.pc.Top? ==> s.batch == []
    ensures Serial(Step(c, s, e))
  {
    var t := Step(c, s, e);
    FlightsStayAscending(c, s, e);
    LedgerOnlyGrows(c, s, e);
    SameValues(s, t, s.batch);
    RestFrame(c, s, e);
    hide Step, Runs.Later, AscendingValues, Exist;
    if Filling(t) {
      forall k | 0 <= k < |t.batch| ensures PoolAbove(t, Value(t, t.batch[k])) {
        assert PoolAbove(s, Value(s, s.batch[k]));
      }
    }
  }

  lemma StepKeepsSerial(c: Config, s: State, e: Event)
    requires c.depth <= 1 && Inv(s) && Flow(c, s) && Serial(s) && Undisturbed(s)
    ensures Serial(Step(c, s, e))
  {
    if !Enabled(c, s, e) { return; }
    if e.Callback? && Filling(s) {
      NothingInFlight(c, s);
      assert false;
    }
    match e
    case Take => SerialTake(c, s);
    case Keep => SerialKeep(c, s);
    case Abandon => SerialRollback(c, s, e);
    case Linger => SerialRollback(c, s, e);
    case Quit => SerialRollback(c, s, e);
    case Resync(chain, plain) => SerialResync(c, s, chain, plain);
    case Queue => SerialQueue(c, s);
    case _ => SerialRest(c, s, e);
  }

  lemma UndisturbedBefore(c: Config, s: State, e: Event)
    requires Undisturbed(Step(c, s, e))
    ensures Undisturbed(s)
  {
  }

  // ---------------------------------------------------------------- results over whole runs

  /** When the worker starts a batch, no nonce of the account is live: every earlier one is
      committed or back in the allocator. */
  lemma NoneLiveAtBatchStart(c: Config, chain: nat, events: seq<Event>)
    requires c.depth == 1
    ensures var s := Run(c, Start(chain), events);
            Undisturbed(s) && (s.pc.Top? || s.pc.Fill?) && s.batch == []
            ==> forall id: nat :: !IsLive(s, id)
  {
    var s := Run(c, Start(chain), events);
    RunKeepsFlow(c, chain, events);
    if Undisturbed(s) && (s.pc.Top? || s.pc.Fill?) && s.batch == [] {
      NothingInFlight(c, s);
      assert forall b :: 0 <= b < |s.flights| ==> PlacedAt(s.place, s.flights[b], b);
    }
  }

  lemma {:induction false} RunKeepsSerial(c: Config, chain: nat, events: seq<Event>)
    requires c.depth == 1 && Undisturbed(Run(c, Start(chain), events))
    ensures Serial(Run(c, Start(chain), events))
    decreases |events|
  {
    if events != [] {
      var init, e := events[..|events| - 1], events[|events| - 1];
      var s := Run(c, Start(chain), init);
      UndisturbedBefore(c, s, e);
      RunKeepsSerial(c, chain, init);
      RunKeepsFlow(c, chain, init);
      StepKeepsSerial(c, s, e);
    }
  }

  /** Every batch that was ever queued, and the one being filled, carries strictly ascending
      nonces, however many builds failed and lingers expired, whatever resyncs ran meanwhile. */
  lemma BatchesAscend(c: Config, chain: nat, events: seq<Event>)
    requires c.depth == 1 && Undisturbed(Run(c, Start(chain), events))
    ensures var s := Run(c, Start(chain), events);
            && AscendingValues(s, s.batch)
            && forall b :: 0 <= b < |s.flights| ==> AscendingValues(s, s.flights[b].ids)
  {
    RunKeepsSerial(c, chain, events);
  }

  // ---------------------------------------------------------------- deeper pipelines

  lemma RunExtends(c: Config, s: State, events: seq<Event>, e: Event)
    ensures Run(c, s, events + [e]) == Step(c, Run(c, s, events), e)
  {
    assert (events + [e])[..|events|] == events;
  }

  /** The worker with the first k nonces of the account in its batch. */
  function Filled(chain: nat, k: nat): State {
    Start(chain).(
      ledger := Runs.Ledger(Allocator(chain + k, []),
                            seq(k, i requires 0 <= i => Runs.Handle(chain + i, Runs.Live)), chain),
      pc := Fill, batch := seq(k, i requires 0 <= i => i), place := seq(k, i requires 0 <= i => InBatch(i)))
  }

  lemma FillOne(c: Config, chain: nat, events: seq<Event>, k: nat)
    requires Run(c, Start(chain), events) == Filled(chain, k) && k < BATCH_SIZE
    ensures Run(c, Start(chain), events + [Take] + [Keep]) == Filled(chain, k + 1)
  {
    RunExtends(c, Start(chain), events, Take);
    RunExtends(c, Start(chain), events + [Take], Keep);
    TakeNext(c, chain, k);
    KeepNext(c, chain, k);
    hide Run, Step, Filled;
  }

  lemma TakeNext(c: Config, chain: nat, k: nat)
    requires k < BATCH_SIZE
    ensures var s, f := Filled(chain, k), Filled(chain, k + 1);
            Step(c, s, Take) == s.(ledger := f.ledger, place := s.place + [InHand], pc := Holding(k))
  {
    var s := Step(c, Filled(chain, k), Take);
    assert s.ledger.handles == Filled(chain, k + 1).ledger.handles;
  }

  lemma KeepNext(c: Config, chain: nat, k: nat)
    ensures var s, f := Filled(chain, k), Filled(chain, k + 1);
            Step(c, s.(ledger := f.ledger, place := s.place + [InHand], pc := Holding(k)), Keep) == f
  {
    var s, f := Filled(chain, k), Filled(chain, k + 1);
    var t := Step(c, s.(ledger := f.ledger, place := s.place + [InHand], pc := Holding(k)), Keep);
    assert t.batch == f.batch;
    assert t.place == f.place;
  }

  lemma {:induction false} FillBatch(c: Config, chain: nat, k: nat) returns (events: seq<Event>)
    requires k <= BATCH_SIZE
    ensures Run(c, Start(chain), events) == Filled(chain, k)
  {
    if k == 0 {
      events := [Loop];
      RunExtends(c, Start(chain), [], Loop);
      assert [] + [Loop] == [Loop];
      assert Filled(chain, 0).batch == [];
    } else {
      events := FillBatch(c, chain, k - 1);
      FillOne(c, chain, events, k - 1);
      events := events + [Take] + [Keep];
    }
  }

  /** A worker may put twenty nonces into a batch, and no batch ever holds more, or none. */
  lemma BatchLimit(c: Config, chain: nat, events: seq<Event>) returns (full: seq<Event>)
    ensures var s := Run(c, Start(chain), events);
            |s.batch| <= 20 && forall b :: 0 <= b < |s.flights| ==> 1 <= |s.flights[b].ids| <= 20
    ensures |Run(c, Start(chain), full).batch| == 20
  {
    RunKeepsFlow(c, chain, events);
    hide Run;
    full := FillBatch(c, chain, 20);
  }

  /** The account's first nonce in flight, and the worker on its way to the next batch. */
  function FirstInFlight(chain: nat, pc: Pc): State {
    State(Runs.Ledger(Allocator(chain + 1, []), [Runs.Handle(chain, Runs.Live)], chain),
          pc, [], [Batch([0], 0, false, 0, 0, Waiting(1), false)], 1, 1, 0, false, false, [InFlight(0, 0)])
  }

  lemma QueueFirst(c: Config, chain: nat, s: State)
    requires c.depth > 1 && c.capacity > 0 && s == Filled(chain, 1).(pc := Queueing(true), permits := 1)
    ensures Step(c, s, Queue) == FirstInFlight(chain, Top)
  {
    assert s.batch == [0] && s.place == [InBatch(0)] && s.ledger.handles == [Runs.Handle(chain, Runs.Live)];
    assert [0][..0] == [] && Launch([InBatch(0)], [], 0) == [InBatch(0)];
  }

  lemma FirstBatchQueued(c: Config, chain: nat) returns (events: seq<Event>)
    requires c.depth > 1 && c.capacity > 0
    ensures Run(c, Start(chain), events) == FirstInFlight(chain, Fill)
  {
    var s0 := Start(chain);
    RunExtends(c, s0, [], Loop);
    var e := [] + [Loop];
    assert Run(c, s0, e) == Filled(chain, 0);
    FillOne(c, chain, e, 0);
    e := e + [Take] + [Keep];
    RunExtends(c, s0, e, EndFill);
    e := e + [EndFill];
    assert Run(c, s0, e) == Filled(chain, 1).(pc := Ready);
    RunExtends(c, s0, e, GetPermit);
    e := e + [GetPermit];
    RunExtends(c, s0, e, Queue);
    QueueFirst(c, chain, Run(c, s0, e));
    e := e + [Queue];
    RunExtends(c, s0, e, Loop);
    events := e + [Loop];
  }

  /** The second batch holds the next nonce when the first one is refused and comes back. */
  function FirstReturned(chain: nat): State {
    State(Runs.Ledger(Allocator(chain + 2, [chain]),
                      [Runs.Handle(chain, Runs.Returned), Runs.Handle(chain + 1, Runs.Live)], chain),
          Fill, [1], [Batch([0], 0, true, 0, 0, Waiting(1), false)], 1, 1, 0, false, false,
          [Settled(ByCallback(0, 0)), InBatch(0)])
  }

  lemma FailFirst(c: Config, chain: nat)
    ensures Step(c, Step(c, Step(c, FirstInFlight(chain, Fill), Take), Keep), Callback(0, Error(false, false)))
         == FirstReturned(chain)
  {
    var s := Step(c, FirstInFlight(chain, Fill), Take);
    assert s.ledger.handles == [Runs.Handle(chain, Runs.Live), Runs.Handle(chain + 1, Runs.Live)];
    var t := Step(c, s, Keep);
    assert t.place == [InFlight(0, 0), InBatch(0)] && t.batch == [1];
    assert Insert([], chain) == [chain];
  }

  lemma ReuseFirst(c: Config, chain: nat)
    ensures var s := Step(c, Step(c, FirstReturned(chain), Take), Keep);
            Undisturbed(s) && s.batch == [1, 2] && |s.ledger.handles| == 3
            && Value(s, 1) == chain + 1 && Value(s, 2) == chain
  {
  }

  /** With more than one batch in flight a callback may return a low nonce while the next
      batch is being filled, and that batch then descends. */
  lemma DeeperPipelineDescends(c: Config, chain: nat) returns (events: seq<Event>)
    requires c.depth > 1 && c.capacity > 0
    ensures Undisturbed(Run(c, Start(chain), events))
    ensures !AscendingValues(Run(c, Start(chain), events), Run(c, Start(chain), events).batch)
  {
    var fail := Callback(0, Error(false, false));
    var e0 := FirstBatchQueued(c, chain);
    RunExtendsThrice(c, Start(chain), e0, Take, Keep, fail);
    FailFirst(c, chain);
    var e1 := e0 + [Take] + [Keep] + [fail];
    RunExtends(c, Start(chain), e1, Take);
    RunExtends(c, Start(chain), e1 + [Take], Keep);
    ReuseFirst(c, chain);
    events := e1 + [Take] + [Keep];
    var s := Run(c, Start(chain), events);
    assert !(Value(s, s.batch[0]) < Value(s, s.batch[1]));
  }

  lemma RunExtendsThrice(c: Config, s: State, events: seq<Event>, e: Event, f: Event, g: Event)
    ensures Run(c, s, events + [e] + [f] + [g]) == Step(c, Step(c, Step(c, Run(c, s, events), e), f), g)
  {
    RunExtends(c, s, events, e);
    RunExtends(c, s, events + [e], f);
    RunExtends(c, s, events + [e] + [f], g);
  }

  /** Strict serialisation is exactly what makes batches ascend. */
  lemma BatchesAscendIffSerial(c: Config, chain: nat)
    requires c.depth >= 1 && c.capacity >= 1
    ensures (forall events :: Undisturbed(Run(c, Start(chain), events)) ==>
              AscendingValues(Run(c, Start(chain), events), Run(c, Start(chain), events).batch))
       <==> c.depth == 1
  {
    if c.depth == 1 {
      forall events | Undisturbed(Run(c, Start(chain), events))
        ensures AscendingValues(Run(c, Start(chain), events), Run(c, Start(chain), events).batch)
      {
        BatchesAscend(c, chain, events);
      }
    } else {
      var events := DeeperPipelineDescends(c, chain);
    }
  }
}

/** One account's worker, the sender's goroutines for its batches, and the goroutines that
    wait for acknowledgements, as a step relation
    (internal/loadgen/workers.go, internal/sender/sender.go).

    Nonces are handles of the run ledger of module NonceRuns, so every protocol run is also
    a run of the allocator.  A handle is owned by one goroutine at a time, hence the flag
    swap of a rollback is invisible to the others and a rollback is one step here. */
module SenderProtocol {
  import opened NonceAllocator
  import Runs = NonceRuns

  const BATCH_SIZE: nat := 20

  /** Batches allowed in flight for the account, and slots of the send semaphore. */
  datatype Config = Config(depth: nat, capacity: nat)

  /** What a send error says, as the callback's classifiers read it. */
  datatype SendResult =
    | Accepted
    | Error(alreadyKnown: bool, nonceTooLow: bool)

  /** The callback commits a nonce that is in the mempool or spent, and returns any other. */
  predicate Commits(r: SendResult) { r.Accepted? || r.alreadyKnown || r.nonceTooLow }

  /** Who waits for a batch: nobody, or someone who still wants `remaining` acknowledgements. */
  datatype Waiter = Waiting(remaining: nat) | Gone

  /** A queued batch: callbacks below `next` have acknowledged, `settled` says that callback
      `next` has run and not acknowledged yet, `acks` counts the channel's contents. */
  datatype Batch = Batch(ids: seq<nat>, next: nat, settled: bool, acks: nat, received: nat,
                         waiter: Waiter, released: bool)

  /** Where the worker stands in its loop. */
  datatype Pc =
    | Top
    | Fill
    | Holding(id: nat)
    | Ready
    | Queueing(permit: bool)
    | Dropping(k: nat)
    | Awaiting(b: nat)
    | Stopped

  /** Bookkeeping: which place answers for a handle, or which settled it. */
  datatype Place =
    | InHand
    | InBatch(k: nat)
    | InFlight(b: nat, k: nat)
    | Settled(settler: Settler)

  datatype Settler = ByWorker | ByCallback(b: nat, k: nat) | ByDrop

  datatype State = State(ledger: Runs.Ledger, pc: Pc, batch: seq<nat>, flights: seq<Batch>,
                         permits: nat, slots: nat, others: nat,
                         stopping: bool, timedOut: bool, place: seq<Place>)

  datatype Event =
    | Loop | Stop | Take | Keep | EndFill
    | Abandon | Linger | Quit
    | GetPermit | SkipPermit | Queue | Drop
    | Callback(b: nat, result: SendResult) | Ack(b: nat) | Release(b: nat)
    | Receive(b: nat) | GiveUp(b: nat) | Timeout(b: nat) | EndWait(b: nat)
    | Resync(chain: nat, plain: bool)
    | Cancel | OthersAcquire | OthersRelease

  function Start(chain: nat): State {
    State(Runs.Start(chain), Top, [], [], 0, 0, 0, false, false, [])
  }

  // ---------------------------------------------------------------- steps

  predicate Running(b: Batch) { b.next < |b.ids| }

  predicate Enabled(c: Config, s: State, e: Event) {
    match e
    case Loop => s.pc.Top? && !s.stopping
    case Stop => s.pc.Top?
    case Take => s.pc.Fill? && |s.batch| < BATCH_SIZE
    case Keep => s.pc.Holding?
    case EndFill => s.pc.Fill?
    case Abandon => s.pc.Holding?
    case Linger => s.pc.Holding? && |s.batch| > 0
    case Quit => s.pc.Holding? && s.stopping
    case GetPermit => s.pc.Ready? && (c.depth > 1 ==> s.permits < c.depth)
    case SkipPermit => s.pc.Ready? && c.depth > 1 && s.stopping
    case Queue => s.pc.Queueing?
    case Drop => s.pc.Dropping?
    case Callback(b, _) => b < |s.flights| && Running(s.flights[b]) && !s.flights[b].settled
    case Ack(b) => b < |s.flights| && s.flights[b].settled && s.flights[b].acks < |s.flights[b].ids|
    case Release(b) => b < |s.flights| && !Running(s.flights[b]) && !s.flights[b].released
    case Receive(b) => b < |s.flights| && Waits(s.flights[b]) && s.flights[b].acks > 0
    case GiveUp(b) => b < |s.flights| && Waits(s.flights[b]) && s.stopping
    case Timeout(b) => b < |s.flights| && Waits(s.flights[b])
    case EndWait(b) => b < |s.flights| && s.flights[b].waiter == Waiting(0)
    case Resync(_, _) => true
    case Cancel => true
    case OthersAcquire => s.slots < c.capacity
    case OthersRelease => s.others > 0
  }

  predicate Waits(b: Batch) { b.waiter.Waiting? && b.waiter.remaining > 0 }

  function SetPlace(place: seq<Place>, id: nat, p: Place): seq<Place> {
    if id < |place| then place[id := p] else place
  }

  function Less(n: nat): nat { if n > 0 then n - 1 else 0 }

  function CommitHandle(s: State, id: nat, settler: Settler): State {
    s.(ledger := Runs.Step(s.ledger, Runs.Commit(id)), place := SetPlace(s.place, id, Settled(settler)))
  }

  function RollbackHandle(s: State, id: nat, settler: Settler): State {
    s.(ledger := Runs.Step(Runs.Step(s.ledger, Runs.SwapFlag(id)), Runs.ReturnNonce(id)),
       place := SetPlace(s.place, id, Settled(settler)))
  }

  function WithFlight(s: State, b: nat, f: Batch): State
    requires b < |s.flights|
  {
    s.(flights := s.flights[b := f])
  }

  /** SendBatchAsync: one slot for the whole batch, or the batch is refused. */
  function QueueBatch(c: Config, s: State): State
    requires s.pc.Queueing?
  {
    if s.slots < c.capacity then
      var waiter := if c.depth > 1 && !s.pc.permit then Gone else Waiting(|s.batch|);
      s.(slots := s.slots + 1, batch := [],
         flights := s.flights + [Batch(s.batch, 0, false, 0, 0, waiter, false)],
         place := Launch(s.place, s.batch, |s.flights|),
         pc := if c.depth > 1 then Top else Awaiting(|s.flights|))
    else
      s.(pc := Dropping(0), permits := if s.pc.permit then Less(s.permits) else s.permits)
  }

  /** The batch's handles now belong to flight b. */
  function Launch(place: seq<Place>, batch: seq<nat>, b: nat): (r: seq<Place>)
    ensures |r| == |place|
    decreases |batch|
  {
    if batch == [] then place
    else
      var k := |batch| - 1;
      SetPlace(Launch(place, batch[..k], b), batch[k], InFlight(b, k))
  }

  /** The next state; an event that is not enabled changes nothing. */
  function Step(c: Config, s: State, e: Event): State {
    if !Enabled(c, s, e) then s else
    match e
    case Loop => s.(pc := Fill)
    case Stop => s.(pc := Stopped)
    case Take =>
      s.(ledger := Runs.Step(s.ledger, Runs.ReserveNonce), place := s.place + [InHand],
         pc := Holding(|s.ledger.handles|))
    case Keep => s.(batch := s.batch + [s.pc.id], place := SetPlace(s.place, s.pc.id, InBatch(|s.batch|)), pc := Fill)
    case EndFill => s.(pc := if |s.batch| > 0 then Ready else Top)
    case Abandon => RollbackHandle(s, s.pc.id, ByWorker).(pc := Fill)
    case Linger => RollbackHandle(s, s.pc.id, ByWorker).(pc := Ready)
    case Quit => RollbackHandle(s, s.pc.id, ByWorker).(pc := Stopped)
    case GetPermit =>
      if c.depth > 1 then s.(permits := s.permits + 1, pc := Queueing(true)) else s.(pc := Queueing(false))
    case SkipPermit => s.(pc := Queueing(false))
    case Queue => QueueBatch(c, s)
    case Drop =>
      if s.pc.k < |s.batch|
      then RollbackHandle(s, s.batch[s.pc.k], ByDrop).(pc := Dropping(s.pc.k + 1))
      else s.(batch := [], pc := Top)
    case Callback(b, result) =>
      var f := s.flights[b];
      var id := f.ids[f.next];
      var t := if Commits(result) then CommitHandle(s, id, ByCallback(b, f.next))
               else RollbackHandle(s, id, ByCallback(b, f.next));
      WithFlight(t, b, f.(settled := true))
    case Ack(b) =>
      var f := s.flights[b];
      WithFlight(s, b, f.(settled := false, next := f.next + 1, acks := f.acks + 1))
    case Release(b) =>
      WithFlight(s, b, s.flights[b].(released := true)).(slots := Less(s.slots))
    case Receive(b) =>
      var f := s.flights[b];
      WithFlight(s, b, f.(acks := f.acks - 1, received := f.received + 1, waiter := Waiting(f.waiter.remaining - 1)))
    case GiveUp(b) => WithFlight(s, b, s.flights[b].(waiter := Waiting(0)))
    case Timeout(b) => WithFlight(s, b, s.flights[b].(waiter := Waiting(0))).(timedOut := true)
    case EndWait(b) =>
      var t := WithFlight(s, b, s.flights[b].(waiter := Gone));
      if c.depth > 1 then t.(permits := Less(s.permits)) else t.(pc := Top)
    case Resync(chain, plain) =>
      s.(ledger := Runs.Step(s.ledger, if plain then Runs.ResyncTo(chain) else Runs.MaybeResyncTo(chain)))
    case Cancel => s.(stopping := true)
    case OthersAcquire => s.(others := s.others + 1, slots := s.slots + 1)
    case OthersRelease => s.(others := s.others - 1, slots := Less(s.slots))
  }

  function Run(c: Config, s: State, events: seq<Event>): State
    decreases |events|
  {
    if events == [] then s else Step(c, Run(c, s, events[..|events| - 1]), events[|events| - 1])
  }

  // ---------------------------------------------------------------- who answers for a handle

  ghost predicate IsLive(s: State, id: nat) {
    id < |s.ledger.handles| && s.ledger.handles[id].status == Runs.Live
  }

  /** Every handle is live until exactly one place settles it. */
  ghost predicate PlacesMatch(s: State) {
    && |s.place| == |s.ledger.handles|
    && forall id :: 0 <= id < |s.place| ==>
         && (IsLive(s, id) <==> !s.place[id].Settled?)
         && s.ledger.handles[id].status != Runs.Returning
  }

  /** The place of the k-th handle of the worker's own batch. */
  function OwnPlace(s: State, k: nat): Place {
    if s.pc.Dropping? && k < s.pc.k then Settled(ByDrop) else InBatch(k)
  }

  /** The place of the k-th handle of flight b. */
  function FlightPlace(f: Batch, b: nat, k: nat): Place {
    if k < f.next || (k == f.next && f.settled) then Settled(ByCallback(b, k)) else InFlight(b, k)
  }

  ghost predicate WorkerPlaces(s: State) {
    && (s.pc.Holding? ==> s.pc.id < |s.place| && s.place[s.pc.id] == InHand)
    && (s.pc.Dropping? ==> s.pc.k <= |s.batch|)
    && (s.pc.Top? || s.pc.Awaiting? ==> s.batch == [])
    && forall k :: 0 <= k < |s.batch| ==> s.batch[k] < |s.place| && s.place[s.batch[k]] == OwnPlace(s, k)
  }

  ghost predicate FlightPlaces(s: State) {
    forall b :: 0 <= b < |s.flights| ==> PlacedAt(s.place, s.flights[b], b)
  }

  ghost predicate PlacedAt(place: seq<Place>, f: Batch, b: nat) {
    forall k :: 0 <= k < |f.ids| ==> f.ids[k] < |place| && place[f.ids[k]] == FlightPlace(f, b, k)
  }

  /** Conversely, an open place names where the handle is. */
  ghost predicate PlacesPoint(s: State) {
    forall id :: 0 <= id < |s.place| ==>
      match s.place[id]
      case InHand => s.pc == Holding(id)
      case InBatch(k) => k < |s.batch| && s.batch[k] == id
      case InFlight(b, k) => b < |s.flights| && k < |s.flights[b].ids| && s.flights[b].ids[k] == id
      case Settled(_) => true
  }

  /** Acknowledgements: sent ones are in the channel or received, one per finished callback. */
  ghost predicate AcksMatch(f: Batch) {
    && f.acks + f.received == f.next <= |f.ids|
    && (f.settled ==> f.next < |f.ids|)
    && (f.released ==> f.next == |f.ids|)
  }

  ghost predicate Inv(s: State) {
    && Runs.Exclusive(s.ledger)
    && PlacesMatch(s)
    && WorkerPlaces(s)
    && FlightPlaces(s)
    && PlacesPoint(s)
    && forall b :: 0 <= b < |s.flights| ==> AcksMatch(s.flights[b])
  }

  // ---------------------------------------------------------------- preservation

  /** The handle that a step commits or rolls back, if it does. */
  datatype Touched = None | Handle(id: nat)

  function Settles(c: Config, s: State, e: Event): Touched {
    if !Enabled(c, s, e) then None else
    match e
    case Abandon => Handle(s.pc.id)
    case Linger => Handle(s.pc.id)
    case Quit => Handle(s.pc.id)
    case Drop => if s.pc.k < |s.batch| then Handle(s.batch[s.pc.k]) else None
    case Callback(b, _) => Handle(s.flights[b].ids[s.flights[b].next])
    case _ => None
  }

  /** Whatever a step settles is live before it: no Commit or Rollback is ever a no-op. */
  lemma SettlesLive(c: Config, s: State, e: Event)
    requires Inv(s) && Settles(c, s, e).Handle?
    ensures IsLive(s, Settles(c, s, e).id)
  {
    if e.Callback? {
      var f := s.flights[e.b];
      assert PlacedAt(s.place, f, e.b);
      assert s.place[f.ids[f.next]] == FlightPlace(f, e.b, f.next);
    } else if e.Drop? {
      assert s.place[s.batch[s.pc.k]] == OwnPlace(s, s.pc.k);
    }
  }

  ghost predicate OnlyChanged(l: Runs.Ledger, m: Runs.Ledger, id: nat) {
    && |m.handles| == |l.handles|
    && id < |l.handles|
    && m.handles[id].value == l.handles[id].value
    && m.handles[id].status in {Runs.Committed, Runs.Returned}
    && forall i :: 0 <= i < |l.handles| && i != id ==> m.handles[i] == l.handles[i]
  }

  lemma SettlingLedger(s: State, id: nat, settler: Settler)
    requires Runs.Exclusive(s.ledger) && IsLive(s, id)
    ensures Runs.Exclusive(CommitHandle(s, id, settler).ledger)
    ensures OnlyChanged(s.ledger, CommitHandle(s, id, settler).ledger, id)
    ensures Runs.Exclusive(RollbackHandle(s, id, settler).ledger)
    ensures OnlyChanged(s.ledger, RollbackHandle(s, id, settler).ledger, id)
  {
    Runs.StepKeepsExclusive(s.ledger, Runs.Commit(id));
    Runs.StepKeepsExclusive(s.ledger, Runs.SwapFlag(id));
    Runs.StepKeepsExclusive(Runs.Step(s.ledger, Runs.SwapFlag(id)), Runs.ReturnNonce(id));
  }

  lemma InvTake(c: Config, s: State)
    requires Inv(s) && Enabled(c, s, Take)
    ensures Inv(Step(c, s, Take))
  {
    Runs.StepKeepsExclusive(s.ledger, Runs.ReserveNonce);
  }

  lemma InvKeep(c: Config, s: State)
    requires Inv(s) && Enabled(c, s, Keep)
    ensures Inv(Step(c, s, Keep))
  {
  }

  /** A settled handle is dead and its place says so; all others are as before. */
  lemma MatchAfter(s: State, t: State, id: nat, settler: Settler)
    requires PlacesMatch(s) && id < |s.place| && OnlyChanged(s.ledger, t.ledger, id)
    requires t.place == SetPlace(s.place, id, Settled(settler))
    ensures PlacesMatch(t)
  {
  }

  lemma WorkerRollbackFrame(c: Config, s: State, e: Event)
    requires Enabled(c, s, e) && (e.Abandon? || e.Linger? || e.Quit?)
    ensures var t := Step(c, s, e);
            && t == s.(ledger := RollbackHandle(s, s.pc.id, ByWorker).ledger, pc := t.pc,
                       place := SetPlace(s.place, s.pc.id, Settled(ByWorker)))
            && (t.pc.Fill? || t.pc.Ready? || t.pc.Stopped?)
  {
  }

  lemma InvWorkerRollback(c: Config, s: State, e: Event)
    requires Inv(s) && Enabled(c, s, e) && (e.Abandon? || e.Linger? || e.Quit?)
    ensures Inv(Step(c, s, e))
  {
    var t, id := Step(c, s, e), s.pc.id;
    SettlesLive(c, s, e);
    SettlingLedger(s, id, ByWorker);
    WorkerRollbackFrame(c, s, e);
    hide Step, RollbackHandle, CommitHandle, Runs.Exclusive;
    MatchAfter(s, t, id, ByWorker);
    hide OnlyChanged, PlacesMatch;
    forall b | 0 <= b < |t.flights| ensures PlacedAt(t.place, t.flights[b], b) {
      assert PlacedAt(s.place, s.flights[b], b);
    }
  }

  lemma InvDrop(c: Config, s: State)
    requires Inv(s) && Enabled(c, s, Drop) && s.pc.k < |s.batch|
    ensures Inv(Step(c, s, Drop))
  {
    var id, t := s.batch[s.pc.k], Step(c, s, Drop);
    SettlesLive(c, s, Drop);
    SettlingLedger(s, id, ByDrop);
    assert t == s.(ledger := RollbackHandle(s, id, ByDrop).ledger, pc := Dropping(s.pc.k + 1),
                   place := SetPlace(s.place, id, Settled(ByDrop)));
    hide Step, RollbackHandle, CommitHandle, Runs.Exclusive;
    MatchAfter(s, t, id, ByDrop);
    hide OnlyChanged, PlacesMatch;
    forall k | 0 <= k < |t.batch| ensures t.batch[k] < |t.place| && t.place[t.batch[k]] == OwnPlace(t, k) {
      assert s.place[s.batch[k]] == OwnPlace(s, k);
    }
    forall b | 0 <= b < |t.flights| ensures PlacedAt(t.place, t.flights[b], b) {
      assert PlacedAt(s.place, s.flights[b], b);
    }
  }

  lemma InvDropEnd(c: Config, s: State)
    requires Inv(s) && Enabled(c, s, Drop) && s.pc.k == |s.batch|
    ensures Inv(Step(c, s, Drop))
  {
    assert forall k :: 0 <= k < |s.batch| ==> s.place[s.batch[k]] == Settled(ByDrop);
  }

  lemma CallbackFrame(c: Config, s: State, b: nat, result: SendResult)
    requires Enabled(c, s, Callback(b, result))
    ensures var t, f := Step(c, s, Callback(b, result)), s.flights[b];
            var id, settler := f.ids[f.next], ByCallback(b, f.next);
            && t == s.(ledger := t.ledger, place := SetPlace(s.place, id, Settled(settler)),
                       flights := s.flights[b := f.(settled := true)])
            && t.ledger in {CommitHandle(s, id, settler).ledger, RollbackHandle(s, id, settler).ledger}
  {
  }

  lemma InvCallback(c: Config, s: State, b: nat, result: SendResult)
    requires Inv(s) && Enabled(c, s, Callback(b, result))
    ensures Inv(Step(c, s, Callback(b, result)))
  {
    SettlesLive(c, s, Callback(b, result));
    var f, t := s.flights[b], Step(c, s, Callback(b, result));
    var id := f.ids[f.next];
    SettlingLedger(s, id, ByCallback(b, f.next));
    CallbackFrame(c, s, b, result);
    hide Step, CommitHandle, RollbackHandle, Runs.Exclusive;
    CallbackPlaces(s, t, b, id);
    MatchAfter(s, t, id, ByCallback(b, f.next));
    CallbackWorker(s, t, id);
    hide FlightPlaces, PlacesMatch, WorkerPlaces, OnlyChanged;
  }

  lemma CallbackWorker(s: State, t: State, id: nat)
    requires WorkerPlaces(s) && id < |s.place| && s.place[id].InFlight? && t.pc == s.pc && t.batch == s.batch
    requires |t.place| == |s.place| && forall i :: 0 <= i < |s.place| && i != id ==> t.place[i] == s.place[i]
    ensures WorkerPlaces(t)
  {
    forall k | 0 <= k < |t.batch| ensures t.batch[k] < |t.place| && t.place[t.batch[k]] == OwnPlace(t, k) {
      assert s.place[s.batch[k]] == OwnPlace(s, k);
    }
  }

  lemma CallbackPlaces(s: State, t: State, b: nat, id: nat)
    requires FlightPlaces(s) && b < |s.flights| && Running(s.flights[b]) && !s.flights[b].settled
    requires AcksMatch(s.flights[b]) && id == s.flights[b].ids[s.flights[b].next]
    requires t.place == SetPlace(s.place, id, Settled(ByCallback(b, s.flights[b].next)))
    requires t.flights == s.flights[b := s.flights[b].(settled := true)]
    ensures FlightPlaces(t) && id < |s.place| && s.place[id] == InFlight(b, s.flights[b].next)
  {
    assert PlacedAt(s.place, s.flights[b], b);
    forall b' | 0 <= b' < |t.flights| ensures PlacedAt(t.place, t.flights[b'], b') {
      assert PlacedAt(s.place, s.flights[b'], b');
    }
  }

  lemma InvAck(c: Config, s: State, b: nat)
    requires Inv(s) && Enabled(c, s, Ack(b))
    ensures Inv(Step(c, s, Ack(b)))
  {
    var t := Step(c, s, Ack(b));
    forall b' | 0 <= b' < |t.flights| ensures PlacedAt(t.place, t.flights[b'], b') {
      assert PlacedAt(s.place, s.flights[b'], b');
    }
    assert PlacesPoint(t);
  }

  /** The steps of the waiting side change a flight, but none of its places. */
  lemma InvWaiting(c: Config, s: State, e: Event)
    requires Inv(s) && Enabled(c, s, e)
    requires e.Release? || e.Receive? || e.GiveUp? || e.Timeout?
    ensures Inv(Step(c, s, e))
  {
    var t, f := Step(c, s, e), s.flights[e.b];
    WaitingFrame(c, s, e);
    hide Step, Runs.Exclusive;
    SamePlaces(s, t, e.b);
    hide FlightPlaces, PlacesPoint;
    assert AcksMatch(f);
  }

  lemma WaitingFrame(c: Config, s: State, e: Event)
    requires Enabled(c, s, e) && (e.Release? || e.Receive? || e.GiveUp? || e.Timeout?)
    ensures var t, f := Step(c, s, e), s.flights[e.b];
            var g := t.flights[e.b];
            && t == s.(flights := s.flights[e.b := g], slots := t.slots, timedOut := t.timedOut)
            && g == f.(acks := g.acks, received := g.received, waiter := g.waiter, released := g.released)
            && g.acks + g.received == f.acks + f.received && (g.released ==> f.released || f.next >= |f.ids|)
  {
  }

  lemma InvEndWait(c: Config, s: State, b: nat)
    requires Inv(s) && Enabled(c, s, EndWait(b)) && (c.depth <= 1 ==> s.pc == Awaiting(b))
    ensures Inv(Step(c, s, EndWait(b)))
  {
    SamePlaces(s, Step(c, s, EndWait(b)), b);
  }

  lemma SamePlaces(s: State, t: State, b: nat)
    requires FlightPlaces(s) && PlacesPoint(s) && b < |s.flights| == |t.flights| && t.place == s.place
    requires t.flights == s.flights[b := t.flights[b]]
    requires t.flights[b].ids == s.flights[b].ids
    requires t.flights[b].next == s.flights[b].next && t.flights[b].settled == s.flights[b].settled
    requires t.batch == s.batch && (t.pc == s.pc || (s.pc.Awaiting? && t.pc.Top?))
    ensures FlightPlaces(t) && PlacesPoint(t)
  {
    forall b' | 0 <= b' < |t.flights| ensures PlacedAt(t.place, t.flights[b'], b') {
      assert PlacedAt(s.place, s.flights[b'], b');
    }
  }

  lemma InvResync(c: Config, s: State, chain: nat, plain: bool)
    requires Inv(s)
    ensures Inv(Step(c, s, Resync(chain, plain)))
  {
    Runs.StepKeepsExclusive(s.ledger, if plain then Runs.ResyncTo(chain) else Runs.MaybeResyncTo(chain));
  }

  /** Launching moves the places of exactly the batch's handles. */
  lemma {:induction false} LaunchAt(place: seq<Place>, batch: seq<nat>, b: nat)
    requires forall k :: 0 <= k < |batch| ==> batch[k] < |place| && place[batch[k]] == InBatch(k)
    ensures forall k :: 0 <= k < |batch| ==> Launch(place, batch, b)[batch[k]] == InFlight(b, k)
    ensures forall id :: 0 <= id < |place| && id !in batch ==> Launch(place, batch, b)[id] == place[id]
    decreases |batch|
  {
    if batch != [] {
      var init := batch[..|batch| - 1];
      assert forall k :: 0 <= k < |init| ==> init[k] == batch[k];
      LaunchAt(place, init, b);
      assert batch == init + [batch[|batch| - 1]];
    }
  }

  function QueuedWaiter(c: Config, s: State): Waiter {
    if c.depth > 1 && s.pc == Queueing(false) then Gone else Waiting(|s.batch|)
  }

  /** What queueing a batch changes besides the places. */
  lemma QueueFrame(c: Config, s: State)
    requires Enabled(c, s, Queue) && s.slots < c.capacity
    ensures var t := Step(c, s, Queue);
            && t.flights == s.flights + [Batch(s.batch, 0, false, 0, 0, QueuedWaiter(c, s), false)]
            && t.batch == [] && t.slots == s.slots + 1 && t.others == s.others && t.permits == s.permits
            && t.stopping == s.stopping && t.timedOut == s.timedOut && t.ledger == s.ledger
            && t.pc == (if c.depth > 1 then Top else Awaiting(|s.flights|))
            && t.place == Launch(s.place, s.batch, |s.flights|)
  {
  }

  /** Where the handles are after the launch: the batch's in the new flight, the others where
      they were. */
  lemma LaunchPlaces(s: State, b: nat)
    requires WorkerPlaces(s) && PlacesPoint(s) && s.pc.Queueing?
    ensures var after := Launch(s.place, s.batch, b);
            forall id :: 0 <= id < |s.place| ==>
              after[id] == if s.place[id].InBatch? then InFlight(b, s.place[id].k) else s.place[id]
    ensures PlacedAt(Launch(s.place, s.batch, b), Batch(s.batch, 0, false, 0, 0, Gone, false), b)
  {
    forall k | 0 <= k < |s.batch| ensures s.batch[k] < |s.place| && s.place[s.batch[k]] == InBatch(k) {
      assert s.place[s.batch[k]] == OwnPlace(s, k);
    }
    LaunchAt(s.place, s.batch, b);
    hide Launch;
    forall id | 0 <= id < |s.place| ensures id in s.batch <==> s.place[id].InBatch? {
      if id in s.batch {
        var k :| 0 <= k < |s.batch| && s.batch[k] == id;
      }
    }
  }

  lemma InvQueued(c: Config, s: State)
    requires Inv(s) && Enabled(c, s, Queue) && s.slots < c.capacity
    ensures Inv(Step(c, s, Queue))
  {
    var t := Step(c, s, Queue);
    QueueFrame(c, s);
    assert s.pc.Queueing?;
    LaunchPlaces(s, |s.flights|);
    hide Step, Launch, Runs.Exclusive;
    LaunchedFlights(s, t);
    hide FlightPlaces;
  }

  lemma LaunchedFlights(s: State, t: State)
    requires FlightPlaces(s) && |t.flights| == |s.flights| + 1 && t.flights[..|s.flights|] == s.flights
    requires |t.place| == |s.place| && PlacedAt(t.place, t.flights[|s.flights|], |s.flights|)
    requires forall id :: 0 <= id < |s.place| && !s.place[id].InBatch? ==> t.place[id] == s.place[id]
    ensures FlightPlaces(t)
  {
    forall b | 0 <= b < |t.flights| ensures PlacedAt(t.place, t.flights[b], b) {
      if b < |s.flights| {
        assert PlacedAt(s.place, s.flights[b], b);
      }
    }
  }

  lemma InvRefused(c: Config, s: State)
    requires Inv(s) && Enabled(c, s, Queue) && s.slots >= c.capacity
    ensures Inv(Step(c, s, Queue))
  {
  }

  lemma InvOther(c: Config, s: State, e: Event)
    requires Inv(s) && Enabled(c, s, e)
    requires e.Loop? || e.Stop? || e.EndFill? || e.GetPermit? || e.SkipPermit?
          || e.Cancel? || e.OthersAcquire? || e.OthersRelease?
    ensures Inv(Step(c, s, e))
  {
    OtherFrame(c, s, e);
    hide Step, Enabled;
    SameHandles(s, Step(c, s, e));
  }

  /** The steps that move no handle. */
  ghost predicate HandlesStay(s: State, t: State) {
    && t.ledger == s.ledger && t.place == s.place && t.flights == s.flights && t.batch == s.batch
    && (t.pc == s.pc
        || (!s.pc.Holding? && !s.pc.Dropping? && !t.pc.Holding? && !t.pc.Dropping?
            && (t.pc.Top? || t.pc.Awaiting? ==> s.batch == [])))
  }

  lemma OtherFrame(c: Config, s: State, e: Event)
    requires Enabled(c, s, e)
    requires e.Loop? || e.Stop? || e.EndFill? || e.GetPermit? || e.SkipPermit?
          || e.Cancel? || e.OthersAcquire? || e.OthersRelease?
    ensures HandlesStay(s, Step(c, s, e))
  {
  }

  lemma SameHandles(s: State, t: State)
    requires Inv(s) && HandlesStay(s, t)
    ensures Inv(t)
  {
    hide Runs.Exclusive;
    forall b | 0 <= b < |t.flights| ensures PlacedAt(t.place, t.flights[b], b) {
      assert PlacedAt(s.place, s.flights[b], b);
    }
    hide PlacedAt;
    forall k | 0 <= k < |t.batch| ensures t.batch[k] < |t.place| && t.place[t.batch[k]] == OwnPlace(t, k) {
      assert s.place[s.batch[k]] == OwnPlace(s, k);
    }
  }

  lemma StepKeepsInv(c: Config, s: State, e: Event)
    requires Inv(s) && (e.EndWait? && Enabled(c, s, e) && c.depth <= 1 ==> s.pc == Awaiting(e.b))
    ensures Inv(Step(c, s, e))
  {
    if !Enabled(c, s, e) { return; }
    match e
    case Take => InvTake(c, s);
    case Keep => InvKeep(c, s);
    case Abandon => InvWorkerRollback(c, s, e);
    case Linger => InvWorkerRollback(c, s, e);
    case Quit => InvWorkerRollback(c, s, e);
    case Queue => if s.slots < c.capacity { InvQueued(c, s); } else { InvRefused(c, s); }
    case Drop => if s.pc.k < |s.batch| { InvDrop(c, s); } else { InvDropEnd(c, s); }
    case Callback(b, result) => InvCallback(c, s, b, result);
    case Ack(b) => InvAck(c, s, b);
    case EndWait(b) => InvEndWait(c, s, b);
    case Resync(chain, plain) => InvResync(c, s, chain, plain);
    case Release(_) => InvWaiting(c, s, e);
    case Receive(_) => InvWaiting(c, s, e);
    case GiveUp(_) => InvWaiting(c, s, e);
    case Timeout(_) => InvWaiting(c, s, e);
    case _ => InvOther(c, s, e);
  }

  // ---------------------------------------------------------------- permits, slots, waiters

  predicate IsWaiting(f: Batch) { f.waiter.Waiting? }
  predicate IsUnreleased(f: Batch) { !f.released }
  predicate IsUnacked(f: Batch) { f.received < |f.ids| }

  function Count(fs: seq<Batch>, p: Batch -> bool): (n: nat)
    ensures n <= |fs|
  {
    if fs == [] then 0 else Count(fs[..|fs| - 1], p) + if p(fs[|fs| - 1]) then 1 else 0
  }

  lemma {:induction false} CountSet(fs: seq<Batch>, b: nat, f: Batch, p: Batch -> bool)
    requires b < |fs|
    ensures Count(fs[b := f], p) == Count(fs, p) - (if p(fs[b]) then 1 else 0) + (if p(f) then 1 else 0)
  {
    var n := |fs| - 1;
    if b < n {
      CountSet(fs[..n], b, f, p);
      assert fs[b := f][..n] == fs[..n][b := f];
    } else {
      assert fs[b := f][..n] == fs[..n];
    }
  }

  lemma {:induction false} CountMonotone(fs: seq<Batch>, p: Batch -> bool, q: Batch -> bool)
    requires forall b :: 0 <= b < |fs| && p(fs[b]) ==> q(fs[b])
    ensures Count(fs, p) <= Count(fs, q)
  {
    if fs != [] { CountMonotone(fs[..|fs| - 1], p, q); }
  }

  lemma {:induction false} CountOnly(fs: seq<Batch>, b: nat, p: Batch -> bool)
    requires forall i :: 0 <= i < |fs| ==> (p(fs[i]) <==> i == b)
    ensures Count(fs, p) == if b < |fs| then 1 else 0
  {
    if fs != [] { CountOnly(fs[..|fs| - 1], b, p); }
  }

  /** No acknowledgement wait was cut short so far. */
  predicate Undisturbed(s: State) { !s.stopping && !s.timedOut }

  ghost predicate WaiterMatches(s: State, f: Batch) {
    && (f.waiter.Waiting? ==> f.waiter.remaining + f.received <= |f.ids|)
    && (Undisturbed(s) ==> f.received == |f.ids| - if f.waiter.Waiting? then f.waiter.remaining else 0)
  }

  ghost predicate Sizes(s: State) {
    && |s.batch| <= BATCH_SIZE
    && (s.pc.Holding? ==> |s.batch| < BATCH_SIZE)
    && (s.pc.Ready? || s.pc.Queueing? ==> |s.batch| > 0)
  }

  ghost predicate Waiters(s: State) {
    forall b :: 0 <= b < |s.flights| ==>
      WaiterMatches(s, s.flights[b]) && 0 < |s.flights[b].ids| <= BATCH_SIZE
  }

  ghost predicate SlotsMatch(c: Config, s: State) {
    s.slots == Count(s.flights, IsUnreleased) + s.others <= c.capacity
  }

  ghost predicate PermitsMatch(c: Config, s: State) {
    if c.depth > 1 then
      && !s.pc.Awaiting?
      && s.permits == Count(s.flights, IsWaiting) + (if s.pc == Queueing(true) then 1 else 0) <= c.depth
      && (s.pc == Queueing(false) ==> s.stopping)
    else
      && s.permits == 0 && s.pc != Queueing(true)
      && (s.pc.Awaiting? ==> s.pc.b < |s.flights|)
      && forall b :: 0 <= b < |s.flights| ==> (IsWaiting(s.flights[b]) <==> s.pc == Awaiting(b))
  }

  ghost predicate Flow(c: Config, s: State) {
    Sizes(s) && Waiters(s) && SlotsMatch(c, s) && PermitsMatch(c, s)
  }

  predicate TouchesFlight(e: Event) {
    e.Callback? || e.Ack? || e.Release? || e.Receive? || e.GiveUp? || e.Timeout? || e.EndWait?
  }

  /** What the worker's own steps and the environment's leave alone. */
  lemma WorkerStepFrame(c: Config, s: State, e: Event)
    requires Enabled(c, s, e) && !e.Queue? && !TouchesFlight(e)
    ensures var t := Step(c, s, e);
            t.flights == s.flights && t.timedOut == s.timedOut && (s.stopping ==> t.stopping)
    ensures !e.OthersAcquire? && !e.OthersRelease? ==>
            Step(c, s, e).slots == s.slots && Step(c, s, e).others == s.others
  {
  }

  lemma SizesWorker(c: Config, s: State, e: Event)
    requires Sizes(s) && Enabled(c, s, e) && !TouchesFlight(e)
    ensures Sizes(Step(c, s, e))
  {
  }

  lemma PermitsWorker(c: Config, s: State, e: Event)
    requires PermitsMatch(c, s) && Enabled(c, s, e) && !e.Queue? && !TouchesFlight(e)
    ensures PermitsMatch(c, Step(c, s, e))
  {
    WorkerStepFrame(c, s, e);
  }

  lemma FlowWorker(c: Config, s: State, e: Event)
    requires Flow(c, s) && Enabled(c, s, e)
    requires !e.Queue? && !TouchesFlight(e)
    ensures Flow(c, Step(c, s, e))
  {
    var t := Step(c, s, e);
    WorkerStepFrame(c, s, e);
    SizesWorker(c, s, e);
    PermitsWorker(c, s, e);
    forall b | 0 <= b < |t.flights| ensures WaiterMatches(t, t.flights[b]) {
      assert WaiterMatches(s, s.flights[b]);
    }
  }

  lemma FlowQueued(c: Config, s: State)
    requires Flow(c, s) && Enabled(c, s, Queue) && s.slots < c.capacity
    ensures Flow(c, Step(c, s, Queue))
  {
    var t := Step(c, s, Queue);
    QueueFrame(c, s);
    assert t.flights[..|s.flights|] == s.flights;
    assert s.pc.Queueing?;
    hide Step;
    forall b | 0 <= b < |t.flights| ensures WaiterMatches(t, t.flights[b]) && 0 < |t.flights[b].ids| <= BATCH_SIZE {
      if b < |s.flights| { assert WaiterMatches(s, s.flights[b]); }
    }
    assert Sizes(t) && SlotsMatch(c, t);
  }

  lemma FlowRefused(c: Config, s: State)
    requires Flow(c, s) && Enabled(c, s, Queue) && s.slots >= c.capacity
    ensures Flow(c, Step(c, s, Queue))
  {
    var t := Step(c, s, Queue);
    assert t.flights == s.flights && t.pc == Dropping(0) && t.batch == s.batch;
    assert forall b :: 0 <= b < |s.flights| ==> WaiterMatches(s, s.flights[b]);
  }

  /** What the steps of one flight leave alone. */
  lemma FlightStepFrame(c: Config, s: State, e: Event)
    requires Enabled(c, s, e) && TouchesFlight(e)
    ensures var t := Step(c, s, e);
            && |t.flights| == |s.flights| && t.flights == s.flights[e.b := t.flights[e.b]]
            && t.flights[e.b].ids == s.flights[e.b].ids
            && t.batch == s.batch && t.others == s.others && t.stopping == s.stopping
            && (s.timedOut ==> t.timedOut)
            && (e.EndWait? || (t.pc == s.pc && t.permits == s.permits))
            && (e.EndWait? || IsWaiting(t.flights[e.b]) == IsWaiting(s.flights[e.b]))
            && (e.Release? || (t.slots == s.slots && t.flights[e.b].released == s.flights[e.b].released))
  {
  }

  lemma WaiterStep(c: Config, s: State, e: Event)
    requires Enabled(c, s, e) && TouchesFlight(e)
    requires WaiterMatches(s, s.flights[e.b]) && AcksMatch(s.flights[e.b])
    ensures WaiterMatches(Step(c, s, e), Step(c, s, e).flights[e.b])
  {
  }

  lemma FlowWaiter(c: Config, s: State, e: Event)
    requires Inv(s) && Waiters(s) && Enabled(c, s, e) && TouchesFlight(e)
    ensures Waiters(Step(c, s, e))
  {
    var t := Step(c, s, e);
    assert AcksMatch(s.flights[e.b]) && WaiterMatches(s, s.flights[e.b]);
    FlightStepFrame(c, s, e);
    WaiterStep(c, s, e);
    hide Step, Inv, AcksMatch;
    forall b | 0 <= b < |t.flights|
      ensures WaiterMatches(t, t.flights[b]) && 0 < |t.flights[b].ids| <= BATCH_SIZE
    {
      assert WaiterMatches(s, s.flights[b]);
    }
  }

  lemma FlowEndWait(c: Config, s: State, b: nat)
    requires PermitsMatch(c, s) && Enabled(c, s, EndWait(b))
    ensures PermitsMatch(c, Step(c, s, EndWait(b)))
  {
    CountSet(s.flights, b, Step(c, s, EndWait(b)).flights[b], IsWaiting);
  }

  lemma FlowFlight(c: Config, s: State, e: Event)
    requires Inv(s) && Flow(c, s) && Enabled(c, s, e) && TouchesFlight(e)
    ensures Flow(c, Step(c, s, e))
  {
    FlightStepFrame(c, s, e);
    FlowWaiter(c, s, e);
    FlowSlots(c, s, e);
    if e.EndWait? { FlowEndWait(c, s, e.b); } else { FlowPermits(c, s, e); }
    hide Step, Waiters, SlotsMatch, PermitsMatch;
  }

  lemma FlowSlots(c: Config, s: State, e: Event)
    requires SlotsMatch(c, s) && Enabled(c, s, e) && TouchesFlight(e)
    ensures SlotsMatch(c, Step(c, s, e))
  {
    FlightStepFrame(c, s, e);
    CountSet(s.flights, e.b, Step(c, s, e).flights[e.b], IsUnreleased);
    if e.Release? {
      assert Step(c, s, e).slots == Less(s.slots) && Step(c, s, e).flights[e.b].released;
    }
    hide Step;
  }

  lemma FlowPermits(c: Config, s: State, e: Event)
    requires PermitsMatch(c, s) && Enabled(c, s, e) && TouchesFlight(e) && !e.EndWait?
    ensures PermitsMatch(c, Step(c, s, e))
  {
    FlightStepFrame(c, s, e);
    CountSet(s.flights, e.b, Step(c, s, e).flights[e.b], IsWaiting);
    hide Step;
  }

  lemma StepKeepsFlow(c: Config, s: State, e: Event)
    requires Inv(s) && Flow(c, s)
    ensures Inv(Step(c, s, e)) && Flow(c, Step(c, s, e))
  {
    StepKeepsInv(c, s, e);
    if Enabled(c, s, e) {
      if e.Queue? && s.slots < c.capacity { FlowQueued(c, s); }
      else if e.Queue? { FlowRefused(c, s); }
      else if TouchesFlight(e) { FlowFlight(c, s, e); }
      else { FlowWorker(c, s, e); }
    }
  }

  // ---------------------------------------------------------------- results over whole runs

  lemma {:induction false} RunKeepsFlow(c: Config, chain: nat, events: seq<Event>)
    ensures Inv(Run(c, Start(chain), events)) && Flow(c, Run(c, Start(chain), events))
    decreases |events|
  {
    if events != [] {
      var init := events[..|events| - 1];
      RunKeepsFlow(c, chain, init);
      StepKeepsFlow(c, Run(c, Start(chain), init), events[|events| - 1]);
    }
  }

  /** While no wait was cut short, at most `depth` batches are unacknowledged; and the send
      semaphore is never overdrawn, disturbed or not. */
  lemma InFlightBounded(c: Config, chain: nat, events: seq<Event>)
    requires c.depth >= 1
    ensures var s := Run(c, Start(chain), events);
            && (Undisturbed(s) ==> Count(s.flights, IsUnacked) <= c.depth)
            && Count(s.flights, IsUnreleased) + s.others == s.slots <= c.capacity
  {
    var s := Run(c, Start(chain), events);
    RunKeepsFlow(c, chain, events);
    if Undisturbed(s) {
      forall b | 0 <= b < |s.flights| && IsUnacked(s.flights[b]) ensures IsWaiting(s.flights[b]) {
        assert WaiterMatches(s, s.flights[b]);
      }
      CountMonotone(s.flights, IsUnacked, IsWaiting);
      if c.depth == 1 {
        CountOnly(s.flights, if s.pc.Awaiting? then s.pc.b else |s.flights|, IsWaiting);
      }
    }
  }

  /** A callback that has run finds room in its batch's channel, whatever timed out before. */
  lemma AckNeverBlocks(c: Config, chain: nat, events: seq<Event>, b: nat)
    requires b < |Run(c, Start(chain), events).flights|
    requires Run(c, Start(chain), events).flights[b].settled
    ensures Enabled(c, Run(c, Start(chain), events), Ack(b))
  {
    RunKeepsFlow(c, chain, events);
    assert AcksMatch(Run(c, Start(chain), events).flights[b]);
  }

  /** The number of steps of a run that commit or roll back a handle. */
  function SettleCalls(c: Config, s: State, events: seq<Event>, id: nat): nat
    decreases |events|
  {
    if events == [] then 0
    else
      var init := events[..|events| - 1];
      SettleCalls(c, s, init, id)
      + if Settles(c, Run(c, s, init), events[|events| - 1]) == Handle(id) then 1 else 0
  }

  lemma StepLiveness(c: Config, s: State, e: Event, id: nat)
    requires Inv(s)
    ensures id < |s.ledger.handles| ==>
            (IsLive(Step(c, s, e), id) <==> IsLive(s, id) && Settles(c, s, e) != Handle(id))
    ensures |s.ledger.handles| <= |Step(c, s, e).ledger.handles|
    ensures |s.ledger.handles| <= id < |Step(c, s, e).ledger.handles| ==> IsLive(Step(c, s, e), id)
  {
    if Settles(c, s, e).Handle? {
      SettlesLive(c, s, e);
      var x := Settles(c, s, e).id;
      SettlingStep(c, s, e);
      SettlingLedger(s, x, ByWorker);
      hide Step, Settles, CommitHandle, RollbackHandle;
    } else {
      hide Inv;
      NonSettlingStep(c, s, e);
    }
  }

  lemma SettlingStep(c: Config, s: State, e: Event)
    requires Settles(c, s, e).Handle?
    ensures var id := Settles(c, s, e).id;
            Step(c, s, e).ledger in {CommitHandle(s, id, ByWorker).ledger, RollbackHandle(s, id, ByWorker).ledger}
  {
  }

  lemma NonSettlingStep(c: Config, s: State, e: Event)
    requires Settles(c, s, e).None?
    ensures var l, m := s.ledger.handles, Step(c, s, e).ledger.handles;
            m == l || (|m| == |l| + 1 && m[..|l|] == l && m[|l|].status == Runs.Live)
  {
  }

  lemma LedgerOnlyGrows(c: Config, s: State, e: Event)
    ensures Runs.Later(s.ledger, Step(c, s, e).ledger)
  {
    if Settles(c, s, e).Handle? {
      SettlingStep(c, s, e);
    } else {
      NonSettlingStep(c, s, e);
    }
    hide Step, Settles;
  }

  /** In every run, timeouts and shutdown included, each handle is committed or rolled back at
      most once, and exactly once if it is no longer live. */
  lemma {:induction false} SettledOnce(c: Config, chain: nat, events: seq<Event>, id: nat)
    ensures var s := Run(c, Start(chain), events);
            SettleCalls(c, Start(chain), events, id)
            == if id < |s.ledger.handles| && !IsLive(s, id) then 1 else 0
    decreases |events|
  {
    if events != [] {
      var init, e := events[..|events| - 1], events[|events| - 1];
      var s := Run(c, Start(chain), init);
      SettledOnce(c, chain, init, id);
      RunKeepsFlow(c, chain, init);
      StepLiveness(c, s, e, id);
      if Settles(c, s, e) == Handle(id) {
        SettlesLive(c, s, e);
      }
    }
  }

  /** A batch whose callbacks are through has every nonce settled, by that nonce's own
      callback and by nothing else. */
  lemma FinishedBatchSettled(c: Config, chain: nat, events: seq<Event>, b: nat, k: nat)
    requires var s := Run(c, Start(chain), events);
             b < |s.flights| && !Running(s.flights[b]) && k < |s.flights[b].ids|
    ensures var s := Run(c, Start(chain), events);
            var id := s.flights[b].ids[k];
            && id < |s.place| && s.place[id] == Settled(ByCallback(b, k))
            && SettleCalls(c, Start(chain), events, id) == 1
  {
    var s := Run(c, Start(chain), events);
    RunKeepsFlow(c, chain, events);
    assert PlacedAt(s.place, s.flights[b], b) && AcksMatch(s.flights[b]);
    SettledOnce(c, chain, events, s.flights[b].ids[k]);
  }

  /** A batch that the sender refused has every nonce rolled back by the worker, once, before
      the worker goes on. */
  lemma RefusedBatchSettled(c: Config, chain: nat, events: seq<Event>, k: nat)
    requires var s := Run(c, Start(chain), events);
             s.pc.Dropping? && k < s.pc.k
    ensures var s := Run(c, Start(chain), events);
            && k < |s.batch| && s.batch[k] < |s.place| && s.place[s.batch[k]] == Settled(ByDrop)
            && SettleCalls(c, Start(chain), events, s.batch[k]) == 1
  {
    var s := Run(c, Start(chain), events);
    RunKeepsFlow(c, chain, events);
    assert s.place[s.batch[k]] == OwnPlace(s, k);
    SettledOnce(c, chain, events, s.batch[k]);
  }
}

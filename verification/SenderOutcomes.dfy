/** What becomes of the nonces that the sender protocol handles: which ones are spent for good,
    which come back, and which are stranded when the worker stops
    (internal/loadgen/workers.go). */
module SenderOutcomes {
  import opened NonceAllocator
  import Runs = NonceRuns
  import opened SenderProtocol
  import SerialBatches
  import opened Numbers

  /** The handle whose callback is next in flight b. */
  function NextId(s: State, b: nat): nat
    requires b < |s.flights| && Running(s.flights[b])
  {
    s.flights[b].ids[s.flights[b].next]
  }

  // ---------------------------------------------------------------- fates

  /** By what the sender was told: success, "already known" and "nonce too low" spend the nonce,
      so its handle is committed and the pool is as before; every other error gives exactly that
      nonce back to the pool. */
  lemma CallbackFate(c: Config, chain: nat, events: seq<Event>, b: nat, result: SendResult)
    requires Enabled(c, Run(c, Start(chain), events), Callback(b, result))
    ensures var s := Run(c, Start(chain), events);
            var t, id := Step(c, s, Callback(b, result)), NextId(s, b);
            && id < |s.ledger.handles| == |t.ledger.handles|
            && var n := s.ledger.handles[id].value;
            && n !in Pool(s.ledger.alloc)
            && (result.Accepted? || result.alreadyKnown || result.nonceTooLow ==>
                  t.ledger.handles[id] == Runs.Handle(n, Runs.Committed) && t.ledger.alloc == s.ledger.alloc)
            && (result == Error(false, false) ==>
                  && t.ledger.handles[id] == Runs.Handle(n, Runs.Returned)
                  && Pool(t.ledger.alloc) == Pool(s.ledger.alloc) + iset{n})
  {
    var s := Run(c, Start(chain), events);
    RunKeepsFlow(c, chain, events);
    SettlesLive(c, s, Callback(b, result));
    var id := NextId(s, b);
    assert Runs.Held(s.ledger.handles[id]);
    RollbackInserts(s.ledger.alloc, s.ledger.handles[id].value);
  }

  /** And whatever the worker itself gives up (a transaction that could not be built, a permit
      that did not come, a batch that was refused) goes back to the pool, alone. */
  lemma WorkerReturns(c: Config, chain: nat, events: seq<Event>, e: Event)
    requires !e.Callback? && Settles(c, Run(c, Start(chain), events), e).Handle?
    ensures var s := Run(c, Start(chain), events);
            var t, id := Step(c, s, e), Settles(c, s, e).id;
            && id < |s.ledger.handles| == |t.ledger.handles|
            && var n := s.ledger.handles[id].value;
            && n !in Pool(s.ledger.alloc) && Pool(t.ledger.alloc) == Pool(s.ledger.alloc) + iset{n}
            && t.ledger.handles[id] == Runs.Handle(n, Runs.Returned)
  {
    var s := Run(c, Start(chain), events);
    RunKeepsFlow(c, chain, events);
    SettlesLive(c, s, e);
    var id := Settles(c, s, e).id;
    assert Runs.Held(s.ledger.handles[id]);
    RollbackInserts(s.ledger.alloc, s.ledger.handles[id].value);
  }

  lemma LaterComposes(l: Runs.Ledger, m: Runs.Ledger, n: Runs.Ledger)
    requires Runs.Later(l, m) && Runs.Later(m, n)
    ensures Runs.Later(l, n)
  {
  }

  lemma {:induction false} RunContinues(c: Config, s: State, first: seq<Event>, second: seq<Event>)
    ensures Run(c, s, first + second) == Run(c, Run(c, s, first), second)
    decreases |second|
  {
    if second == [] {
      assert first + second == first;
    } else {
      RunContinues(c, s, first, second[..|second| - 1]);
      assert (first + second)[..|first + second| - 1] == first + second[..|second| - 1];
    }
  }

  lemma {:induction false} LedgerLater(c: Config, s: State, events: seq<Event>)
    ensures Runs.Later(s.ledger, Run(c, s, events).ledger)
    decreases |events|
  {
    if events != [] {
      var t := Run(c, s, events[..|events| - 1]);
      LedgerLater(c, s, events[..|events| - 1]);
      LedgerOnlyGrows(c, t, events[|events| - 1]);
      LaterComposes(s.ledger, t.ledger, Run(c, s, events).ledger);
    }
  }

  /** Whatever happens afterwards (retries, resyncs, timeouts, shutdown), a nonce whose
      callback spent it is never handed to the worker again. */
  lemma SpentNeverReissued(c: Config, chain: nat, before: seq<Event>, b: nat, result: SendResult,
                           after: seq<Event>, later: nat)
    requires Enabled(c, Run(c, Start(chain), before), Callback(b, result))
    requires result.Accepted? || result.alreadyKnown || result.nonceTooLow
    requires var s, t := Run(c, Start(chain), before), Run(c, Start(chain), before + [Callback(b, result)] + after);
             |s.ledger.handles| <= later < |t.ledger.handles|
    ensures var s, t := Run(c, Start(chain), before), Run(c, Start(chain), before + [Callback(b, result)] + after);
            NextId(s, b) < |s.ledger.handles|
            && t.ledger.handles[later].value != s.ledger.handles[NextId(s, b)].value
  {
    var e := Callback(b, result);
    var s := Run(c, Start(chain), before);
    CallbackFate(c, chain, before, b, result);
    assert (before + [e])[..|before|] == before;
    var m := Run(c, Start(chain), before + [e]);
    assert m == Step(c, s, e);
    RunContinues(c, Start(chain), before + [e], after);
    LedgerLater(c, m, after);
    RunKeepsFlow(c, chain, before + [e] + after);
    var t := Run(c, Start(chain), before + [e] + after);
    assert Runs.Held(t.ledger.handles[NextId(s, b)]);
    hide Run, Step, Enabled;
  }

  // ---------------------------------------------------------------- no holes

  /** A plain resync of the step, as a trip of the circuit breaker makes it, drops no free nonce
      that the chain still needs. */
  ghost predicate LosesNothing(s: State, e: Event) {
    e.Resync? && e.plain ==> Runs.DropsNothingNeeded(s.ledger, Runs.ResyncTo(e.chain))
  }

  /** Each step of the protocol is at most two events of the allocator's run. */
  lemma StepIsLedgerRun(c: Config, s: State, e: Event)
    ensures var l, t := s.ledger, Step(c, s, e).ledger;
            || t == l
            || (e.Take? && t == Runs.Step(l, Runs.ReserveNonce))
            || (e.Resync? && t == Runs.Step(l, if e.plain then Runs.ResyncTo(e.chain) else Runs.MaybeResyncTo(e.chain)))
            || (Settles(c, s, e).Handle?
                && var id := Settles(c, s, e).id;
                   || t == Runs.Step(l, Runs.Commit(id))
                   || t == Runs.Step(Runs.Step(l, Runs.SwapFlag(id)), Runs.ReturnNonce(id)))
  {
    hide Runs.Step;
    if Settles(c, s, e).Handle? { SettlingStep(c, s, e); }
  }

  /** What a resync means for the protocol: nothing that the chain has consumed is handed out any
      more, and of the rest the plain one forgets what is free below the head. */
  lemma ResyncForgets(c: Config, s: State, chain: nat, plain: bool)
    requires Inv(s)
    ensures var t := Step(c, s, Resync(chain, plain));
            && t == s.(ledger := t.ledger) && t.ledger.handles == s.ledger.handles
            && t.ledger.confirmed == Max(s.ledger.confirmed, chain)
            && forall n: nat :: n in Pool(t.ledger.alloc) <==>
                                chain <= n && if plain then s.ledger.alloc.head <= n else n in Pool(s.ledger.alloc)
  {
    Runs.StepOnPool(s.ledger, if plain then Runs.ResyncTo(chain) else Runs.MaybeResyncTo(chain));
    hide Runs.Step, Pool;
  }

  lemma StepKeepsNoHoles(c: Config, s: State, e: Event)
    requires Inv(s) && Runs.NoHoles(s.ledger) && (e.Resync? ==> !e.plain)
    ensures Runs.NoHoles(Step(c, s, e).ledger)
  {
    StepIsLedgerRun(c, s, e);
    var l := s.ledger;
    assert Runs.Exclusive(l);
    hide Step, Inv, Runs.Step, Runs.NoHoles, Runs.Exclusive;
    if e.Take? { Runs.StepKeepsNoHoles(l, Runs.ReserveNonce); }
    if e.Resync? { Runs.StepKeepsNoHoles(l, Runs.MaybeResyncTo(e.chain)); }
    if Settles(c, s, e).Handle? {
      var id := Settles(c, s, e).id;
      hide Settles;
      Runs.StepKeepsNoHoles(l, Runs.Commit(id));
      Runs.StepKeepsNoHoles(l, Runs.SwapFlag(id));
      Runs.StepKeepsExclusive(l, Runs.SwapFlag(id));
      Runs.StepKeepsNoHoles(Runs.Step(l, Runs.SwapFlag(id)), Runs.ReturnNonce(id));
    }
  }

  /** Exactly which steps keep the account without a hole: all but a plain resync that drops a
      nonce still needed. */
  lemma NoHolesStepIff(c: Config, s: State, e: Event)
    requires Inv(s) && Runs.NoHoles(s.ledger)
    ensures Runs.NoHoles(Step(c, s, e).ledger) <==> LosesNothing(s, e)
  {
    if e.Resync? && e.plain {
      assert Step(c, s, e).ledger == Runs.Step(s.ledger, Runs.ResyncTo(e.chain));
      Runs.ResyncNoHolesIff(s.ledger, e.chain);
      hide Step, Runs.Step, Runs.NoHoles;
    } else {
      StepKeepsNoHoles(c, s, e);
    }
  }

  /** The run with its first k events done. */
  function At(c: Config, chain: nat, events: seq<Event>, k: nat): State
    requires k <= |events|
  {
    Run(c, Start(chain), events[..k])
  }

  lemma AtNext(c: Config, chain: nat, events: seq<Event>, k: nat)
    requires k < |events|
    ensures Inv(At(c, chain, events, k))
    ensures At(c, chain, events, k + 1) == Step(c, At(c, chain, events, k), events[k])
  {
    hide Step, Inv, Flow;
    assert events[..k + 1][..k] == events[..k];
    RunKeepsFlow(c, chain, events[..k]);
  }

  lemma {:induction false} NoHolesUpTo(c: Config, chain: nat, events: seq<Event>, k: nat)
    requires k <= |events| && forall j :: 0 <= j < |events| ==> LosesNothing(At(c, chain, events, j), events[j])
    ensures Runs.NoHoles(At(c, chain, events, k).ledger)
  {
    if k > 0 {
      hide At, Step, Inv, Runs.NoHoles, LosesNothing;
      NoHolesUpTo(c, chain, events, k - 1);
      AtNext(c, chain, events, k - 1);
      NoHolesStepIff(c, At(c, chain, events, k - 1), events[k - 1]);
    }
  }

  /** When the protocol loses a nonce that the chain needs: whatever fails, times out, or is
      resynced from a lagging node, at no point of a run if and only if none of its plain
      resyncs drops one with the free list. */
  lemma RunNoHolesIff(c: Config, chain: nat, events: seq<Event>)
    ensures (forall k :: 0 <= k <= |events| ==> Runs.NoHoles(At(c, chain, events, k).ledger))
       <==> (forall k :: 0 <= k < |events| ==> LosesNothing(At(c, chain, events, k), events[k]))
  {
    hide At, Step, Inv, Runs.NoHoles, LosesNothing;
    if forall k :: 0 <= k < |events| ==> LosesNothing(At(c, chain, events, k), events[k]) {
      forall k | 0 <= k <= |events| ensures Runs.NoHoles(At(c, chain, events, k).ledger) {
        NoHolesUpTo(c, chain, events, k);
      }
    }
    if forall k :: 0 <= k <= |events| ==> Runs.NoHoles(At(c, chain, events, k).ledger) {
      forall k | 0 <= k < |events| ensures LosesNothing(At(c, chain, events, k), events[k]) {
        AtNext(c, chain, events, k);
        assert Runs.NoHoles(At(c, chain, events, k).ledger) && Runs.NoHoles(At(c, chain, events, k + 1).ledger);
        NoHolesStepIff(c, At(c, chain, events, k), events[k]);
      }
    }
  }

  /** A run that loses one, at any depth: a batch of two is in flight, the first send fails, and
      the circuit breaker's resync reads what was known before. Nobody can send that nonce any
      more, and the second one waits for it. */
  lemma TripLosesNonce(c: Config, chain: nat) returns (events: seq<Event>)
    requires c.depth >= 1 && c.capacity > 0
    ensures Undisturbed(Run(c, Start(chain), events)) && !Runs.NoHoles(Run(c, Start(chain), events).ledger)
  {
    var s0 := Start(chain);
    SerialBatches.RunExtends(c, s0, [], Loop);
    var e := [] + [Loop];
    assert Run(c, s0, e) == SerialBatches.Filled(chain, 0);
    SerialBatches.FillOne(c, chain, e, 0);
    e := e + [Take] + [Keep];
    SerialBatches.FillOne(c, chain, e, 1);
    e := e + [Take] + [Keep];
    SerialBatches.RunExtends(c, s0, e, EndFill);
    SerialBatches.RunExtends(c, s0, e + [EndFill], GetPermit);
    e := e + [EndFill] + [GetPermit];
    TwoReady(c, chain);
    hide Run, Step;
    SerialBatches.RunExtends(c, s0, e, Queue);
    TwoQueued(c, chain, Run(c, s0, e));
    e := e + [Queue];
    SerialBatches.RunExtends(c, s0, e, Callback(0, Error(false, false)));
    SerialBatches.RunExtends(c, s0, e + [Callback(0, Error(false, false))], Resync(chain, true));
    FirstFails(c, chain, Run(c, s0, e));
    events := e + [Callback(0, Error(false, false))] + [Resync(chain, true)];
  }

  ghost predicate TwoTaken(c: Config, chain: nat, s: State) {
    && s.ledger == Runs.Ledger(Allocator(chain + 2, []),
                               [Runs.Handle(chain, Runs.Live), Runs.Handle(chain + 1, Runs.Live)], chain)
    && Undisturbed(s)
  }

  lemma TwoReady(c: Config, chain: nat)
    requires c.depth >= 1
    ensures var s := Step(c, Step(c, SerialBatches.Filled(chain, 2), EndFill), GetPermit);
            TwoTaken(c, chain, s) && s.pc.Queueing? && s.batch == [0, 1] && s.flights == [] && s.slots == 0
  {
    var f := SerialBatches.Filled(chain, 2);
    assert f.ledger.handles == [Runs.Handle(chain, Runs.Live), Runs.Handle(chain + 1, Runs.Live)];
    assert f.batch == [0, 1];
  }

  lemma TwoQueued(c: Config, chain: nat, s: State)
    requires c.capacity > 0 && TwoTaken(c, chain, s)
    requires s.pc.Queueing? && s.batch == [0, 1] && s.flights == [] && s.slots == 0
    ensures var t := Step(c, s, Queue);
            TwoTaken(c, chain, t) && |t.flights| == 1 && t.flights[0].ids == [0, 1]
            && t.flights[0].next == 0 && !t.flights[0].settled
  {
    QueueFrame(c, s);
    hide Step, Launch;
  }

  lemma FirstFails(c: Config, chain: nat, s: State)
    requires TwoTaken(c, chain, s) && |s.flights| == 1 && s.flights[0].ids == [0, 1]
    requires s.flights[0].next == 0 && !s.flights[0].settled
    ensures var t := Step(c, Step(c, s, Callback(0, Error(false, false))), Resync(chain, true));
            Undisturbed(t) && !Runs.NoHoles(t.ledger)
  {
    var t := Step(c, s, Callback(0, Error(false, false)));
    assert t.ledger == Runs.Step(Runs.Step(s.ledger, Runs.SwapFlag(0)), Runs.ReturnNonce(0)) && Undisturbed(t);
    Runs.FirstReturned(chain);
    Runs.DroppedNonce(chain);
    hide Runs.Step, Runs.NoHoles;
  }

  ghost predicate Spent(s: State, n: nat) {
    exists i :: 0 <= i < |s.ledger.handles| && s.ledger.handles[i] == Runs.Handle(n, Runs.Committed)
  }

  lemma NoneLiveSpent(s: State, n: nat)
    requires Inv(s) && Runs.NoHoles(s.ledger) && forall id: nat :: !IsLive(s, id)
    requires s.ledger.confirmed <= n && n !in Pool(s.ledger.alloc)
    ensures Spent(s, n)
  {
    assert n in Runs.HeldValues(s.ledger.handles);
    var i :| 0 <= i < |s.ledger.handles| && Runs.Held(s.ledger.handles[i]) && s.ledger.handles[i].value == n;
    assert !IsLive(s, i);
  }

  /** The next k nonces are the lowest ones that are not spent: below each of them, down to the
      highest nonce the chain has confirmed, there are only nonces that a callback committed and
      the ones before it. */
  ghost predicate LowestUnspent(s: State, k: nat) {
    var ns := ReserveMany(s.ledger.alloc, k).0;
    forall i, n :: 0 <= i < k && s.ledger.confirmed <= n < ns[i] ==> n in ns[..i] || Spent(s, n)
  }

  lemma NoHolesLowest(s: State, k: nat)
    requires Inv(s) && Runs.NoHoles(s.ledger) && forall id: nat :: !IsLive(s, id)
    ensures LowestUnspent(s, k)
  {
    var ns := ReserveMany(s.ledger.alloc, k).0;
    hide Runs.NoHoles, ReserveMany, Pool;
    forall i, n | 0 <= i < k && s.ledger.confirmed <= n < ns[i] ensures n in ns[..i] || Spent(s, n) {
      if n in Pool(s.ledger.alloc) {
        LowestFirst(s.ledger.alloc, k, i, n);
      } else {
        NoneLiveSpent(s, n);
      }
    }
  }

  /** With a hole below the head, the reservations up to the head pass over it. */
  lemma LowestNoHoles(s: State)
    requires Inv(s) && LowestUnspent(s, |s.ledger.alloc.free| + 1)
    ensures Runs.NoHoles(s.ledger)
  {
    var a, k := s.ledger.alloc, |s.ledger.alloc.free| + 1;
    var ns := ReserveMany(a, k).0;
    forall i | 0 <= i < k ensures ns[i] == if i < |a.free| then a.free[i] else a.head + i - |a.free| {
      ReservationAt(a, k, i);
    }
    hide ReserveMany;
    forall n: nat | s.ledger.confirmed <= n < a.head
      ensures n in a.free || n in Runs.HeldValues(s.ledger.handles)
    {
      assert n < ns[k - 1];
      assert n in ns[..k - 1] || Spent(s, n);
      if n in ns[..k - 1] {
        var j :| 0 <= j < k - 1 && ns[..k - 1][j] == n;
        assert ns[j] == a.free[j];
      } else {
        var i :| 0 <= i < |s.ledger.handles| && s.ledger.handles[i] == Runs.Handle(n, Runs.Committed);
        assert Runs.Held(s.ledger.handles[i]);
      }
    }
  }

  /** What a new batch is made of, at depth one, as long as no acknowledgement wait was cut
      short: the lowest nonces that are not spent, however many it takes, if and only if no
      resync has left a hole. */
  lemma NextBatchLowestIff(c: Config, chain: nat, events: seq<Event>)
    requires c.depth == 1
    requires var s := Run(c, Start(chain), events);
             Undisturbed(s) && (s.pc.Top? || s.pc.Fill?) && s.batch == []
    ensures var s := Run(c, Start(chain), events);
            (forall k :: LowestUnspent(s, k)) <==> Runs.NoHoles(s.ledger)
  {
    var s := Run(c, Start(chain), events);
    RunKeepsFlow(c, chain, events);
    SerialBatches.NoneLiveAtBatchStart(c, chain, events);
    hide Run, Runs.NoHoles, Flow, Inv, LowestUnspent;
    if Runs.NoHoles(s.ledger) {
      forall k ensures LowestUnspent(s, k) {
        NoHolesLowest(s, k);
      }
    }
    if forall k :: LowestUnspent(s, k) {
      LowestNoHoles(s);
    }
  }

  // ---------------------------------------------------------------- progress

  /** Steps that the account's own goroutines take by themselves. */
  predicate Own(e: Event) {
    !e.Cancel? && !e.OthersAcquire? && !e.OthersRelease? && !e.Resync?
  }

  lemma {:induction false} SomeCounted(fs: seq<Batch>, p: Batch -> bool) returns (b: nat)
    requires Count(fs, p) > 0
    ensures b < |fs| && p(fs[b])
  {
    if p(fs[|fs| - 1]) { b := |fs| - 1; } else { b := SomeCounted(fs[..|fs| - 1], p); }
  }

  /** The protocol never deadlocks: a worker that has not stopped can take a step itself, or
      waits for a batch, for its acknowledgements or for its permit, whose wait can end. No
      permit is ever lost to a batch that was refused or timed out. */
  lemma WorkerNeverStuck(c: Config, chain: nat, events: seq<Event>) returns (e: Event)
    requires !Run(c, Start(chain), events).pc.Stopped?
    ensures Own(e) && Enabled(c, Run(c, Start(chain), events), e)
    ensures var s := Run(c, Start(chain), events);
            TouchesFlight(e) ==>
              e.b < |s.flights| && IsWaiting(s.flights[e.b]) && (s.pc.Ready? || s.pc == Awaiting(e.b))
  {
    var s := Run(c, Start(chain), events);
    RunKeepsFlow(c, chain, events);
    hide Run, Step, Inv, Sizes, Waiters, SlotsMatch;
    match s.pc
    case Top => e := if s.stopping then Stop else Loop;
    case Fill => e := EndFill;
    case Holding(_) => e := Keep;
    case Queueing(_) => e := Queue;
    case Dropping(_) => e := Drop;
    case Awaiting(b) => e := EndOf(s, b);
    case Ready => e := ReadyProgress(c, s);
  }

  lemma ReadyProgress(c: Config, s: State) returns (e: Event)
    requires PermitsMatch(c, s) && s.pc.Ready?
    ensures Own(e) && Enabled(c, s, e)
    ensures TouchesFlight(e) ==> e.b < |s.flights| && IsWaiting(s.flights[e.b])
  {
    if c.depth > 1 && s.permits >= c.depth {
      var b := SomeCounted(s.flights, IsWaiting);
      e := EndOf(s, b);
    } else {
      e := GetPermit;
    }
  }

  /** The step that ends a wait: at once if nothing is missing, by the timeout otherwise. */
  function EndOf(s: State, b: nat): Event
    requires b < |s.flights| && IsWaiting(s.flights[b])
  {
    if s.flights[b].waiter.remaining > 0 then Timeout(b) else EndWait(b)
  }

  // ---------------------------------------------------------------- stopping

  lemma StoppedStep(c: Config, s: State, e: Event)
    requires Inv(s) && Flow(c, s) && s.pc.Stopped?
    ensures var t := Step(c, s, e); t.pc.Stopped? && t.batch == s.batch
  {
    if Enabled(c, s, e) && TouchesFlight(e) {
      FlightStepFrame(c, s, e);
    }
  }

  lemma {:induction false} StoppedRun(c: Config, chain: nat, events: seq<Event>, more: seq<Event>)
    requires Run(c, Start(chain), events).pc.Stopped?
    ensures var s, t := Run(c, Start(chain), events), Run(c, Start(chain), events + more);
            t.pc.Stopped? && t.batch == s.batch
    decreases |more|
  {
    if more == [] {
      assert events + more == events;
    } else {
      var init, e := more[..|more| - 1], more[|more| - 1];
      hide Step, Inv, Flow;
      assert (events + more)[..|events + more| - 1] == events + init;
      assert Run(c, Start(chain), events + more) == Step(c, Run(c, Start(chain), events + init), e);
      hide Run;
      StoppedRun(c, chain, events, init);
      RunKeepsFlow(c, chain, events + init);
      StoppedStep(c, Run(c, Start(chain), events + init), e);
    }
  }

  /** A worker that stops on a cancelled wait leaves its partial batch behind: nothing that
      happens afterwards settles those nonces. */
  lemma StrandedForever(c: Config, chain: nat, events: seq<Event>, more: seq<Event>, k: nat)
    requires Run(c, Start(chain), events).pc.Stopped? && k < |Run(c, Start(chain), events).batch|
    ensures IsLive(Run(c, Start(chain), events + more), Run(c, Start(chain), events).batch[k])
  {
    StoppedRun(c, chain, events, more);
    RunKeepsFlow(c, chain, events + more);
    var t := Run(c, Start(chain), events + more);
    assert t.place[t.batch[k]] == OwnPlace(t, k);
  }

  /** Once the worker has stopped and all callbacks are through, every nonce is settled exactly
      if the worker stopped with an empty batch. */
  lemma StoppedSettlesAllIff(c: Config, chain: nat, events: seq<Event>)
    requires var s := Run(c, Start(chain), events);
             s.pc.Stopped? && forall b :: 0 <= b < |s.flights| ==> !Running(s.flights[b])
    ensures var s := Run(c, Start(chain), events);
            (forall id: nat :: !IsLive(s, id)) <==> s.batch == []
  {
    var s := Run(c, Start(chain), events);
    RunKeepsFlow(c, chain, events);
    hide Run, Step;
    assert s.batch != [] ==> s.place[s.batch[0]] == OwnPlace(s, 0) && IsLive(s, s.batch[0]);
    assert forall b :: 0 <= b < |s.flights| ==> PlacedAt(s.place, s.flights[b], b);
  }

  /** And it can happen: one transaction in the batch, a second one waiting for its permit when
      the test is cancelled. */
  lemma QuitStrands(c: Config, chain: nat)
    ensures var s := Run(c, Start(chain), [Loop, Take, Keep, Take, Cancel, Quit]);
            s.pc.Stopped? && s.batch == [0] && IsLive(s, 0) && !IsLive(s, 1)
  {
    var s := Start(chain);
    RunThree(c, s, Loop, Take, Keep);
    RunContinues(c, s, [Loop, Take, Keep], [Take, Cancel, Quit]);
    assert [Loop, Take, Keep] + [Take, Cancel, Quit] == [Loop, Take, Keep, Take, Cancel, Quit];
    OneKept(c, chain);
    RunThree(c, OneInBatch(chain), Take, Cancel, Quit);
    QuitSecond(c, chain);
    hide Run, Step;
  }

  /** The worker with the account's first nonce in its batch. */
  function OneInBatch(chain: nat): State {
    Start(chain).(ledger := Runs.Ledger(Allocator(chain + 1, []), [Runs.Handle(chain, Runs.Live)], chain),
                  pc := Fill, batch := [0], place := [InBatch(0)])
  }

  lemma OneKept(c: Config, chain: nat)
    ensures Step(c, Step(c, Step(c, Start(chain), Loop), Take), Keep) == OneInBatch(chain)
  {
  }

  lemma QuitSecond(c: Config, chain: nat)
    ensures var s := Step(c, Step(c, Step(c, OneInBatch(chain), Take), Cancel), Quit);
            s.pc.Stopped? && s.batch == [0] && IsLive(s, 0) && !IsLive(s, 1)
  {
    var s := Step(c, Step(c, OneInBatch(chain), Take), Cancel);
    assert s.ledger.alloc == Allocator(chain + 2, []);
    assert s.ledger.handles == [Runs.Handle(chain, Runs.Live), Runs.Handle(chain + 1, Runs.Live)];
    assert s.pc == Holding(1) && s.stopping && s.batch == [0];
  }

  lemma RunThree(c: Config, s: State, e: Event, f: Event, g: Event)
    ensures Run(c, s, [e, f, g]) == Step(c, Step(c, Step(c, s, e), f), g)
  {
    hide Step;
    assert [e, f, g][..2] == [e, f] && [e, f][..1] == [e] && [e][..0] == [];
    assert Run(c, s, [e]) == Step(c, s, e);
    assert Run(c, s, [e, f]) == Step(c, Step(c, s, e), f);
  }
}

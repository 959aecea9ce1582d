/** Runs of one account's allocator shared by any number of goroutines
    (internal/account/account.go).

    Every critical section is one event.  A rollback is two: the swap of the handle's flag,
    and later the insertion under the lock; other goroutines run in between.  Handles are
    numbered in the order in which they were issued. */
module NonceRuns {
  import opened NonceAllocator
  import opened Numbers

  /** Returning: the flag is swapped, the nonce is not back in the allocator yet. */
  datatype Status = Live | Returning | Committed | Returned

  datatype Handle = Handle(value: nat, status: Status)

  /** `confirmed` is the highest nonce that any resync has read since the last forced one. */
  datatype Ledger = Ledger(alloc: Allocator, handles: seq<Handle>, confirmed: nat)

  datatype Event =
    | ReserveNonce
    | Commit(id: nat)
    | SwapFlag(id: nat)
    | ReturnNonce(id: nat)
    | ResyncTo(chain: nat)
    | MaybeResyncTo(chain: nat)
    | ForceResyncTo(chain: nat)

  /** A run starts after a forced resync, with no handle outstanding. */
  function Start(chain: nat): Ledger {
    Ledger(ForceResync(chain), [], chain)
  }

  predicate HasStatus(l: Ledger, id: nat, status: Status) {
    id < |l.handles| && l.handles[id].status == status
  }

  function SetStatus(l: Ledger, id: nat, status: Status): Ledger
    requires id < |l.handles|
  {
    l.(handles := l.handles[id := l.handles[id].(status := status)])
  }

  /** A handle whose flag is set already is not touched by Commit or Rollback. */
  function Step(l: Ledger, e: Event): Ledger {
    match e
    case ReserveNonce =>
      var (n, a) := Reserve(l.alloc);
      l.(alloc := a, handles := l.handles + [Handle(n, Live)])
    case Commit(id) =>
      if HasStatus(l, id, Live) then SetStatus(l, id, Committed) else l
    case SwapFlag(id) =>
      if HasStatus(l, id, Live) then SetStatus(l, id, Returning) else l
    case ReturnNonce(id) =>
      if HasStatus(l, id, Returning)
      then SetStatus(l, id, Returned).(alloc := Rollback(l.alloc, l.handles[id].value))
      else l
    case ResyncTo(chain) =>
      l.(alloc := Resync(l.alloc, chain), confirmed := Max(l.confirmed, chain))
    case MaybeResyncTo(chain) =>
      l.(alloc := MaybeResync(l.alloc, chain), confirmed := Max(l.confirmed, chain))
    case ForceResyncTo(chain) =>
      l.(alloc := ForceResync(chain), confirmed := chain)
  }

  function Run(l: Ledger, events: seq<Event>): Ledger
    decreases |events|
  {
    if events == [] then l else Step(Run(l, events[..|events| - 1]), events[|events| - 1])
  }

  // ---------------------------------------------------------------- exclusivity

  /** The handle keeps its nonce: it is in use, on its way back, or spent. */
  predicate Held(h: Handle) { h.status != Returned }

  ghost predicate HeldOutsidePool(l: Ledger) {
    forall i :: 0 <= i < |l.handles| && Held(l.handles[i]) ==> l.handles[i].value !in Pool(l.alloc)
  }

  /** A handle keeps its nonce against every handle issued after it. */
  ghost predicate NeverReissued(l: Ledger) {
    forall i, j :: 0 <= i < j < |l.handles| && Held(l.handles[i]) ==> l.handles[i].value != l.handles[j].value
  }

  ghost predicate Exclusive(l: Ledger) {
    WellFormed(l.alloc) && HeldOutsidePool(l) && NeverReissued(l)
  }

  /** A forced resync is safe when every handle that keeps its nonce keeps one below the
      nonce read; every other event is. */
  ghost predicate Safe(l: Ledger, e: Event) {
    e.ForceResyncTo? ==> forall i :: 0 <= i < |l.handles| && Held(l.handles[i]) ==> l.handles[i].value < e.chain
  }

  lemma StepKeepsExclusive(l: Ledger, e: Event)
    requires Exclusive(l) && !e.ForceResyncTo?
    ensures Exclusive(Step(l, e))
  {
    match e
    case ReserveNonce =>
      ReserveExtractsMinimum(l.alloc);
    case ReturnNonce(id) =>
      if HasStatus(l, id, Returning) {
        assert Held(l.handles[id]);
        RollbackInserts(l.alloc, l.handles[id].value);
        var l' := Step(l, e);
        forall i | 0 <= i < |l'.handles| && Held(l'.handles[i]) ensures l'.handles[i].value !in Pool(l'.alloc) {
          assert i != id && Held(l.handles[i]);
        }
      }
    case ResyncTo(chain) => ResyncPools(l.alloc, chain);
    case MaybeResyncTo(chain) => ResyncPools(l.alloc, chain);
    case _ =>
  }

  /** Exactly which events keep exclusivity: all but the unsafe forced resyncs. */
  lemma ExclusiveIffSafe(l: Ledger, e: Event)
    requires Exclusive(l)
    ensures Exclusive(Step(l, e)) <==> Safe(l, e)
  {
    if !e.ForceResyncTo? { StepKeepsExclusive(l, e); }
  }

  /** What each event means for the nonces that may still be handed out, for the handles, and for
      what is known of the chain. */
  lemma StepOnPool(l: Ledger, e: Event)
    requires Exclusive(l)
    ensures var m, all, hs := Step(l, e), Pool(l.alloc), l.handles;
            match e
            case ReserveNonce =>
              && |m.handles| == |hs| + 1 && m.handles[..|hs|] == hs && m.handles[|hs|].status == Live
              && var n := m.handles[|hs|].value;
              && n in all && (forall k :: k in all ==> n <= k)
              && Pool(m.alloc) == all - iset{n} && m.confirmed == l.confirmed
            case Commit(id) =>
              && m.alloc == l.alloc && m.confirmed == l.confirmed
              && m.handles == if id < |hs| && hs[id].status == Live then hs[id := Handle(hs[id].value, Committed)]
                              else hs
            case SwapFlag(id) =>
              && m.alloc == l.alloc && m.confirmed == l.confirmed
              && m.handles == if id < |hs| && hs[id].status == Live then hs[id := Handle(hs[id].value, Returning)]
                              else hs
            case ReturnNonce(id) =>
              && m.confirmed == l.confirmed
              && (if id < |hs| && hs[id].status == Returning
                  then && m.handles == hs[id := Handle(hs[id].value, Returned)]
                       && Pool(m.alloc) == all + iset{hs[id].value}
                  else m == l)
            case ResyncTo(chain) =>
              && m.handles == hs && m.confirmed == Max(l.confirmed, chain)
              && forall n: nat :: n in Pool(m.alloc) <==> l.alloc.head <= n && chain <= n
            case MaybeResyncTo(chain) =>
              && m.handles == hs && m.confirmed == Max(l.confirmed, chain)
              && forall n: nat :: n in Pool(m.alloc) <==> n in all && chain <= n
            case ForceResyncTo(chain) =>
              && m.handles == hs && m.confirmed == chain
              && forall n: nat :: n in Pool(m.alloc) <==> chain <= n
  {
    match e
    case ReserveNonce => ReserveExtractsMinimum(l.alloc);
    case ReturnNonce(id) =>
      if HasStatus(l, id, Returning) {
        assert Held(l.handles[id]);
        RollbackInserts(l.alloc, l.handles[id].value);
      }
    case ResyncTo(chain) => ResyncPools(l.alloc, chain);
    case MaybeResyncTo(chain) => ResyncPools(l.alloc, chain);
    case _ =>
  }

  /** The run with its first k events done. */
  function At(chain: nat, events: seq<Event>, k: nat): Ledger
    requires k <= |events|
  {
    Run(Start(chain), events[..k])
  }

  lemma AtNext(chain: nat, events: seq<Event>, k: nat)
    requires k < |events|
    ensures At(chain, events, k + 1) == Step(At(chain, events, k), events[k])
  {
    assert events[..k + 1][..k] == events[..k];
  }

  ghost predicate ForcedSafely(chain: nat, events: seq<Event>) {
    forall k :: 0 <= k < |events| ==> Safe(At(chain, events, k), events[k])
  }

  lemma {:induction false} ExclusiveUpTo(chain: nat, events: seq<Event>, k: nat)
    requires k <= |events| && ForcedSafely(chain, events)
    ensures Exclusive(At(chain, events, k))
  {
    if k > 0 {
      ExclusiveUpTo(chain, events, k - 1);
      AtNext(chain, events, k - 1);
      assert Safe(At(chain, events, k - 1), events[k - 1]);
      ExclusiveIffSafe(At(chain, events, k - 1), events[k - 1]);
    }
  }

  /** In every run the free list stays sorted and below the head, held nonces stay out of the
      pool, and no nonce that is in use, being returned or spent is handed out again, as long
      as the forced resyncs are safe. */
  lemma RunExclusive(chain: nat, events: seq<Event>)
    requires ForcedSafely(chain, events)
    ensures Exclusive(Run(Start(chain), events))
  {
    ExclusiveUpTo(chain, events, |events|);
    assert events[..|events|] == events;
  }

  /** And exactly then: a run is exclusive throughout if and only if each forced resync of it
      finds every held nonce below the nonce it reads. */
  lemma RunExclusiveIff(chain: nat, events: seq<Event>)
    ensures (forall k :: 0 <= k <= |events| ==> Exclusive(At(chain, events, k))) <==> ForcedSafely(chain, events)
  {
    if ForcedSafely(chain, events) {
      forall k | 0 <= k <= |events| ensures Exclusive(At(chain, events, k)) {
        ExclusiveUpTo(chain, events, k);
      }
    }
    if forall k :: 0 <= k <= |events| ==> Exclusive(At(chain, events, k)) {
      forall k | 0 <= k < |events| ensures Safe(At(chain, events, k), events[k]) {
        AtNext(chain, events, k);
        assert Exclusive(At(chain, events, k + 1));
        ExclusiveIffSafe(At(chain, events, k), events[k]);
      }
    }
  }

  ghost predicate Unforced(events: seq<Event>) {
    forall k :: 0 <= k < |events| ==> !events[k].ForceResyncTo?
  }

  lemma {:induction false} UnforcedKeepsExclusive(l: Ledger, events: seq<Event>)
    requires Exclusive(l) && Unforced(events)
    ensures Exclusive(Run(l, events))
    decreases |events|
  {
    if events != [] {
      UnforcedKeepsExclusive(l, events[..|events| - 1]);
      StepKeepsExclusive(Run(l, events[..|events| - 1]), events[|events| - 1]);
    }
  }

  /** What a handle is after one more event: settled handles stay as they are. */
  ghost predicate Later(l: Ledger, m: Ledger) {
    && |l.handles| <= |m.handles|
    && forall i :: 0 <= i < |l.handles| ==>
         && m.handles[i].value == l.handles[i].value
         && (l.handles[i].status in {Committed, Returned} ==> m.handles[i] == l.handles[i])
         && (l.handles[i].status == Returning ==> m.handles[i].status in {Returning, Returned})
  }

  lemma {:induction false} RunOnlySettles(l: Ledger, events: seq<Event>)
    ensures Later(l, Run(l, events))
    decreases |events|
  {
    if events != [] {
      RunOnlySettles(l, events[..|events| - 1]);
    }
  }

  lemma {:induction false} RunComposes(l: Ledger, first: seq<Event>, second: seq<Event>)
    ensures Run(l, first + second) == Run(Run(l, first), second)
    decreases |second|
  {
    hide Step;
    if second == [] {
      assert first + second == first;
    } else {
      RunComposes(l, first, second[..|second| - 1]);
      assert (first + second)[..|first + second| - 1] == first + second[..|second| - 1];
    }
  }

  /** A nonce committed at some point of a run (on success, on "already known" or on "nonce
      too low") is not the nonce of any handle issued after that point. */
  lemma CommittedNeverReturns(chain: nat, before: seq<Event>, after: seq<Event>, id: nat, later: nat)
    requires ForcedSafely(chain, before + after)
    requires HasStatus(Run(Start(chain), before), id, Committed)
    requires |Run(Start(chain), before).handles| <= later < |Run(Start(chain), before + after).handles|
    ensures Run(Start(chain), before + after).handles[later].value
         != Run(Start(chain), before).handles[id].value
  {
    var l := Run(Start(chain), before);
    RunComposes(Start(chain), before, after);
    RunOnlySettles(l, after);
    RunExclusive(chain, before + after);
    assert Held(Run(l, after).handles[id]);
  }

  // ---------------------------------------------------------------- forced resyncs

  function Reservations(k: nat): seq<Event> { seq(k, _ => ReserveNonce) }

  lemma {:induction false} CountUp(l: Ledger, k: nat)
    requires l.alloc.free == []
    ensures Run(l, Reservations(k)) ==
            l.(alloc := Allocator(l.alloc.head + k, []),
               handles := l.handles + seq(k, i requires 0 <= i => Handle(l.alloc.head + i, Live)))
  {
    if k > 0 {
      CountUp(l, k - 1);
      assert Reservations(k)[..k - 1] == Reservations(k - 1);
    }
  }

  /** An unsafe forced resync does reissue: reserving up to the held nonce hands it out again
      beside its holder. */
  lemma UnsafeForceReissues(l: Ledger, chain: nat, i: nat)
    requires i < |l.handles| && Held(l.handles[i]) && l.handles[i].value >= chain
    ensures !NeverReissued(Run(Step(l, ForceResyncTo(chain)), Reservations(l.handles[i].value - chain + 1)))
  {
    var k := l.handles[i].value - chain + 1;
    var m, r := Step(l, ForceResyncTo(chain)), Run(Step(l, ForceResyncTo(chain)), Reservations(k));
    CountUp(m, k);
    assert r.handles[i] == l.handles[i] && r.handles[|l.handles| + k - 1].value == l.handles[i].value;
  }

  /** When a forced resync is safe: no continuation of it ever reissues a held nonce if and
      only if every held nonce is below the one read. Committed nonces count as held: the
      chain may not have seen them yet. */
  lemma ForceSafeIff(l: Ledger, chain: nat)
    requires Exclusive(l)
    ensures (forall more :: Unforced(more) ==> NeverReissued(Run(Step(l, ForceResyncTo(chain)), more)))
       <==> Safe(l, ForceResyncTo(chain))
  {
    var m := Step(l, ForceResyncTo(chain));
    if Safe(l, ForceResyncTo(chain)) {
      forall more | Unforced(more) ensures NeverReissued(Run(m, more)) {
        UnforcedKeepsExclusive(m, more);
      }
    } else {
      var i :| 0 <= i < |l.handles| && Held(l.handles[i]) && l.handles[i].value >= chain;
      UnsafeForceReissues(l, chain, i);
      assert Unforced(Reservations(l.handles[i].value - chain + 1));
    }
  }

  lemma RunPair(l: Ledger, events: seq<Event>, d: Event, e: Event)
    ensures Run(l, events + [d, e]) == Step(Step(Run(l, events), d), e)
  {
    var s := events + [d, e];
    assert s[..|s| - 1] == events + [d] && (events + [d])[..|events|] == events;
  }

  /** A stale handle at work: two nonces reserved, a forced resync back to the first, and the
      second one rolled back. It comes out of the free list and later out of the counter. */
  lemma StaleRollbackRun(chain: nat)
    ensures var l := Run(Start(chain), [ReserveNonce, ReserveNonce] + [ForceResyncTo(chain), SwapFlag(1)]
                                       + [ReturnNonce(1), ReserveNonce] + [ReserveNonce, ReserveNonce]);
            && |l.handles| == 5
            && l.handles[2] == Handle(chain + 1, Live) && l.handles[4] == Handle(chain + 1, Live)
  {
    var e1 := [ReserveNonce, ReserveNonce];
    var e2 := e1 + [ForceResyncTo(chain), SwapFlag(1)];
    var e3 := e2 + [ReturnNonce(1), ReserveNonce];
    assert e1 == [] + [ReserveNonce, ReserveNonce];
    RunPair(Start(chain), [], ReserveNonce, ReserveNonce);
    RunPair(Start(chain), e1, ForceResyncTo(chain), SwapFlag(1));
    RunPair(Start(chain), e2, ReturnNonce(1), ReserveNonce);
    RunPair(Start(chain), e3, ReserveNonce, ReserveNonce);
    var l2 := Ledger(Allocator(chain, []), [Handle(chain, Live), Handle(chain + 1, Returning)], chain);
    assert Run(Start(chain), e2) == l2;
    StaleReturned(chain);
    hide Step;
    assert Run(Start(chain), e3).handles[2] == Handle(chain + 1, Live);
    StaleReserved(Run(Start(chain), e3));
  }

  lemma StaleReturned(chain: nat)
    ensures var l := Ledger(Allocator(chain, []), [Handle(chain, Live), Handle(chain + 1, Returning)], chain);
            Step(Step(l, ReturnNonce(1)), ReserveNonce)
            == Ledger(Allocator(chain, []),
                      [Handle(chain, Live), Handle(chain + 1, Returned), Handle(chain + 1, Live)], chain)
  {
    assert Insert([], chain + 1) == [chain + 1];
  }

  lemma StaleReserved(l: Ledger)
    requires l.alloc.free == []
    ensures Step(Step(l, ReserveNonce), ReserveNonce).handles
         == l.handles + [Handle(l.alloc.head, Live), Handle(l.alloc.head + 1, Live)]
  {
  }

  /** The same on the fast path, where the allocator even stays well formed: a nonce is
      reserved, a forced resync gives it out again, and the first holder's rollback makes it
      the next reservation while the second holder still uses it. */
  lemma StaleFastPathRun(chain: nat)
    ensures var l := Run(Start(chain), [ReserveNonce, ForceResyncTo(chain)] + [ReserveNonce, SwapFlag(0)]
                                       + [ReturnNonce(0), ReserveNonce]);
            && WellFormed(l.alloc) && |l.handles| == 3
            && l.handles[1] == Handle(chain, Live) && l.handles[2] == Handle(chain, Live)
  {
    var e1 := [ReserveNonce, ForceResyncTo(chain)];
    var e2 := e1 + [ReserveNonce, SwapFlag(0)];
    assert e1 == [] + [ReserveNonce, ForceResyncTo(chain)];
    RunPair(Start(chain), [], ReserveNonce, ForceResyncTo(chain));
    RunPair(Start(chain), e1, ReserveNonce, SwapFlag(0));
    RunPair(Start(chain), e2, ReturnNonce(0), ReserveNonce);
    var l2 := Ledger(Allocator(chain + 1, []), [Handle(chain, Returning), Handle(chain, Live)], chain);
    assert Run(Start(chain), e2) == l2;
  }

  // ---------------------------------------------------------------- no holes

  ghost function HeldValues(hs: seq<Handle>): set<nat> {
    set i | 0 <= i < |hs| && Held(hs[i]) :: hs[i].value
  }

  /** From the highest confirmed nonce up to the head every nonce is free or held: none is
      lost, so the chain never waits for a nonce that nobody can send. */
  ghost predicate NoHoles(l: Ledger) {
    forall n: nat :: l.confirmed <= n < l.alloc.head ==> n in l.alloc.free || n in HeldValues(l.handles)
  }

  lemma HeldOutside(l: Ledger)
    requires Exclusive(l)
    ensures forall v :: v in HeldValues(l.handles) ==> v !in Pool(l.alloc)
  {
    forall i | 0 <= i < |l.handles| && Held(l.handles[i]) ensures l.handles[i].value !in Pool(l.alloc) {}
  }

  lemma HeldValuesAfterSet(l: Ledger, id: nat, status: Status)
    requires id < |l.handles| && Held(l.handles[id])
    ensures HeldValues(SetStatus(l, id, status).handles) >= HeldValues(l.handles) - {l.handles[id].value}
    ensures status != Returned ==> HeldValues(SetStatus(l, id, status).handles) >= HeldValues(l.handles)
  {
    var hs, hs' := l.handles, SetStatus(l, id, status).handles;
    forall v | v in HeldValues(hs) && (status != Returned || v != hs[id].value) ensures v in HeldValues(hs') {
      var i :| 0 <= i < |hs| && Held(hs[i]) && hs[i].value == v;
      assert Held(hs'[i]) && hs'[i].value == v;
    }
  }

  lemma StepKeepsNoHoles(l: Ledger, e: Event)
    requires Exclusive(l) && NoHoles(l) && !e.ResyncTo?
    ensures NoHoles(Step(l, e))
  {
    var l' := Step(l, e);
    match e
    case ReserveNonce =>
      ReserveExtractsMinimum(l.alloc);
      forall v | v in HeldValues(l.handles) || v == Reserve(l.alloc).0 ensures v in HeldValues(l'.handles) {
        if v in HeldValues(l.handles) {
          var i :| 0 <= i < |l.handles| && Held(l.handles[i]) && l.handles[i].value == v;
          assert l'.handles[i] == l.handles[i];
        } else {
          assert l'.handles[|l.handles|] == Handle(v, Live);
        }
      }
      forall n: nat | l'.confirmed <= n < l'.alloc.head ensures n in l'.alloc.free || n in HeldValues(l'.handles) {
        if n != Reserve(l.alloc).0 {
          assert n in Pool(l.alloc) <==> n in Pool(l'.alloc);
        }
      }
    case Commit(id) =>
      if HasStatus(l, id, Live) { HeldValuesAfterSet(l, id, Committed); }
    case SwapFlag(id) =>
      if HasStatus(l, id, Live) { HeldValuesAfterSet(l, id, Returning); }
    case ReturnNonce(id) =>
      if HasStatus(l, id, Returning) {
        HeldValuesAfterSet(l, id, Returned);
        var v := l.handles[id].value;
        assert Held(l.handles[id]);
        RollbackInserts(l.alloc, v);
        forall n: nat | l'.confirmed <= n < l'.alloc.head ensures n in l'.alloc.free || n in HeldValues(l'.handles) {
          assert n in Pool(l'.alloc) <==> n in Pool(l.alloc) || n == v;
        }
      }
    case _ =>
  }

  /** The plain resync is what can leave one: it keeps the property exactly when no free
      nonce that the chain still needs is thrown away with the list. */
  lemma ResyncNoHolesIff(l: Ledger, chain: nat)
    requires Exclusive(l) && NoHoles(l)
    ensures NoHoles(Step(l, ResyncTo(chain)))
       <==> (forall n :: n in l.alloc.free ==> n < Max(l.confirmed, chain))
  {
    var l' := Step(l, ResyncTo(chain));
    if NoHoles(l') {
      forall n | n in l.alloc.free ensures n < Max(l.confirmed, chain) {
        HeldOutside(l);
        assert n in Pool(l.alloc);
      }
    }
  }

  /** A plain resync drops no free nonce that the chain still needs. */
  ghost predicate DropsNothingNeeded(l: Ledger, e: Event) {
    e.ResyncTo? ==> forall n :: n in l.alloc.free ==> n < Max(l.confirmed, e.chain)
  }

  /** A run has no hole at any point if and only if none of its plain resyncs drops one. */
  lemma RunNoHolesIff(chain: nat, events: seq<Event>)
    requires ForcedSafely(chain, events)
    ensures (forall k :: 0 <= k <= |events| ==> NoHoles(At(chain, events, k)))
       <==> (forall k :: 0 <= k < |events| ==> DropsNothingNeeded(At(chain, events, k), events[k]))
  {
    forall k | 0 <= k < |events| && NoHoles(At(chain, events, k))
      ensures NoHoles(At(chain, events, k + 1)) <==> DropsNothingNeeded(At(chain, events, k), events[k])
    {
      ExclusiveUpTo(chain, events, k);
      AtNext(chain, events, k);
      NoHolesStepIff(At(chain, events, k), events[k]);
    }
    if forall k :: 0 <= k < |events| ==> DropsNothingNeeded(At(chain, events, k), events[k]) {
      forall k | 0 <= k <= |events| ensures NoHoles(At(chain, events, k)) {
        NoHolesUpTo(chain, events, k);
      }
    }
    if forall k :: 0 <= k <= |events| ==> NoHoles(At(chain, events, k)) {
      forall k | 0 <= k < |events| ensures DropsNothingNeeded(At(chain, events, k), events[k]) {
        assert NoHoles(At(chain, events, k)) && NoHoles(At(chain, events, k + 1));
      }
    }
  }

  /** However stale and out of order the confirmed nonces are that the resyncs read, no hole is
      left as long as the plain ones drop nothing needed; the rate-limited ones never do. */
  lemma RunNoHoles(chain: nat, events: seq<Event>)
    requires ForcedSafely(chain, events)
    requires forall k :: 0 <= k < |events| ==> DropsNothingNeeded(At(chain, events, k), events[k])
    ensures NoHoles(Run(Start(chain), events))
  {
    NoHolesUpTo(chain, events, |events|);
    assert events[..|events|] == events;
  }

  /** And a run that leaves one: two nonces reserved, the first one rolled back, and a plain
      resync that reads what was known before. */
  lemma PlainResyncLoses(chain: nat)
    ensures var l := Run(Start(chain), [] + [ReserveNonce, ReserveNonce] + [SwapFlag(0), ReturnNonce(0)]
                                       + [ResyncTo(chain)]);
            !NoHoles(l) && l.confirmed == chain && l.alloc == Allocator(chain + 2, [])
  {
    var a := [] + [ReserveNonce, ReserveNonce];
    var b := a + [SwapFlag(0), ReturnNonce(0)];
    RunPair(Start(chain), [], ReserveNonce, ReserveNonce);
    RunPair(Start(chain), a, SwapFlag(0), ReturnNonce(0));
    assert (b + [ResyncTo(chain)])[..|b|] == b;
    FirstReturned(chain);
    hide Run;
    DroppedNonce(chain);
  }

  lemma FirstReturned(chain: nat)
    ensures var l := Ledger(Allocator(chain + 2, []), [Handle(chain, Live), Handle(chain + 1, Live)], chain);
            && Step(Step(Start(chain), ReserveNonce), ReserveNonce) == l
            && Step(Step(l, SwapFlag(0)), ReturnNonce(0))
               == Ledger(Allocator(chain + 2, [chain]), [Handle(chain, Returned), Handle(chain + 1, Live)], chain)
  {
    assert Insert([], chain) == [chain];
  }

  /** A nonce of the free list is lost with it. */
  lemma DroppedNonce(chain: nat)
    ensures var l := Ledger(Allocator(chain + 2, [chain]), [Handle(chain, Returned), Handle(chain + 1, Live)], chain);
            !NoHoles(Step(l, ResyncTo(chain)))
  {
    var l := Ledger(Allocator(chain + 2, [chain]), [Handle(chain, Returned), Handle(chain + 1, Live)], chain);
    var m := Step(l, ResyncTo(chain));
    assert chain !in m.alloc.free && chain !in HeldValues(m.handles);
  }

  lemma NoHolesStepIff(l: Ledger, e: Event)
    requires Exclusive(l) && NoHoles(l)
    ensures NoHoles(Step(l, e)) <==> DropsNothingNeeded(l, e)
  {
    if e.ResyncTo? { ResyncNoHolesIff(l, e.chain); } else { StepKeepsNoHoles(l, e); }
  }

  lemma {:induction false} NoHolesUpTo(chain: nat, events: seq<Event>, k: nat)
    requires k <= |events| && ForcedSafely(chain, events)
    requires forall j :: 0 <= j < |events| ==> DropsNothingNeeded(At(chain, events, j), events[j])
    ensures NoHoles(At(chain, events, k))
  {
    if k > 0 {
      NoHolesUpTo(chain, events, k - 1);
      ExclusiveUpTo(chain, events, k - 1);
      AtNext(chain, events, k - 1);
      NoHolesStepIff(At(chain, events, k - 1), events[k - 1]);
    }
  }

  // ---------------------------------------------------------------- head and confirmed nonce

  ghost predicate HeadKept(l: Ledger) { l.confirmed <= l.alloc.head }

  /** The one step that takes the head below a nonce that a resync has read: the fast path of
      a rollback, which does not look at the chain. */
  predicate Undercuts(l: Ledger, e: Event) {
    e.ReturnNonce? && HasStatus(l, e.id, Returning)
    && l.handles[e.id].value + 1 == l.alloc.head == l.confirmed
  }

  lemma HeadKeptIff(l: Ledger, e: Event)
    requires HeadKept(l)
    ensures HeadKept(Step(l, e)) <==> !Undercuts(l, e)
  {
  }

  lemma {:induction false} HeadKeptUpTo(chain: nat, events: seq<Event>, k: nat)
    requires k <= |events| && forall j :: 0 <= j < |events| ==> !Undercuts(At(chain, events, j), events[j])
    ensures HeadKept(At(chain, events, k))
  {
    if k > 0 {
      HeadKeptUpTo(chain, events, k - 1);
      AtNext(chain, events, k - 1);
      HeadKeptIff(At(chain, events, k - 1), events[k - 1]);
    }
  }

  /** In a run the head stays at or above every confirmed nonce read exactly if no rollback
      returns the nonce below a head that is itself the confirmed one. */
  lemma RunHeadKeptIff(chain: nat, events: seq<Event>)
    ensures (forall k :: 0 <= k <= |events| ==> HeadKept(At(chain, events, k)))
       <==> (forall k :: 0 <= k < |events| ==> !Undercuts(At(chain, events, k), events[k]))
  {
    if forall k :: 0 <= k < |events| ==> !Undercuts(At(chain, events, k), events[k]) {
      forall k | 0 <= k <= |events| ensures HeadKept(At(chain, events, k)) {
        HeadKeptUpTo(chain, events, k);
      }
    }
    if forall k :: 0 <= k <= |events| ==> HeadKept(At(chain, events, k)) {
      forall k | 0 <= k < |events| ensures !Undercuts(At(chain, events, k), events[k]) {
        AtNext(chain, events, k);
        assert HeadKept(At(chain, events, k)) && HeadKept(At(chain, events, k + 1));
        HeadKeptIff(At(chain, events, k), events[k]);
      }
    }
  }

  /** Such a run: reserve one nonce, read that the chain has consumed it, and roll it back. */
  lemma HeadBelowConfirmed(chain: nat)
    ensures var l := Run(Start(chain), [ReserveNonce, MaybeResyncTo(chain + 1), SwapFlag(0), ReturnNonce(0)]);
            l.alloc.head == chain && l.confirmed == chain + 1
  {
    var e := [ReserveNonce, MaybeResyncTo(chain + 1), SwapFlag(0), ReturnNonce(0)];
    var l0 := Start(chain);
    var l1 := Ledger(Allocator(chain + 1, []), [Handle(chain, Live)], chain);
    var l2 := l1.(confirmed := chain + 1);
    assert e[..3][..2] == e[..2] && e[..2][..1] == e[..1] && e[..1][..0] == [];
    assert Run(l0, e[..1]) == l1;
    assert Run(l0, e[..2]) == l2;
    assert Run(l0, e[..3]) == SetStatus(l2, 0, Returning);
  }
}

/** Funding dynamic accounts from several faucets (internal/account/manager.go). */
module Faucets {
  import opened NonceAllocator
  import opened Numbers
  import Acc = Account

  // ---------------------------------------------------------------- strides

  /** The indices that the loop from i in steps of `step` visits below `total`. */
  function Visits(i: nat, total: nat, step: pos): seq<nat>
    decreases if i < total then total - i else 0
  {
    if i >= total then [] else [i] + Visits(i + step, total, step)
  }

  lemma ModShift(x: int, step: pos)
    ensures (x - step) % step == x % step
  {
    var q, r := x / step, x % step;
    assert x - step == step * (q - 1) + r;
    ModOf(x - step, step, q - 1, r);
  }

  lemma ModOf(x: int, step: pos, q: int, r: nat)
    requires r < step && x == step * q + r
    ensures x % step == r && x / step == q
  {
    var e := x / step;
    assert x == step * e + x % step;
    assert e < q ==> step * (e + 1) <= step * q;
    assert q < e ==> step * (q + 1) <= step * e;
  }

  /** A number is a multiple of the step away from its own remainder, and from no other. */
  lemma SameStride(j: nat, f: nat, step: nat)
    requires f < step
    ensures f <= j && (j - f) % step == 0 <==> f == j % step
  {
    var q, r := j / step, j % step;
    assert j == step * q + r;
    if f == r {
      assert q < 0 ==> step * (q + 1) <= 0;
      assert step * q >= 0;
      ModOf(j - f, step, q, 0);
    } else if r > f {
      ModOf(j - f, step, q, r - f);
    } else {
      assert j - f == step * (q - 1) + (step + r - f);
      ModOf(j - f, step, q - 1, step + r - f);
    }
  }

  lemma {:induction false} VisitsExactly(i: nat, total: nat, step: pos, j: nat)
    ensures j in Visits(i, total, step) <==> i <= j < total && (j - i) % step == 0
    decreases if i < total then total - i else 0
  {
    if i < total {
      VisitsExactly(i + step, total, step, j);
      ModShift(j - i, step);
      assert j - i - step == j - (i + step);
      if i < j < i + step { ModOf(j - i, step, 0, j - i); }
      if j == i { ModOf(0, step, 0, 0); }
    }
  }

  /** Each account index is visited by exactly one faucet: the one the counting loop names. */
  lemma VisitedOnce(total: nat, faucets: nat, f: nat, j: nat)
    requires f < faucets && j < total
    ensures j in Visits(f, total, faucets) <==> f == j % faucets
  {
    VisitsExactly(f, total, faucets, j);
    SameStride(j, f, faucets);
  }

  lemma {:induction false} VisitsAscend(i: nat, total: nat, step: pos)
    ensures Ascending(Visits(i, total, step)) && forall j :: j in Visits(i, total, step) ==> i <= j
    decreases if i < total then total - i else 0
  {
    if i < total {
      VisitsAscend(i + step, total, step);
      var rest := Visits(i + step, total, step);
      var all := Visits(i, total, step);
      forall a, b | 0 <= a < b < |all| ensures all[a] < all[b] {
        assert all[b] == rest[b - 1] && rest[b - 1] in rest;
        if a > 0 { assert all[a] == rest[a - 1]; }
      }
    }
  }

  lemma {:induction false} VisitsGrow(i: nat, total: nat, step: pos)
    ensures |Visits(i, total + 1, step)|
         == |Visits(i, total, step)| + if i <= total && (total - i) % step == 0 then 1 else 0
    decreases if i < total then total - i else 0
  {
    if i < total {
      VisitsGrow(i + step, total, step);
      ModShift(total - i, step);
      assert total - i - step == total - (i + step);
      if total < i + step { ModOf(total - i, step, 0, total - i); }
    } else if i == total {
      assert Visits(i + step, total + 1, step) == [];
      ModOf(0, step, 0, 0);
    }
  }

  /** The counting loop of the expected nonces. */
  method CountPerFaucet(total: nat, faucets: pos) returns (txs: seq<nat>)
    ensures |txs| == faucets
    ensures forall f :: 0 <= f < faucets ==> txs[f] == |Visits(f, total, faucets)|
  {
    txs := seq(faucets, _ => 0);
    for i := 0 to total
      invariant |txs| == faucets
      invariant forall f :: 0 <= f < faucets ==> txs[f] == |Visits(f, i, faucets)|
    {
      var faucetIdx := i % faucets;
      forall f | 0 <= f < faucets
        ensures |Visits(f, i + 1, faucets)| == |Visits(f, i, faucets)| + if f == i % faucets then 1 else 0
      {
        VisitsGrow(f, i, faucets);
        SameStride(i, f, faucets);
      }
      txs := txs[faucetIdx := txs[faucetIdx] + 1];
    }
  }

  // ---------------------------------------------------------------- nonces of one faucet

  /** How many sends of the accounts listed succeed. */
  function Successes(accounts: seq<nat>, ok: nat -> bool): nat {
    if accounts == [] then 0
    else Successes(accounts[..|accounts| - 1], ok) + if ok(accounts[|accounts| - 1]) then 1 else 0
  }

  function CountFrom(start: nat, k: nat): (s: seq<nat>)
    ensures |s| == k
  {
    seq(k, i requires 0 <= i => start + i)
  }

  lemma NextVisit(start: nat, visited: seq<nat>, i: nat, ok: nat -> bool)
    ensures Successes(visited + [i], ok) == Successes(visited, ok) + if ok(i) then 1 else 0
    ensures CountFrom(start, Successes(visited, ok) + 1)
         == CountFrom(start, Successes(visited, ok)) + [start + Successes(visited, ok)]
  {
    assert (visited + [i])[..|visited|] == visited;
  }

  /** A reservation that is rolled back leaves the pool as it was, and an allocator without free
      nonces altogether as it was. */
  lemma ReserveRollback(a: Allocator)
    requires WellFormed(a)
    ensures var (n, b) := Reserve(a);
            && WellFormed(b) && WellFormed(Rollback(b, n)) && Pool(Rollback(b, n)) == Pool(a)
            && (a.free == [] ==> Rollback(b, n) == a)
  {
    var (n, b) := Reserve(a);
    ReserveExtractsMinimum(a);
    RollbackInserts(b, n);
    assert Pool(a) - iset{n} + iset{n} == Pool(a);
  }

  /** fundAccountFast: reserve, send, and commit or roll back. */
  method FundAccountFast(faucet: Acc.Account, sent: bool) returns (nonce: nat)
    requires WellFormed(faucet.State())
    modifies faucet
    ensures nonce == Reserve(old(faucet.State())).0 && WellFormed(faucet.State())
    ensures sent ==> faucet.State() == Reserve(old(faucet.State())).1
    ensures !sent ==> Pool(faucet.State()) == old(Pool(faucet.State()))
    ensures !sent && old(faucet.freeNonces) == [] ==> faucet.State() == old(faucet.State())
  {
    ReserveRollback(faucet.State());
    var n := faucet.ReserveNonce();
    nonce := n.value;
    if sent {
      n.Commit();
    } else {
      n.Rollback();
    }
  }

  /** One faucet's loop over its stride, after a resync has left it no free nonces. `ok` says
      for which accounts sign, encode and send succeed; the result lists the nonces spent. */
  method RunFaucet(faucet: Acc.Account, fIdx: nat, faucets: pos, total: nat, ok: nat -> bool)
    returns (spent: seq<nat>, visited: seq<nat>)
    requires faucet.freeNonces == []
    modifies faucet
    ensures visited == Visits(fIdx, total, faucets)
    ensures spent == CountFrom(old(faucet.nonce), Successes(visited, ok))
    ensures faucet.State() == Allocator(old(faucet.nonce) + Successes(visited, ok), [])
  {
    spent, visited := [], [];
    var i := fIdx;
    assert Successes([], ok) == 0 && CountFrom(faucet.nonce, 0) == [];
    hide Visits, Successes, CountFrom, Reserve, WellFormed, Pool;
    while i < total
      invariant visited + Visits(i, total, faucets) == Visits(fIdx, total, faucets)
      invariant faucet.freeNonces == [] && faucet.nonce == old(faucet.nonce) + Successes(visited, ok)
      invariant spent == CountFrom(old(faucet.nonce), Successes(visited, ok))
      decreases if i < total then total - i else 0
    {
      var sent := ok(i);
      NoFreeNonce(faucet.State());
      var nonce := FundAccountFast(faucet, sent);
      if sent {
        spent := spent + [nonce];
      }
      VisitsFrom(visited, i, total, faucets);
      NextVisit(old(faucet.nonce), visited, i, ok);
      visited := visited + [i];
      i := i + faucets;
    }
    VisitsFrom(visited, i, total, faucets);
  }

  lemma NoFreeNonce(a: Allocator)
    requires a.free == []
    ensures WellFormed(a) && Reserve(a) == (a.head, Allocator(a.head + 1, []))
  {
  }

  lemma VisitsFrom(visited: seq<nat>, i: nat, total: nat, step: pos)
    ensures visited + Visits(i, total, step)
         == if i < total then (visited + [i]) + Visits(i + step, total, step) else visited
  {
  }

  lemma {:induction false} SuccessesBound(accounts: seq<nat>, ok: nat -> bool)
    ensures Successes(accounts, ok) <= |accounts|
    ensures Successes(accounts, ok) == |accounts| <==> (forall i :: 0 <= i < |accounts| ==> ok(accounts[i]))
  {
    if accounts != [] { SuccessesBound(accounts[..|accounts| - 1], ok); }
  }

  /** The nonce a faucet waits for is its next one exactly if none of its sends failed; one
      failure makes the wait run into its timeout. */
  lemma ExpectedNonceIff(start: nat, fIdx: nat, faucets: nat, total: nat, ok: nat -> bool)
    requires fIdx < faucets
    ensures start + Successes(Visits(fIdx, total, faucets), ok) == start + |Visits(fIdx, total, faucets)|
       <==> (forall j :: 0 <= j < total && j % faucets == fIdx ==> ok(j))
  {
    var v := Visits(fIdx, total, faucets);
    SuccessesBound(v, ok);
    forall j | 0 <= j < total ensures j in v <==> j % faucets == fIdx {
      VisitedOnce(total, faucets, fIdx, j);
    }
    forall j | j in v ensures j < total {
      VisitsExactly(fIdx, total, faucets, j);
    }
    if forall i :: 0 <= i < |v| ==> ok(v[i]) {
      forall j | 0 <= j < total && j % faucets == fIdx ensures ok(j) {
        assert j in v;
        var i :| 0 <= i < |v| && v[i] == j;
      }
    }
    if forall j :: 0 <= j < total && j % faucets == fIdx ==> ok(j) {
      forall i | 0 <= i < |v| ensures ok(v[i]) {
        assert v[i] in v;
      }
    }
  }

  // ---------------------------------------------------------------- chunks of key generation

  function WorkSize(count: nat, workers: pos): nat
  {
    (count + workers - 1) / workers
  }

  /** Worker w generates the keys of this half-open interval, if it starts at all. */
  predicate InChunk(count: nat, workers: pos, w: nat, i: nat)
  {
    var size := WorkSize(count, workers);
    w * size < count && w * size <= i < Min(w * size + size, count)
  }

  /** The chunks cover every index exactly once. */
  lemma ChunksPartition(count: nat, workers: pos, i: nat)
    requires i < count
    ensures exists w :: 0 <= w < workers && InChunk(count, workers, w, i)
    ensures forall v, w :: InChunk(count, workers, v, i) && InChunk(count, workers, w, i) ==> v == w
  {
    var size := WorkSize(count, workers);
    CeilingCovers(count, workers);
    var w := i / size;
    QuotientBelow(i, size, workers);
    assert InChunk(count, workers, w, i);
    forall v | InChunk(count, workers, v, i) ensures v == w {
      ChunkOf(count, workers, v, i);
    }
    hide InChunk, WorkSize;
  }

  /** The chunks are as short as that many workers can make them. */
  lemma ChunkSize(count: nat, workers: pos)
    ensures var size := WorkSize(count, workers);
            workers * size >= count && (size > 0 ==> workers * (size - 1) < count)
  {
    var t, size := count + workers - 1, WorkSize(count, workers);
    assert t == workers * size + t % workers;
    hide WorkSize;
    if size > 0 { assert workers * (size - 1) == workers * size - workers; }
  }

  lemma CeilingCovers(count: nat, workers: pos)
    requires count > 0
    ensures WorkSize(count, workers) > 0 && workers * WorkSize(count, workers) >= count
  {
    var t, size := count + workers - 1, WorkSize(count, workers);
    assert t == workers * size + t % workers;
    hide WorkSize;
    assert workers * size >= count;
    assert size == 0 ==> workers * size == 0;
  }

  lemma QuotientBelow(i: nat, size: nat, workers: nat)
    requires size > 0 && i < workers * size
    ensures 0 <= i / size < workers && (i / size) * size <= i < (i / size) * size + size
  {
    var w := i / size;
    assert i == w * size + i % size;
    if w >= workers { ProductMonotone(workers, w, size); }
  }

  lemma ProductMonotone(a: nat, b: nat, c: nat)
    requires a <= b
    ensures a * c <= b * c
  {
  }

  lemma ChunkOf(count: nat, workers: pos, w: nat, i: nat)
    requires WorkSize(count, workers) > 0 && InChunk(count, workers, w, i)
    ensures w == i / WorkSize(count, workers)
  {
    var size := WorkSize(count, workers);
    hide WorkSize;
    assert i == size * w + (i - w * size);
    ModOf(i, size, w, i - w * size);
  }
}

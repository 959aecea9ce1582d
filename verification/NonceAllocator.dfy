/** The nonce allocator of one account as a value: a head counter and a list of
    returned nonces below it (internal/account/account.go).

    The allocator stands for an infinite set of nonces that may be handed out, its
    pool: the free list together with everything from the head upwards.  Reserving
    takes the least element of the pool; both paths of a rollback are the same
    insertion into it. */
module NonceAllocator {
  import opened Numbers

  datatype Allocator = Allocator(head: nat, free: seq<nat>)

  ghost predicate Ascending(s: seq<nat>) {
    forall i, j :: 0 <= i < j < |s| ==> s[i] < s[j]
  }

  ghost predicate WellFormed(a: Allocator) {
    && Ascending(a.free)
    && forall n :: n in a.free ==> n < a.head
  }

  /** The nonces that may still be handed out. */
  ghost function Pool(a: Allocator): iset<nat> {
    iset n: nat | n in a.free || a.head <= n
  }

  // ---------------------------------------------------------------- operations

  /** Takes the first free nonce if there is one, the head otherwise. */
  function Reserve(a: Allocator): (nat, Allocator) {
    if |a.free| > 0
    then (a.free[0], a.(free := a.free[1..]))
    else (a.head, a.(head := a.head + 1))
  }

  /** The first position whose element is not below n. */
  function Position(s: seq<nat>, n: nat): (p: nat)
    ensures p <= |s|
    ensures forall i :: 0 <= i < p ==> s[i] < n
    ensures p < |s| ==> n <= s[p]
  {
    if s == [] || n <= s[0] then 0 else 1 + Position(s[1..], n)
  }

  function Insert(s: seq<nat>, n: nat): seq<nat> {
    var p := Position(s, n);
    if p < |s| && s[p] == n then s else s[..p] + [n] + s[p..]
  }

  /** Returning the most recent nonce lowers the head; any other one is inserted. */
  function Rollback(a: Allocator, n: nat): Allocator {
    if a.head == n + 1 then a.(head := n) else a.(free := Insert(a.free, n))
  }

  /** The plain resync, of faucets before they fund and of the built-in accounts when the circuit
      breaker trips: set if higher, forget every free nonce. */
  function Resync(a: Allocator, chain: nat): Allocator {
    Allocator(Max(a.head, chain), [])
  }

  function KeepFrom(s: seq<nat>, chain: nat): (r: seq<nat>)
    ensures forall n :: n in r <==> n in s && chain <= n
  {
    if s == [] then []
    else KeepFrom(s[..|s| - 1], chain) + if chain <= s[|s| - 1] then [s[|s| - 1]] else []
  }

  /** The rate-limited resync of the sending path: set if higher, keep what the chain has not
      consumed. */
  function MaybeResync(a: Allocator, chain: nat): Allocator {
    Allocator(Max(a.head, chain), KeepFrom(a.free, chain))
  }

  /** The unconditional resync between tests. */
  function ForceResync(chain: nat): Allocator {
    Allocator(chain, [])
  }

  // ---------------------------------------------------------------- refinement of the pool

  lemma InsertAscending(s: seq<nat>, n: nat)
    requires Ascending(s)
    ensures Ascending(Insert(s, n))
    ensures forall m :: m in Insert(s, n) <==> m in s || m == n
  {
    var p := Position(s, n);
    var r := Insert(s, n);
    hide Position;
    if p < |s| && s[p] == n {
    } else {
      forall i, j | 0 <= i < j < |r| ensures r[i] < r[j] {
        assert p < |s| ==> n < s[p];
      }
      forall m ensures m in r <==> m in s || m == n {
        assert s == s[..p] + s[p..];
      }
    }
  }

  lemma {:induction false} KeepFromAscending(s: seq<nat>, chain: nat)
    requires Ascending(s)
    ensures Ascending(KeepFrom(s, chain))
  {
    if s != [] {
      var t, last := s[..|s| - 1], s[|s| - 1];
      KeepFromAscending(t, chain);
      var r := KeepFrom(t, chain);
      forall i | 0 <= i < |r| ensures r[i] < last {
        assert r[i] in t;
      }
    }
  }

  lemma FirstOfAscending(s: seq<nat>)
    requires Ascending(s) && s != []
    ensures Ascending(s[1..])
    ensures forall m :: m in s ==> s[0] <= m
    ensures forall m :: m in s[1..] <==> m in s && m != s[0]
  {
    var t := s[1..];
    assert s == [s[0]] + t;
    forall i, j | 0 <= i < j < |t| ensures t[i] < t[j] {
      assert t[i] == s[i + 1] && t[j] == s[j + 1];
    }
    forall m | m in t ensures s[0] < m {
      var i :| 0 <= i < |t| && t[i] == m;
      assert s[i + 1] == m;
    }
  }

  /** Reserving hands out the least nonce of the pool and removes exactly that one. */
  lemma ReserveExtractsMinimum(a: Allocator)
    requires WellFormed(a)
    ensures var (n, b) := Reserve(a);
            && WellFormed(b)
            && n in Pool(a) && (forall m :: m in Pool(a) ==> n <= m)
            && Pool(b) == Pool(a) - iset{n}
            && n < b.head && b.head >= a.head
  {
    if |a.free| > 0 {
      FirstOfAscending(a.free);
      var n := a.free[0];
      assert n in a.free;
      forall m | m in Pool(a) ensures n <= m {
        assert m in a.free || n < a.head <= m;
      }
    }
  }

  /** Exactly which rollbacks keep the allocator well formed: those of a nonce below the
      head that is not free already.  The duplicate check protects only the slow path, so
      a second rollback is harmless except for the nonce right below the head; a nonce at
      or above the head can only come from a handle older than a ForceResync. */
  lemma RollbackWellFormedIff(a: Allocator, n: nat)
    requires WellFormed(a)
    ensures WellFormed(Rollback(a, n)) <==> n < a.head && !(a.head == n + 1 && n in a.free)
  {
    InsertAscending(a.free, n);
    if a.head <= n {
      assert n in Rollback(a, n).free;
    }
  }

  /** Both paths of a rollback insert the nonce into the pool, and nothing else. */
  lemma RollbackInserts(a: Allocator, n: nat)
    requires WellFormed(a) && n < a.head && n !in a.free
    ensures WellFormed(Rollback(a, n))
    ensures Pool(Rollback(a, n)) == Pool(a) + iset{n}
  {
    InsertAscending(a.free, n);
  }

  /** A resync raises the head at most; what it drops from the pool is all of the free list
      for the plain resync, and only what the chain has consumed for the rate-limited one. */
  lemma ResyncPools(a: Allocator, chain: nat)
    requires WellFormed(a)
    ensures WellFormed(Resync(a, chain)) && WellFormed(MaybeResync(a, chain))
    ensures forall n: nat :: n in Pool(Resync(a, chain)) <==> a.head <= n && chain <= n
    ensures forall n: nat :: n in Pool(MaybeResync(a, chain)) <==> n in Pool(a) && chain <= n
  {
    KeepFromAscending(a.free, chain);
  }

  // ---------------------------------------------------------------- observational equality

  /** k reservations in a row: the nonces handed out and the allocator left. */
  function ReserveMany(a: Allocator, k: nat): (r: (seq<nat>, Allocator))
    ensures |r.0| == k
    decreases k
  {
    if k == 0 then ([], a)
    else
      var (n, b) := Reserve(a);
      var (rest, c) := ReserveMany(b, k - 1);
      ([n] + rest, c)
  }

  ghost predicate Returnable(a: Allocator, ns: seq<nat>) {
    forall i :: 0 <= i < |ns| ==> ns[i] < a.head && ns[i] !in a.free
  }

  ghost predicate Distinct(ns: seq<nat>) {
    forall i, j :: 0 <= i < j < |ns| ==> ns[i] != ns[j]
  }

  function RollbackAll(a: Allocator, ns: seq<nat>): Allocator
    decreases |ns|
  {
    if ns == [] then a else RollbackAll(Rollback(a, ns[0]), ns[1..])
  }

  ghost function Elements(ns: seq<nat>): iset<nat> { iset n | n in ns }

  /** The concrete shape of an allocator does not matter: allocators with the same pool hand
      out the same nonces from then on. */
  lemma {:induction false} SamePoolSameReservations(a: Allocator, b: Allocator, k: nat)
    requires WellFormed(a) && WellFormed(b) && Pool(a) == Pool(b)
    ensures ReserveMany(a, k).0 == ReserveMany(b, k).0
    ensures WellFormed(ReserveMany(a, k).1) && WellFormed(ReserveMany(b, k).1)
    ensures Pool(ReserveMany(a, k).1) == Pool(ReserveMany(b, k).1)
    decreases k
  {
    if k != 0 {
      var (m, a') := Reserve(a);
      var (n, b') := Reserve(b);
      ReserveExtractsMinimum(a);
      ReserveExtractsMinimum(b);
      assert m == n;
      SamePoolSameReservations(a', b', k - 1);
    }
  }

  /** Where k reservations come from, and what they leave. */
  ghost predicate TakenFrom(a: Allocator, ns: seq<nat>, b: Allocator) {
    && (forall n :: n in ns ==> n in Pool(a) && n < b.head && n !in b.free)
    && Pool(b) == Pool(a) - Elements(ns)
    && (forall n, m :: n in ns && m in Pool(b) ==> n < m)
  }

  lemma AscendingPrepend(n: nat, ns: seq<nat>)
    requires Ascending(ns) && forall x :: x in ns ==> n < x
    ensures Ascending([n] + ns)
  {
    var all := [n] + ns;
    forall i, j | 0 <= i < j < |all| ensures all[i] < all[j] {
      assert all[j] == ns[j - 1] && ns[j - 1] in ns;
      if i > 0 { assert all[i] == ns[i - 1]; }
    }
  }

  lemma TakenPrepend(a: Allocator, n: nat, a': Allocator, ns: seq<nat>, b: Allocator)
    requires n in Pool(a) && Pool(a') == Pool(a) - iset{n} && (forall m :: m in Pool(a) ==> n <= m)
    requires TakenFrom(a', ns, b)
    ensures TakenFrom(a, [n] + ns, b)
  {
    var all := [n] + ns;
    assert forall x :: x in all <==> x == n || x in ns;
    assert n !in Pool(b);
    assert n < b.head && n !in b.free;
    assert Pool(b) == Pool(a) - Elements(all);
    forall x, m | x in all && m in Pool(b) ensures x < m {
      assert m in Pool(a) && m != n;
    }
  }

  /** Reservations come out strictly ascending, all from the pool, and leave the rest, which is
      all larger. */
  lemma {:induction false} ReservationsAscend(a: Allocator, k: nat)
    requires WellFormed(a)
    ensures var (ns, b) := ReserveMany(a, k);
            WellFormed(b) && Ascending(ns) && TakenFrom(a, ns, b)
    decreases k
  {
    if k == 0 {
      NoneTaken(a);
    } else {
      hide WellFormed, Ascending, Pool, TakenFrom, Reserve;
      var (n, a') := Reserve(a);
      ReserveExtractsMinimum(a);
      ReservationsAscend(a', k - 1);
      var (ns, b) := ReserveMany(a', k - 1);
      assert ReserveMany(a, k) == ([n] + ns, b);
      hide ReserveMany;
      LaterTaken(a, n, a', ns, b);
      AscendingPrepend(n, ns);
      TakenPrepend(a, n, a', ns, b);
    }
  }

  lemma LaterTaken(a: Allocator, n: nat, a': Allocator, ns: seq<nat>, b: Allocator)
    requires Pool(a') == Pool(a) - iset{n} && (forall m :: m in Pool(a) ==> n <= m) && TakenFrom(a', ns, b)
    ensures forall x :: x in ns ==> n < x
  {
    hide Pool;
  }

  lemma NoneTaken(a: Allocator)
    ensures Ascending([]) && TakenFrom(a, [], a)
  {
    assert Pool(a) == Pool(a) - Elements([]);
  }

  lemma RestReturnable(a: Allocator, ns: seq<nat>)
    requires WellFormed(a) && Distinct(ns) && Returnable(a, ns) && ns != []
    ensures Distinct(ns[1..]) && Returnable(Rollback(a, ns[0]), ns[1..])
  {
    var b, rest := Rollback(a, ns[0]), ns[1..];
    RollbackInserts(a, ns[0]);
    forall i | 0 <= i < |rest| ensures rest[i] < b.head && rest[i] !in b.free {
      assert rest[i] == ns[i + 1] && rest[i] !in Pool(a) + iset{ns[0]};
      assert rest[i] !in Pool(b);
    }
  }

  /** Nothing of the pool is passed over: what lies below a reservation was reserved before it. */
  lemma LowestFirst(a: Allocator, k: nat, i: nat, n: nat)
    requires WellFormed(a) && i < k && n in Pool(a) && n < ReserveMany(a, k).0[i]
    ensures n in ReserveMany(a, k).0[..i]
  {
    ReservationsAscend(a, k);
    var (ns, b) := ReserveMany(a, k);
    hide ReserveMany, WellFormed;
    assert ns[i] in ns && n !in Pool(b);
    var j :| 0 <= j < k && ns[j] == n;
    assert j < i;
    assert ns[..i][j] == n;
  }

  /** Rolling back distinct outstanding nonces, in any order, inserts exactly them. */
  lemma {:induction false} RollbackAllInserts(a: Allocator, ns: seq<nat>)
    requires WellFormed(a) && Distinct(ns) && Returnable(a, ns)
    ensures WellFormed(RollbackAll(a, ns))
    ensures Pool(RollbackAll(a, ns)) == Pool(a) + Elements(ns)
    decreases |ns|
  {
    if ns != [] {
      var n, rest := ns[0], ns[1..];
      RollbackInserts(a, n);
      RestReturnable(a, ns);
      RollbackAllInserts(Rollback(a, n), rest);
      forall x ensures x in ns <==> x == n || x in rest {
        assert ns == [n] + rest;
      }
    }
  }

  /** Two rollbacks commute as far as any later reservation can tell. */
  lemma RollbacksCommute(a: Allocator, m: nat, n: nat, k: nat)
    requires WellFormed(a) && m != n && Returnable(a, [m, n])
    ensures Pool(Rollback(Rollback(a, m), n)) == Pool(Rollback(Rollback(a, n), m))
    ensures ReserveMany(Rollback(Rollback(a, m), n), k).0 == ReserveMany(Rollback(Rollback(a, n), m), k).0
  {
    assert [m, n][0] == m && [m, n][1] == n;
    RollbackInserts(a, m);
    RollbackInserts(a, n);
    assert n !in Pool(Rollback(a, m)) && m !in Pool(Rollback(a, n));
    RollbackInserts(Rollback(a, m), n);
    RollbackInserts(Rollback(a, n), m);
    assert Pool(a) + iset{m} + iset{n} == Pool(a) + iset{n} + iset{m};
    SamePoolSameReservations(Rollback(Rollback(a, m), n), Rollback(Rollback(a, n), m), k);
  }

  /** Rolling back a whole batch, in whatever order the sends fail, makes the next
      reservations replay the batch, lowest nonce first. */
  lemma BatchReplays(a: Allocator, k: nat, order: seq<nat>)
    requires WellFormed(a)
    requires multiset(order) == multiset(ReserveMany(a, k).0)
    ensures Ascending(ReserveMany(a, k).0)
    ensures ReserveMany(RollbackAll(ReserveMany(a, k).1, order), k).0 == ReserveMany(a, k).0
  {
    var (ns, b) := ReserveMany(a, k);
    ReservationsAscend(a, k);
    forall n ensures n in order <==> n in ns {
      assert n in order <==> n in multiset(order);
      assert n in ns <==> n in multiset(ns);
    }
    PermutationDistinct(order, ns);
    forall i | 0 <= i < |order| ensures order[i] < b.head && order[i] !in b.free {
      assert order[i] in order;
    }
    RollbackAllInserts(b, order);
    assert Pool(b) + Elements(order) == Pool(a);
    SamePoolSameReservations(RollbackAll(b, order), a, k);
  }

  lemma PermutationDistinct(order: seq<nat>, ns: seq<nat>)
    requires Ascending(ns) && multiset(order) == multiset(ns)
    ensures Distinct(order)
  {
    forall i, j | 0 <= i < j < |order| ensures order[i] != order[j] {
      if order[i] == order[j] {
        var n := order[i];
        assert order == order[..i] + [n] + order[i + 1..j] + [n] + order[j + 1..];
        assert multiset(order)[n] >= 2;
        AscendingOnce(ns, n);
      }
    }
  }

  lemma {:induction false} AscendingOnce(ns: seq<nat>, n: nat)
    requires Ascending(ns)
    ensures multiset(ns)[n] <= 1
  {
    if ns != [] {
      var t, last := ns[..|ns| - 1], ns[|ns| - 1];
      AscendingOnce(t, n);
      assert ns == t + [last];
      if last == n {
        assert n !in t;
      }
    }
  }

  /** Reserving drains the free list in order, then counts up from the head. */
  lemma {:induction false} ReservationAt(a: Allocator, k: nat, i: nat)
    requires i < k
    ensures ReserveMany(a, k).0[i] == if i < |a.free| then a.free[i] else a.head + i - |a.free|
    decreases k
  {
    if i > 0 {
      ReservationAt(Reserve(a).1, k - 1, i - 1);
    }
  }

  /** Rolling back a nonce at or above the head puts it in the list and leaves it ahead of the
      counter, so it is handed out once from each. Only a handle from before a forced resync
      can do that. */
  lemma StaleRollbackIssuesTwice(a: Allocator, n: nat)
    requires WellFormed(a) && a.head <= n
    ensures var ns := ReserveMany(Rollback(a, n), |a.free| + 2 + n - a.head).0;
            ns[|a.free|] == n && ns[|ns| - 1] == n
  {
    var b, k := Rollback(a, n), |a.free| + 2 + n - a.head;
    forall i | 0 <= i < |a.free| ensures a.free[i] < n {
      assert a.free[i] in a.free;
    }
    assert Position(a.free, n) == |a.free|;
    assert b == Allocator(a.head, a.free + [n]);
    ReservationAt(b, k, |a.free|);
    ReservationAt(b, k, k - 1);
  }

  /** And rolling back a duplicate right below the head lowers the head onto it. */
  lemma DuplicateBelowHeadIssuesTwice(a: Allocator, n: nat)
    requires WellFormed(a) && a.head == n + 1 && n in a.free
    ensures !Distinct(ReserveMany(Rollback(a, n), |a.free| + 1).0)
  {
    var b, k := Rollback(a, n), |a.free| + 1;
    var i :| 0 <= i < |a.free| && a.free[i] == n;
    ReservationAt(b, k, i);
    ReservationAt(b, k, |a.free|);
  }

  /** After a rollback all future reservations are distinct exactly if the nonce was below the
      head and not a free one right below it. */
  lemma DistinctReservationsIff(a: Allocator, n: nat)
    requires WellFormed(a)
    ensures (forall k :: Distinct(ReserveMany(Rollback(a, n), k).0))
       <==> n < a.head && !(a.head == n + 1 && n in a.free)
  {
    RollbackWellFormedIff(a, n);
    if n < a.head && !(a.head == n + 1 && n in a.free) {
      forall k ensures Distinct(ReserveMany(Rollback(a, n), k).0) {
        ReservationsAscend(Rollback(a, n), k);
      }
    } else if a.head <= n {
      hide WellFormed, Rollback, Pool, Ascending;
      StaleRollbackIssuesTwice(a, n);
      var ns := ReserveMany(Rollback(a, n), |a.free| + 2 + n - a.head).0;
      assert ns[|a.free|] == ns[|ns| - 1];
    } else {
      DuplicateBelowHeadIssuesTwice(a, n);
    }
  }
}

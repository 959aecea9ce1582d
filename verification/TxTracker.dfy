/** The bounded send-time tracker: a map and a ring of insertion order
    (internal/metrics/txtracker.go). */
module TxTracker {
  import opened Numbers

  type Hash = nat

  /** The all-zero hash marks an empty slot of the ring. */
  const EMPTY: Hash := 0

  /** The ring's length is the maximal size. */
  datatype Tracker = Tracker(times: map<Hash, int>, order: seq<Hash>, head: nat, evictBatch: nat)

  predicate Sized(t: Tracker) { t.head < |t.order| }

  /** Clears n slots from the head on, and forgets the hashes in them. */
  function Evict(t: Tracker, n: nat): (r: Tracker)
    requires Sized(t)
    ensures |r.order| == |t.order| && r.head == t.head && r.evictBatch == t.evictBatch
    ensures r.times.Keys <= t.times.Keys
  {
    if n == 0 then t
    else
      var u := Evict(t, n - 1);
      var i := (t.head + n - 1) % |t.order|;
      if u.order[i] != EMPTY
      then u.(times := u.times - {u.order[i]}, order := u.order[i := EMPTY])
      else u
  }

  function MakeRoom(t: Tracker): (r: Tracker)
    requires Sized(t)
    ensures |r.order| == |t.order| && r.head == t.head && r.evictBatch == t.evictBatch
    ensures r.times.Keys <= t.times.Keys
  {
    if |t.times| >= |t.order| then Evict(t, t.evictBatch) else t
  }

  /** Stores the time first, and then forgets the hash whose slot is taken over. */
  function Record(t: Tracker, hash: Hash, time: int): (r: Tracker)
    requires Sized(t)
    ensures Sized(r) && |r.order| == |t.order| && r.evictBatch == t.evictBatch
  {
    var u := MakeRoom(t);
    var times := u.times[hash := time];
    var displaced := u.order[u.head];
    Tracker(if displaced != EMPTY then times - {displaced} else times,
            u.order[u.head := hash], (u.head + 1) % |u.order|, u.evictBatch)
  }

  function Delete(t: Tracker, hash: Hash): Tracker { t.(times := t.times - {hash}) }

  function Empty(maxSize: pos, evictBatch: nat): Tracker {
    Tracker(map[], seq(maxSize, _ => EMPTY), 0, evictBatch)
  }

  datatype Lookup = Found(time: int) | Missing

  function Get(t: Tracker, hash: Hash): Lookup {
    if hash in t.times then Found(t.times[hash]) else Missing
  }

  // ---------------------------------------------------------------- the object

  class TxTracker {
    var times: map<Hash, int>
    var insertOrder: array<Hash>
    var head: nat
    const maxSize: pos
    const evictBatch: nat

    ghost predicate Valid() reads this, insertOrder { insertOrder.Length == maxSize && head < maxSize }

    ghost function State(): Tracker reads this, insertOrder {
      Tracker(times, insertOrder[..], head, evictBatch)
    }

    constructor (maxSize: pos, evictBatch: nat)
      ensures Valid() && fresh(insertOrder) && State() == Empty(maxSize, evictBatch)
    {
      times, head := map[], 0;
      this.maxSize, this.evictBatch := maxSize, evictBatch;
      insertOrder := new Hash[maxSize](_ => EMPTY);
    }

    method Set(hash: Hash, sentTime: int)
      requires Valid()
      modifies this, insertOrder
      ensures Valid() && insertOrder == old(insertOrder)
      ensures State() == Record(old(State()), hash, sentTime)
    {
      hide Evict;
      if |times| >= maxSize {
        EvictOldest();
      }
      times := times[hash := sentTime];
      var oldHash := insertOrder[head];
      if oldHash != EMPTY {
        times := times - {oldHash};
      }
      insertOrder[head] := hash;
      head := (head + 1) % maxSize;
    }

    method EvictOldest()
      requires Valid()
      modifies this, insertOrder
      ensures Valid() && insertOrder == old(insertOrder)
      ensures State() == Evict(old(State()), evictBatch)
    {
      var evicted := 0;
      while evicted < evictBatch
        invariant evicted <= evictBatch && Valid() && insertOrder == old(insertOrder)
        invariant State() == Evict(old(State()), evicted)
      {
        var oldestIdx := (head + evicted) % maxSize;
        var oldHash := insertOrder[oldestIdx];
        if oldHash != EMPTY {
          times := times - {oldHash};
          insertOrder[oldestIdx] := EMPTY;
        }
        evicted := evicted + 1;
      }
    }

    method GetSentTime(hash: Hash) returns (r: Lookup)
      ensures r == Get(State(), hash)
    {
      r := if hash in times then Found(times[hash]) else Missing;
    }

    method GetAndDelete(hash: Hash) returns (r: Lookup)
      requires Valid()
      modifies this
      ensures Valid() && insertOrder == old(insertOrder)
      ensures r == Get(old(State()), hash) && State() == Delete(old(State()), hash)
    {
      if hash in times {
        r := Found(times[hash]);
        times := times - {hash};
      } else {
        r := Missing;
        assert times - {hash} == times;
      }
    }

    method Reset()
      requires Valid()
      modifies this, insertOrder
      ensures Valid() && insertOrder == old(insertOrder)
      ensures State() == Empty(maxSize, evictBatch)
    {
      times := map[];
      for i := 0 to insertOrder.Length
        invariant insertOrder.Length == maxSize && insertOrder == old(insertOrder) && times == map[] && head < maxSize
        invariant forall j :: 0 <= j < i ==> insertOrder[j] == EMPTY
      {
        insertOrder[i] := EMPTY;
      }
      head := 0;
    }
  }

  // ---------------------------------------------------------------- against an unbounded map

  datatype Op = SetOp(hash: Hash, time: int) | DeleteOp(hash: Hash)

  function Apply(t: Tracker, op: Op): (r: Tracker)
    requires Sized(t)
    ensures Sized(r) && |r.order| == |t.order| && r.evictBatch == t.evictBatch
  {
    match op
    case SetOp(hash, time) => Record(t, hash, time)
    case DeleteOp(hash) => Delete(t, hash)
  }

  function Run(maxSize: pos, evictBatch: nat, ops: seq<Op>): (r: Tracker)
    ensures Sized(r) && |r.order| == maxSize && r.evictBatch == evictBatch
    decreases |ops|
  {
    if ops == [] then Empty(maxSize, evictBatch)
    else Apply(Run(maxSize, evictBatch, ops[..|ops| - 1]), ops[|ops| - 1])
  }

  /** The same operations on a map that forgets nothing. */
  function Unbounded(ops: seq<Op>): map<Hash, int>
    decreases |ops|
  {
    if ops == [] then map[]
    else
      var m := Unbounded(ops[..|ops| - 1]);
      match ops[|ops| - 1]
      case SetOp(hash, time) => m[hash := time]
      case DeleteOp(hash) => m - {hash}
  }

  /** The hashes set, in order. */
  function Sent(ops: seq<Op>): seq<Hash>
    decreases |ops|
  {
    if ops == [] then []
    else
      var e := ops[|ops| - 1];
      Sent(ops[..|ops| - 1]) + if e.SetOp? then [e.hash] else []
  }

  // ---------------------------------------------------------------- the ring as a queue

  /** The slots from the head on: the oldest entry first. */
  function Queue(t: Tracker): (q: seq<Hash>)
    requires Sized(t)
    ensures |q| == |t.order|
  {
    t.order[t.head..] + t.order[..t.head]
  }

  lemma Wrap(head: nat, j: nat, size: nat)
    requires head < size && j < size
    ensures (head + j) % size == if head + j < size then head + j else head + j - size
  {
  }

  /** One round of an eviction, on the queue. */
  lemma EvictOnce(t: Tracker, n: nat)
    requires Sized(t) && n < |t.order|
    ensures var u := Evict(t, n);
            var x := Queue(u)[n];
            && Queue(Evict(t, n + 1)) == Queue(u)[n := EMPTY]
            && Evict(t, n + 1).times == if x != EMPTY then u.times - {x} else u.times
  {
    var u, size := Evict(t, n), |t.order|;
    var i := if t.head + n < size then t.head + n else t.head + n - size;
    Wrap(t.head, n, size);
    assert u.order[i] == Queue(u)[n];
    assert Evict(t, n + 1) == if u.order[i] != EMPTY
                              then u.(times := u.times - {u.order[i]}, order := u.order[i := EMPTY]) else u;
    SetSlot(u, n, i);
  }

  lemma SetSlot(u: Tracker, n: nat, i: nat)
    requires Sized(u) && n < |u.order|
    requires i == if u.head + n < |u.order| then u.head + n else u.head + n - |u.order|
    ensures Queue(u.(order := u.order[i := EMPTY])) == Queue(u)[n := EMPTY]
  {
  }

  /** The front of the queue is cleared, and what it held is forgotten. */
  ghost predicate Cleared(t: Tracker, u: Tracker, n: nat)
    requires Sized(t) && n <= |t.order|
  {
    && Sized(u) && |u.order| == |t.order| && u.head == t.head
    && (forall j :: 0 <= j < |t.order| ==> Queue(u)[j] == if j < n then EMPTY else Queue(t)[j])
    && (forall h :: h in u.times <==> h in t.times && !(h != EMPTY && h in Queue(t)[..n]))
    && (forall h :: h in u.times ==> u.times[h] == t.times[h])
  }

  lemma ClearedOnce(t: Tracker, u: Tracker, v: Tracker, n: nat)
    requires Sized(t) && n < |t.order| && Cleared(t, u, n)
    requires Sized(v) && |v.order| == |t.order| && v.head == t.head
    requires Queue(v) == Queue(u)[n := EMPTY]
    requires v.times == if Queue(u)[n] != EMPTY then u.times - {Queue(u)[n]} else u.times
    ensures Cleared(t, v, n + 1)
  {
    var q := Queue(t);
    assert Queue(u)[n] == q[n];
    assert q[..n + 1] == q[..n] + [q[n]];
  }

  lemma {:induction false} EvictClears(t: Tracker, n: nat)
    requires Sized(t) && n <= |t.order|
    ensures Cleared(t, Evict(t, n), n)
  {
    hide Cleared, Queue, Evict;
    if n != 0 {
      EvictClears(t, n - 1);
      EvictClearsNext(t, n - 1);
    } else {
      ClearedNone(t);
    }
  }

  lemma ClearedNone(t: Tracker)
    requires Sized(t)
    ensures Cleared(t, Evict(t, 0), 0)
  {
    var u := Evict(t, 0);
    assert u == t;
    hide Evict;
  }

  lemma EvictClearsNext(t: Tracker, n: nat)
    requires Sized(t) && n < |t.order| && Cleared(t, Evict(t, n), n)
    ensures Cleared(t, Evict(t, n + 1), n + 1)
  {
    hide Evict, Queue, Cleared;
    EvictOnce(t, n);
    ClearedOnce(t, Evict(t, n), Evict(t, n + 1), n);
  }

  lemma AllEmpty(t: Tracker, u: Tracker)
    requires Sized(t) && Cleared(t, u, |t.order|)
    ensures forall i :: 0 <= i < |u.order| ==> u.order[i] == EMPTY
  {
    forall i | 0 <= i < |u.order| ensures u.order[i] == EMPTY {
      var j := if i >= u.head then i - u.head else i + |u.order| - u.head;
      assert u.order[i] == Queue(u)[j];
    }
  }

  /** Going round the ring again finds every slot empty. */
  lemma {:induction false} EvictSaturates(t: Tracker, n: nat)
    requires Sized(t) && n >= |t.order|
    ensures Evict(t, n) == Evict(t, |t.order|)
  {
    if n > |t.order| {
      EvictSaturates(t, n - 1);
      EvictClears(t, |t.order|);
      AllEmpty(t, Evict(t, |t.order|));
    }
  }

  lemma MakeRoomCases(t: Tracker)
    requires Sized(t)
    ensures MakeRoom(t) == t || Cleared(t, MakeRoom(t), Min(t.evictBatch, |t.order|))
  {
    var n := Min(t.evictBatch, |t.order|);
    if t.evictBatch >= |t.order| { EvictSaturates(t, t.evictBatch); }
    EvictClears(t, n);
  }

  /** What making room leaves of the queue and of the map. */
  lemma MakeRoomClears(t: Tracker)
    requires Sized(t)
    ensures var u, q, n := MakeRoom(t), Queue(t), Min(t.evictBatch, |t.order|);
            && (forall j :: 0 <= j < |q| ==> Queue(u)[j] in {EMPTY, q[j]})
            && (forall h :: h in u.times ==> h in t.times && u.times[h] == t.times[h])
            && (forall h :: h in t.times && h != EMPTY && h in Queue(u) ==> h in u.times || h in q[..n])
            && (forall h :: h in u.times && h in q && h != EMPTY ==> h in Queue(u))
            && (forall h :: h in t.times && h !in q[..n] ==> h in u.times)
  {
    var q, n, u := Queue(t), Min(t.evictBatch, |t.order|), MakeRoom(t);
    MakeRoomCases(t);
    hide MakeRoom, Queue;
    forall h | h in u.times && h in q && h != EMPTY ensures h in Queue(u) {
      var j :| 0 <= j < |q| && q[j] == h;
      assert j < n ==> q[..n][j] == h;
      assert Queue(u)[j] == h;
    }
  }

  lemma RecordQueue(t: Tracker, hash: Hash, time: int)
    requires Sized(t)
    ensures Queue(Record(t, hash, time)) == Queue(MakeRoom(t))[1..] + [hash]
    ensures Record(t, hash, time).times ==
            var u := MakeRoom(t);
            var x := Queue(u)[0];
            if x != EMPTY then u.times[hash := time] - {x} else u.times[hash := time]
  {
    hide MakeRoom, Evict;
    var u, r := MakeRoom(t), Record(t, hash, time);
    var size := |u.order|;
    Wrap(u.head, if size == 1 then 0 else 1, size);
    assert r.head == if u.head + 1 < size then u.head + 1 else 0;
  }

  // ---------------------------------------------------------------- what the ring holds

  /** The place of slot j of the queue in the history of n hashes; negative before the start. */
  function Index(n: nat, size: nat, j: nat): int { n - size + j }

  /** Each slot holds the hash sent at its turn, or nothing; whatever the map holds is in the
      queue, with the time of the unbounded map. */
  ghost predicate Ring(t: Tracker, sent: seq<Hash>, m: map<Hash, int>) {
    && Sized(t)
    && (forall j :: 0 <= j < |t.order| ==>
          SlotMatches(Queue(t)[j], sent, Index(|sent|, |t.order|, j)))
    && (forall h :: h in t.times ==> h in Queue(t) && h != EMPTY && h in m && t.times[h] == m[h])
  }

  /** How many of the latest hashes cannot have been dropped yet. */
  function Window(maxSize: nat, evictBatch: nat): nat {
    var cleared := if evictBatch > 1 then evictBatch else 1;
    if cleared >= maxSize then 1 else maxSize - cleared + 1
  }

  /** No other Set of the hash that was sent as number k still had its slot when that one took
      its own, and has lost it since. */
  ghost predicate Clean(sent: seq<Hash>, size: nat, k: nat)
    requires k < |sent|
  {
    forall i :: 0 <= i < |sent| && k - size <= i < |sent| - size ==> sent[i] != sent[k]
  }

  /** The latest w hashes are tracked unless they were deleted, or an older slot of theirs was
      taken over. */
  ghost predicate Survive(t: Tracker, sent: seq<Hash>, m: map<Hash, int>, w: nat) {
    forall k :: 0 <= k < |sent| && |sent| - w <= k && sent[k] in m && Clean(sent, |t.order|, k) ==> sent[k] in t.times
  }

  ghost predicate SlotMatches(x: Hash, sent: seq<Hash>, i: int) {
    x == EMPTY || (0 <= i < |sent| && x == sent[i])
  }

  lemma RecordRingQueue(t: Tracker, sent: seq<Hash>, m: map<Hash, int>, hash: Hash, time: int)
    requires Ring(t, sent, m)
    ensures forall j :: 0 <= j < |t.order| ==>
            SlotMatches(Queue(Record(t, hash, time))[j], sent + [hash], Index(|sent| + 1, |t.order|, j))
  {
    MakeRoomClears(t);
    RecordQueue(t, hash, time);
    var q, q', size := Queue(MakeRoom(t)), Queue(Record(t, hash, time)), |t.order|;
    hide MakeRoom, Record, Queue;
    forall j | 0 <= j < size ensures SlotMatches(q'[j], sent + [hash], Index(|sent| + 1, size, j)) {
      if j < size - 1 {
        assert q'[j] == q[j + 1] && q[j + 1] in {EMPTY, Queue(t)[j + 1]};
        assert SlotMatches(Queue(t)[j + 1], sent, Index(|sent|, size, j + 1));
      }
    }
  }

  lemma RecordRingTimes(t: Tracker, sent: seq<Hash>, m: map<Hash, int>, hash: Hash, time: int)
    requires Ring(t, sent, m) && hash != EMPTY
    ensures var r := Record(t, hash, time);
            forall h :: h in r.times ==>
              h in Queue(r) && h != EMPTY && h in m[hash := time] && r.times[h] == m[hash := time][h]
  {
    MakeRoomClears(t);
    RecordQueue(t, hash, time);
    var u, r, size := MakeRoom(t), Record(t, hash, time), |t.order|;
    var q, q' := Queue(u), Queue(r);
    assert q'[size - 1] == hash;
    forall h | h in r.times && h != hash ensures h in q' && h in m && r.times[h] == m[h] {
      assert h in u.times && h in t.times && h in Queue(t) && h in q;
      var j :| 0 <= j < size && q[j] == h;
      assert j > 0;
      assert q'[j - 1] == h;
    }
  }

  lemma RecordRing(t: Tracker, sent: seq<Hash>, m: map<Hash, int>, hash: Hash, time: int)
    requires Ring(t, sent, m) && hash != EMPTY
    ensures Ring(Record(t, hash, time), sent + [hash], m[hash := time])
  {
    RecordRingQueue(t, sent, m, hash, time);
    RecordRingTimes(t, sent, m, hash, time);
  }

  ghost predicate AllDiffer(q: seq<Hash>) {
    forall i, j :: 0 <= i < j < |q| ==> q[i] != q[j]
  }

  /** A ring with some of its slots emptied. */
  ghost predicate Emptied(q: seq<Hash>, q': seq<Hash>) {
    |q'| == |q| && forall i :: 0 <= i < |q| ==> q'[i] == EMPTY || q'[i] == q[i]
  }

  /** A full map: every slot holds another hash, and all of them are tracked. So no hash has
      two slots, and none is empty, when an eviction runs. */
  lemma FullRing(t: Tracker, sent: seq<Hash>, m: map<Hash, int>)
    requires Ring(t, sent, m) && |t.times| >= |t.order|
    ensures AllDiffer(Queue(t))
    ensures forall i :: 0 <= i < |t.order| ==> Queue(t)[i] in t.times && Queue(t)[i] != EMPTY
  {
    var q := Queue(t);
    assert |t.times| == |t.times.Keys|;
    AllDistinct(q, t.times.Keys);
    forall i | 0 <= i < |q| ensures q[i] in t.times && q[i] != EMPTY {
      assert q[i] in t.times.Keys;
    }
  }

  lemma {:induction false} AllDistinct(s: seq<Hash>, hs: set<Hash>)
    requires (forall h :: h in hs ==> h in s) && |hs| >= |s|
    ensures AllDiffer(s)
    ensures forall i :: 0 <= i < |s| ==> s[i] in hs
  {
    if s != [] {
      var rest := hs - {s[0]};
      forall h | h in rest ensures h in s[1..] {
        var i :| 0 <= i < |s| && s[i] == h;
        assert s[1..][i - 1] == h;
      }
      ElementsBounded(s[1..], rest);
      AllDistinct(s[1..], rest);
      forall i | 0 < i < |s| ensures s[i] in hs && s[i] != s[0] {
        assert s[1..][i - 1] == s[i];
      }
      forall i, j | 0 < i < j < |s| ensures s[i] != s[j] {
        assert s[1..][i - 1] == s[i] && s[1..][j - 1] == s[j];
      }
    }
  }

  /** A hash that was sent as one of the latest, and is tracked, outlives an eviction. */
  lemma SurvivesEviction(t: Tracker, sent: seq<Hash>, m: map<Hash, int>, k: nat)
    requires Ring(t, sent, m) && k < |sent| && sent[k] in t.times
    requires |sent| + 1 - Window(|t.order|, t.evictBatch) <= k
    ensures sent[k] in MakeRoom(t).times
  {
    if |t.times| >= |t.order| {
      var p := k - (|sent| - |t.order|);
      FullRing(t, sent, m);
      assert SlotMatches(Queue(t)[p], sent, Index(|sent|, |t.order|, p));
      FullRoomSpares(t, sent[k], p);
    } else {
      FullMapOnly(t);
    }
    hide MakeRoom, Queue;
  }

  lemma FullRoomSpares(t: Tracker, h: Hash, p: nat)
    requires Sized(t) && p < |t.order| && Queue(t)[p] == h && h in t.times && p >= Min(t.evictBatch, |t.order|)
    requires AllDiffer(Queue(t))
    ensures h in MakeRoom(t).times
  {
    var q, n := Queue(t), Min(t.evictBatch, |t.order|);
    MakeRoomCases(t);
    hide MakeRoom, Queue;
    forall i | 0 <= i < n ensures q[..n][i] != h {
      assert i < p;
    }
  }

  lemma FullMapOnly(t: Tracker)
    requires Sized(t) && |t.times| < |t.order|
    ensures MakeRoom(t) == t
  {
  }

  /** The slot taken over holds nothing, or the hash sent one ring earlier. */
  lemma Displaced(t: Tracker, sent: seq<Hash>, m: map<Hash, int>)
    requires Ring(t, sent, m)
    ensures var x := Queue(MakeRoom(t))[0];
            x == EMPTY || (|sent| >= |t.order| && x == sent[|sent| - |t.order|])
  {
    MakeRoomClears(t);
    assert Queue(MakeRoom(t))[0] in {EMPTY, Queue(t)[0]};
    assert SlotMatches(Queue(t)[0], sent, Index(|sent|, |t.order|, 0));
  }

  lemma RecordSurvive(t: Tracker, sent: seq<Hash>, m: map<Hash, int>, hash: Hash, time: int)
    requires Ring(t, sent, m) && hash != EMPTY
    requires Survive(t, sent, m, Window(|t.order|, t.evictBatch))
    ensures Survive(Record(t, hash, time), sent + [hash], m[hash := time], Window(|t.order|, t.evictBatch))
  {
    var n, size, all := |sent|, |t.order|, sent + [hash];
    RecordQueue(t, hash, time);
    Displaced(t, sent, m);
    var x := Queue(MakeRoom(t))[0];
    forall k | 0 <= k <= n && n + 1 - Window(size, t.evictBatch) <= k
               && all[k] in m[hash := time] && Clean(all, size, k)
      ensures all[k] in Record(t, hash, time).times
    {
      assert x != EMPTY ==> all[n - size] == x;
      if all[k] != hash {
        CleanBefore(sent, hash, size, k);
        SurvivesEviction(t, sent, m, k);
      }
    }
  }

  lemma CleanBefore(sent: seq<Hash>, hash: Hash, size: nat, k: nat)
    requires k < |sent| && Clean(sent + [hash], size, k)
    ensures Clean(sent, size, k)
  {
    forall i | 0 <= i < |sent| && k - size <= i < |sent| - size ensures sent[i] != sent[k] {
      assert (sent + [hash])[i] == sent[i] && (sent + [hash])[k] == sent[k];
    }
  }

  lemma {:induction false} RunRing(maxSize: pos, evictBatch: nat, ops: seq<Op>)
    requires EMPTY !in Sent(ops)
    ensures Ring(Run(maxSize, evictBatch, ops), Sent(ops), Unbounded(ops))
    ensures Survive(Run(maxSize, evictBatch, ops), Sent(ops), Unbounded(ops), Window(maxSize, evictBatch))
    decreases |ops|
  {
    if ops != [] {
      var init, op := ops[..|ops| - 1], ops[|ops| - 1];
      var t, sent, m := Run(maxSize, evictBatch, init), Sent(init), Unbounded(init);
      RunRing(maxSize, evictBatch, init);
      if op.SetOp? {
        assert Sent(ops)[|sent|] == op.hash;
        RecordRing(t, sent, m, op.hash, op.time);
        RecordSurvive(t, sent, m, op.hash, op.time);
      } else {
        assert Sent(ops) == sent;
        assert Queue(Run(maxSize, evictBatch, ops)) == Queue(t);
      }
    }
  }

  lemma {:induction false} ElementsBounded(s: seq<Hash>, hs: set<Hash>)
    requires forall h :: h in hs ==> h in s
    ensures |hs| <= |s|
  {
    if s == [] {
      assert hs == {};
    } else {
      var rest := hs - {s[0]};
      ElementsBounded(s[1..], rest);
      assert hs <= rest + {s[0]};
      if s[0] in hs { assert hs == rest + {s[0]}; } else { assert hs == rest; }
    }
  }

  /** For nonzero hashes, repeated or not, the tracker agrees with a map that forgets nothing:
      it never invents or resurrects an entry, it holds at most maxSize, and it has the time of
      each of the latest hashes that was not deleted, unless an older slot of that hash was
      taken over after it. The window is maxSize less the eviction batch, and the hash itself;
      a batch of zero clears one slot all the same. */
  lemma AgreesWithUnbounded(maxSize: pos, evictBatch: nat, ops: seq<Op>)
    requires EMPTY !in Sent(ops)
    ensures var t, sent, m := Run(maxSize, evictBatch, ops), Sent(ops), Unbounded(ops);
            && |t.times| <= maxSize
            && (forall h :: Get(t, h).Found? ==> h in m && Get(t, h).time == m[h])
            && (forall k :: 0 <= k < |sent| && |sent| - Window(maxSize, evictBatch) <= k && Clean(sent, maxSize, k) ==>
                  Get(t, sent[k]) == if sent[k] in m then Found(m[sent[k]]) else Missing)
  {
    var t := Run(maxSize, evictBatch, ops);
    RunRing(maxSize, evictBatch, ops);
    ElementsBounded(Queue(t), t.times.Keys);
    assert |t.times| == |t.times.Keys|;
  }

  // ---------------------------------------------------------------- exactly what is tracked

  /** Room is made exactly when the map is full: the batch of oldest slots is emptied, and what
      they held is forgotten. Otherwise nothing changes. */
  lemma RoomMadeIffFull(t: Tracker)
    requires Sized(t)
    ensures |t.times| < |t.order| ==> MakeRoom(t) == t
    ensures |t.times| >= |t.order| ==> Cleared(t, MakeRoom(t), Min(t.evictBatch, |t.order|))
  {
    if |t.times| >= |t.order| {
      var n := Min(t.evictBatch, |t.order|);
      if t.evictBatch >= |t.order| { EvictSaturates(t, t.evictBatch); }
      EvictClears(t, n);
      hide Evict, Cleared;
    }
  }

  /** A ring and a map that hold just these hashes: they are in the last slots and tracked, and
      the other slots are empty. */
  ghost predicate Holds(q: seq<Hash>, keys: set<Hash>, held: seq<Hash>) {
    && |held| <= |q| && q[|q| - |held|..] == held
    && (forall i :: 0 <= i < |q| - |held| ==> q[i] == EMPTY)
    && forall h :: h in keys <==> h in held
  }

  ghost predicate TrackerHolds(t: Tracker, held: seq<Hash>) {
    Sized(t) && Holds(Queue(t), t.times.Keys, held)
  }

  lemma {:induction false} DistinctSize(s: seq<Hash>, hs: set<Hash>)
    requires AllDiffer(s) && forall h :: h in hs <==> h in s
    ensures |hs| == |s|
  {
    if s == [] {
      assert hs == {};
    } else {
      var rest := hs - {s[0]};
      assert forall i :: 1 <= i < |s| ==> s[1..][i - 1] == s[i];
      assert s == [s[0]] + s[1..];
      DistinctSize(s[1..], rest);
      assert hs == rest + {s[0]};
    }
  }

  lemma FrontApart(q: seq<Hash>, n: nat)
    requires n <= |q| && AllDiffer(q)
    ensures forall h :: h in q[n..] <==> h in q && h !in q[..n]
  {
    assert q == q[..n] + q[n..];
  }

  /** The front of a full ring is emptied. */
  lemma FrontEmptied(q: seq<Hash>, keys: set<Hash>, q': seq<Hash>, keys': set<Hash>, n: nat)
    requires Holds(q, keys, q) && AllDiffer(q) && EMPTY !in q && n <= |q|
    requires |q'| == |q| && q'[n..] == q[n..] && forall i :: 0 <= i < n ==> q'[i] == EMPTY
    requires forall h :: h in keys' <==> h in keys && !(h != EMPTY && h in q[..n])
    ensures Holds(q', keys', q[n..])
  {
    FrontApart(q, n);
    hide AllDiffer;
  }

  lemma ClearedParts(t: Tracker, u: Tracker, n: nat)
    requires Sized(t) && n <= |t.order| && Cleared(t, u, n)
    ensures Sized(u) && |Queue(u)| == |Queue(t)| && Queue(u)[n..] == Queue(t)[n..]
    ensures forall i :: 0 <= i < n ==> Queue(u)[i] == EMPTY
    ensures forall h :: h in u.times.Keys <==> h in t.times.Keys && !(h != EMPTY && h in Queue(t)[..n])
  {
    hide Queue;
  }

  /** The hashes left when room is made for the next one. */
  function Room(held: seq<Hash>, size: nat, evictBatch: nat): (r: seq<Hash>)
    ensures |r| <= |held|
  {
    if |held| < size then held else held[Min(evictBatch, |held|)..]
  }

  lemma RoomHolds(t: Tracker, held: seq<Hash>)
    requires TrackerHolds(t, held) && AllDiffer(held) && EMPTY !in held
    ensures TrackerHolds(MakeRoom(t), Room(held, |t.order|, t.evictBatch))
  {
    hide MakeRoom, Queue, AllDiffer, Cleared;
    HeldSize(t, held);
    RoomMadeIffFull(t);
    if |held| == |t.order| { FullRoomHolds(t, MakeRoom(t), held); }
    hide Holds;
  }

  lemma HeldSize(t: Tracker, held: seq<Hash>)
    requires TrackerHolds(t, held) && AllDiffer(held)
    ensures |t.times| == |held| <= |t.order|
  {
    hide Queue;
    assert |t.times| == |t.times.Keys|;
    DistinctSize(held, t.times.Keys);
    hide AllDiffer;
  }

  lemma FullRoomHolds(t: Tracker, u: Tracker, held: seq<Hash>)
    requires TrackerHolds(t, held) && AllDiffer(held) && EMPTY !in held && |held| == |t.order|
    requires Cleared(t, u, Min(t.evictBatch, |t.order|))
    ensures TrackerHolds(u, held[Min(t.evictBatch, |t.order|)..])
  {
    var q, n := Queue(t), Min(t.evictBatch, |t.order|);
    hide Queue, AllDiffer, Cleared;
    FullQueue(q, t.times.Keys, held);
    ClearedParts(t, u, n);
    hide Holds;
    FrontEmptied(held, t.times.Keys, Queue(u), u.times.Keys, n);
  }

  lemma FullQueue(q: seq<Hash>, keys: set<Hash>, held: seq<Hash>)
    requires Holds(q, keys, held) && |held| == |q|
    ensures q == held
  {
    assert q == q[0..];
  }

  /** A Set shifts the queue: onto an empty slot, or onto the oldest entry. */
  lemma ShiftOntoEmpty(q: seq<Hash>, keys: set<Hash>, held: seq<Hash>, hash: Hash)
    requires Holds(q, keys, held) && |held| < |q|
    ensures q[0] == EMPTY && Holds(q[1..] + [hash], keys + {hash}, held + [hash])
  {
    var q' := q[1..] + [hash];
    assert q'[|q| - 1 - |held|..] == q[|q| - |held|..] + [hash];
  }

  lemma ShiftOntoOldest(q: seq<Hash>, keys: set<Hash>, held: seq<Hash>, hash: Hash)
    requires Holds(q, keys, held) && |held| == |q| > 0 && AllDiffer(held) && hash !in held
    ensures q[0] == held[0]
    ensures Holds(q[1..] + [hash], keys + {hash} - {held[0]}, held[1..] + [hash])
  {
    assert q == q[0..] == held;
    FrontApart(held, 1);
    assert held[..1] == [held[0]];
    hide AllDiffer;
  }

  lemma AllDifferPart(held: seq<Hash>, n: nat)
    requires n <= |held| && AllDiffer(held)
    ensures AllDiffer(held[n..]) && forall h :: h in held[n..] ==> h in held
  {
    assert forall i :: 0 <= i < |held| - n ==> held[n..][i] == held[n + i];
  }

  /** The hashes held after one more Set. */
  function NextHeld(held: seq<Hash>, size: nat, evictBatch: nat, hash: Hash): seq<Hash> {
    var r := Room(held, size, evictBatch);
    (if |r| < size || r == [] then r else r[1..]) + [hash]
  }

  lemma SetHolds(t: Tracker, held: seq<Hash>, hash: Hash, time: int)
    requires TrackerHolds(t, held) && AllDiffer(held) && EMPTY !in held && hash !in held && hash != EMPTY
    ensures TrackerHolds(Record(t, hash, time), NextHeld(held, |t.order|, t.evictBatch, hash))
  {
    hide MakeRoom, Record, Queue, AllDiffer, Holds;
    RoomHolds(t, held);
    RecordKeys(t, hash, time);
    HeldSize(t, held);
    RoomLeaves(held, |t.order|, t.evictBatch);
    var u, left := MakeRoom(t), Room(held, |t.order|, t.evictBatch);
    hide Room;
    if |left| < |t.order| {
      ShiftOntoEmpty(Queue(u), u.times.Keys, left, hash);
    } else {
      ShiftOntoOldest(Queue(u), u.times.Keys, left, hash);
      assert left[0] in left;
    }
  }

  lemma RoomLeaves(held: seq<Hash>, size: nat, evictBatch: nat)
    requires AllDiffer(held)
    ensures AllDiffer(Room(held, size, evictBatch)) && forall h :: h in Room(held, size, evictBatch) ==> h in held
  {
    hide AllDiffer;
    AllDifferPart(held, |held| - |Room(held, size, evictBatch)|);
  }

  lemma RecordKeys(t: Tracker, hash: Hash, time: int)
    requires Sized(t)
    ensures var u, r := MakeRoom(t), Record(t, hash, time);
            && |u.order| == |t.order| && Sized(u) && Queue(r) == Queue(u)[1..] + [hash]
            && r.times.Keys == if Queue(u)[0] != EMPTY then u.times.Keys + {hash} - {Queue(u)[0]}
                               else u.times.Keys + {hash}
  {
    RecordQueue(t, hash, time);
    hide MakeRoom, Record, Queue;
  }

  lemma AllDifferPrefix(sent: seq<Hash>, hash: Hash)
    requires AllDiffer(sent + [hash]) && EMPTY !in sent + [hash]
    ensures AllDiffer(sent) && EMPTY !in sent && hash != EMPTY && hash !in sent
  {
    var all := sent + [hash];
    assert all[|sent|] == hash;
    assert forall i :: 0 <= i < |sent| ==> all[i] == sent[i];
  }

  /** How many entries there are after n Sets of distinct hashes. */
  function Count(maxSize: pos, evictBatch: nat, n: nat): (c: nat)
    ensures c <= n && c <= maxSize
  {
    var b := Max(1, Min(evictBatch, maxSize));
    if n <= maxSize then n else maxSize - b + 1 + (n - maxSize - 1) % b
  }

  lemma NextRemainder(m: nat, b: nat)
    requires b > 0
    ensures (m + 1) % b == if m % b == b - 1 then 0 else m % b + 1
  {
    var q, r := m / b, m % b;
    assert m == b * q + r;
    if r == b - 1 {
      assert m + 1 == b * (q + 1);
      RemainderOf(m + 1, b, q + 1, 0);
    } else {
      RemainderOf(m + 1, b, q, r + 1);
    }
  }

  lemma RemainderOf(x: nat, b: nat, q: nat, r: nat)
    requires b > 0 && r < b && x == b * q + r
    ensures x % b == r
  {
    var e := x / b;
    assert x == b * e + x % b;
    assert e < q ==> b * (e + 1) <= b * q;
    assert q < e ==> b * (q + 1) <= b * e;
  }

  lemma CountNext(maxSize: pos, evictBatch: nat, n: nat)
    ensures var c := Count(maxSize, evictBatch, n);
            Count(maxSize, evictBatch, n + 1)
            == if c < maxSize then c + 1 else maxSize + 1 - Max(1, Min(evictBatch, maxSize))
  {
    var b := Max(1, Min(evictBatch, maxSize));
    if n > maxSize { NextRemainder(n - maxSize - 1, b); }
    if n == maxSize { RemainderOf(0, b, 0, 0); }
  }

  /** The latest c. */
  function Latest(sent: seq<Hash>, c: nat): seq<Hash>
    requires c <= |sent|
  {
    sent[|sent| - c..]
  }

  lemma NextLatest(maxSize: pos, evictBatch: nat, sent: seq<Hash>, hash: Hash)
    ensures NextHeld(Latest(sent, Count(maxSize, evictBatch, |sent|)), maxSize, evictBatch, hash)
         == Latest(sent + [hash], Count(maxSize, evictBatch, |sent| + 1))
  {
    CountNext(maxSize, evictBatch, |sent|);
    hide Count;
    var c := Count(maxSize, evictBatch, |sent|);
    NextHeldDrops(Latest(sent, c), maxSize, evictBatch, hash);
    ShiftLatest(sent, c, if c < maxSize then 0 else Max(1, Min(evictBatch, c)), hash);
    hide NextHeld, Latest;
  }

  lemma NextHeldDrops(held: seq<Hash>, size: nat, evictBatch: nat, hash: Hash)
    requires |held| <= size && size > 0
    ensures var e := if |held| < size then 0 else Max(1, Min(evictBatch, size));
            NextHeld(held, size, evictBatch, hash) == held[e..] + [hash]
  {
  }

  lemma ShiftLatest(sent: seq<Hash>, c: nat, e: nat, hash: Hash)
    requires e <= c <= |sent|
    ensures Latest(sent, c)[e..] + [hash] == Latest(sent + [hash], c - e + 1)
  {
  }

  lemma {:induction false} RunHolds(maxSize: pos, evictBatch: nat, ops: seq<Op>)
    requires forall i :: 0 <= i < |ops| ==> ops[i].SetOp?
    requires AllDiffer(Sent(ops)) && EMPTY !in Sent(ops)
    ensures |Sent(ops)| == |ops|
    ensures TrackerHolds(Run(maxSize, evictBatch, ops), Latest(Sent(ops), Count(maxSize, evictBatch, |ops|)))
    decreases |ops|
  {
    if ops == [] {
      EmptyHolds(maxSize, evictBatch);
    } else {
      hide TrackerHolds, Count, NextHeld, AllDiffer, Apply, Run, Sent;
      var init, op := ops[..|ops| - 1], ops[|ops| - 1];
      assert ops == init + [op];
      RunNext(maxSize, evictBatch, init, op);
      AllDifferPrefix(Sent(init), op.hash);
      RunHolds(maxSize, evictBatch, init);
      NextLatest(maxSize, evictBatch, Sent(init), op.hash);
      SetLatest(Run(maxSize, evictBatch, init), Sent(init), Count(maxSize, evictBatch, |init|), op);
    }
  }

  lemma SetLatest(t: Tracker, sent: seq<Hash>, c: nat, op: Op)
    requires op.SetOp? && c <= |sent| && TrackerHolds(t, Latest(sent, c))
    requires AllDiffer(sent) && EMPTY !in sent && op.hash !in sent && op.hash != EMPTY
    ensures TrackerHolds(Apply(t, op), NextHeld(Latest(sent, c), |t.order|, t.evictBatch, op.hash))
  {
    assert Sized(t);
    hide TrackerHolds, NextHeld, AllDiffer, Record;
    AllDifferPart(sent, |sent| - c);
    SetHolds(t, Latest(sent, c), op.hash, op.time);
  }

  lemma EmptyHolds(maxSize: pos, evictBatch: nat)
    ensures TrackerHolds(Empty(maxSize, evictBatch), [])
  {
  }

  /** Exactly what is tracked after n Sets of distinct nonzero hashes: all of them while they fit,
      and from then on the latest ones, between the size less the eviction batch and the size.
      The batch counts as at least one and at most the size. */
  lemma TrackedExactly(maxSize: pos, evictBatch: nat, ops: seq<Op>)
    requires forall i :: 0 <= i < |ops| ==> ops[i].SetOp?
    requires AllDiffer(Sent(ops)) && EMPTY !in Sent(ops)
    ensures var n, b := |ops|, if evictBatch < 1 then 1 else if evictBatch > maxSize then maxSize else evictBatch;
            var c := if n <= maxSize then n else maxSize - b + 1 + (n - maxSize - 1) % b;
            && |Sent(ops)| == n && 0 <= c <= n
            && forall h :: Get(Run(maxSize, evictBatch, ops), h).Found? <==> h in Sent(ops)[n - c..]
  {
    hide Run, Sent, Queue, AllDiffer;
    RunHolds(maxSize, evictBatch, ops);
  }

  // ---------------------------------------------------------------- hashes set again

  /** After `since` further Sets, none of them of h: where the slots of h are that the ring
      `before` held when h was set, and what a lookup says. */
  ghost predicate Follows(q: seq<Hash>, got: Lookup, before: seq<Hash>, h: Hash, time: int, since: nat) {
    && |before| == |q| && since < |q|
    && q[|q| - 1 - since] == h
    && (forall p :: 0 <= p < |q| - 1 - since ==> (q[p] == h <==> before[p + since + 1] == h))
    && got == if h in before[..since + 1] then Missing else Found(time)
  }

  /** A Set of another hash takes over the first slot. */
  lemma ShiftFollows(q: seq<Hash>, got: Lookup, q': seq<Hash>, got': Lookup,
                     before: seq<Hash>, h: Hash, time: int, since: nat)
    requires Follows(q, got, before, h, time, since) && since + 1 < |q|
    requires |q'| == |q| && q'[..|q| - 1] == q[1..]
    requires got' == if q[0] == h then Missing else got
    ensures Follows(q', got', before, h, time, since + 1)
  {
    assert before[..since + 2] == before[..since + 1] + [before[since + 1]];
    assert forall p :: 0 <= p < |q| - 1 ==> q'[..|q| - 1][p] == q[1..][p];
  }

  /** An eviction while h has no older slot, and that spares its own. */
  lemma EvictionFollows(q: seq<Hash>, q': seq<Hash>, got: Lookup, before: seq<Hash>, h: Hash, time: int, since: nat)
    requires Follows(q, got, before, h, time, since) && h != EMPTY
    requires AllDiffer(q) && Emptied(q, q') && q'[|q| - 1 - since] == h
    ensures Follows(q', got, before, h, time, since)
  {
    forall p | 0 <= p < |q| - 1 - since ensures q'[p] == h <==> before[p + since + 1] == h {
      assert q[p] != h;
    }
  }

  /** Making room spares a hash that was set within the window. */
  lemma RoomSpares(t: Tracker, sent: seq<Hash>, m: map<Hash, int>, h: Hash, since: nat)
    requires Ring(t, sent, m) && |t.times| >= |t.order| && h != EMPTY
    requires since + 1 < Window(|t.order|, t.evictBatch) && Queue(t)[|t.order| - 1 - since] == h
    ensures Queue(MakeRoom(t))[|t.order| - 1 - since] == h && Get(MakeRoom(t), h) == Get(t, h)
    ensures Emptied(Queue(t), Queue(MakeRoom(t)))
  {
    var q, u, n := Queue(t), MakeRoom(t), Min(t.evictBatch, |t.order|);
    FullRing(t, sent, m);
    MakeRoomCases(t);
    hide MakeRoom, Queue, Ring;
    forall i | 0 <= i < n ensures q[..n][i] != h {
      assert i < |t.order| - 1 - since;
    }
  }

  lemma FollowsOwn(q: seq<Hash>, got: Lookup, before: seq<Hash>, h: Hash, time: int, since: nat)
    requires Follows(q, got, before, h, time, since)
    ensures since < |q| && q[|q| - 1 - since] == h
  {
  }

  lemma FullRoomFollows(t: Tracker, sent: seq<Hash>, m: map<Hash, int>, before: seq<Hash>, h: Hash, time: int,
                        since: nat)
    requires Sized(t) && Ring(t, sent, m) && h != EMPTY && |t.times| >= |t.order|
    requires Follows(Queue(t), Get(t, h), before, h, time, since) && since + 1 < Window(|t.order|, t.evictBatch)
    ensures Follows(Queue(MakeRoom(t)), Get(MakeRoom(t), h), before, h, time, since)
  {
    hide Ring, Follows, Window, Queue, MakeRoom, Get, Evict, AllDiffer, Emptied;
    FollowsOwn(Queue(t), Get(t, h), before, h, time, since);
    RoomSpares(t, sent, m, h, since);
    FullRing(t, sent, m);
    EvictionFollows(Queue(t), Queue(MakeRoom(t)), Get(t, h), before, h, time, since);
  }

  lemma RoomFollows(t: Tracker, sent: seq<Hash>, m: map<Hash, int>, before: seq<Hash>, h: Hash, time: int, since: nat)
    requires Ring(t, sent, m) && h != EMPTY
    requires Follows(Queue(t), Get(t, h), before, h, time, since) && since + 1 < Window(|t.order|, t.evictBatch)
    ensures Follows(Queue(MakeRoom(t)), Get(MakeRoom(t), h), before, h, time, since)
  {
    assert Sized(t) && t.head < |t.order|;
    hide *;
    if |t.times| >= |t.order| { FullRoomFollows(t, sent, m, before, h, time, since); }
    else { FullMapOnly(t); }
  }

  /** What a lookup of one hash says after a Set of another. */
  lemma RecordOther(t: Tracker, other: Hash, at: int, h: Hash)
    requires Sized(t) && h != other && h != EMPTY
    ensures Queue(Record(t, other, at))[..|t.order| - 1] == Queue(MakeRoom(t))[1..]
    ensures Get(Record(t, other, at), h) == if Queue(MakeRoom(t))[0] == h then Missing else Get(MakeRoom(t), h)
  {
    RecordQueue(t, other, at);
    hide Record, MakeRoom, Queue;
  }

  lemma RecordOwn(t: Tracker, h: Hash, time: int)
    requires Sized(t) && h != EMPTY
    ensures Follows(Queue(Record(t, h, time)), Get(Record(t, h, time), h), Queue(MakeRoom(t)), h, time, 0)
  {
    RecordQueue(t, h, time);
    hide Record, MakeRoom, Queue;
    assert Queue(MakeRoom(t))[..1] == [Queue(MakeRoom(t))[0]];
  }

  lemma FollowsSet(t: Tracker, sent: seq<Hash>, m: map<Hash, int>, before: seq<Hash>, h: Hash, time: int, since: nat,
                   other: Hash, at: int)
    requires Ring(t, sent, m) && other != h && h != EMPTY
    requires Follows(Queue(t), Get(t, h), before, h, time, since) && since + 1 < Window(|t.order|, t.evictBatch)
    ensures var r := Record(t, other, at); Follows(Queue(r), Get(r, h), before, h, time, since + 1)
  {
    RoomFollows(t, sent, m, before, h, time, since);
    RecordOther(t, other, at, h);
    var u, r := MakeRoom(t), Record(t, other, at);
    hide Record, MakeRoom, Queue, Get, Ring;
    ShiftFollows(Queue(u), Get(u, h), Queue(r), Get(r, h), before, h, time, since);
  }

  ghost predicate Mentions(ops: seq<Op>, h: Hash) {
    exists i :: 0 <= i < |ops| && ops[i].hash == h
  }

  lemma FollowsOp(t: Tracker, sent: seq<Hash>, m: map<Hash, int>, before: seq<Hash>, h: Hash, time: int, since: nat,
                  op: Op)
    requires Ring(t, sent, m) && op.hash != h && h != EMPTY
    requires Follows(Queue(t), Get(t, h), before, h, time, since)
    requires op.SetOp? ==> since + 1 < Window(|t.order|, t.evictBatch)
    ensures var r := Apply(t, op);
            Follows(Queue(r), Get(r, h), before, h, time, since + if op.SetOp? then 1 else 0)
  {
    if op.SetOp? {
      FollowsSet(t, sent, m, before, h, time, since, op.hash, op.time);
    } else {
      assert Queue(Delete(t, op.hash)) == Queue(t) && Get(Delete(t, op.hash), h) == Get(t, h);
    }
    hide Follows, Queue, Get, Record, Ring;
  }

  lemma RunNext(maxSize: pos, evictBatch: nat, ops: seq<Op>, op: Op)
    ensures Run(maxSize, evictBatch, ops + [op]) == Apply(Run(maxSize, evictBatch, ops), op)
    ensures Sent(ops + [op]) == Sent(ops) + if op.SetOp? then [op.hash] else []
  {
    hide Apply;
    assert (ops + [op])[..|ops|] == ops;
  }

  lemma LastOp(ops: seq<Op>, after: seq<Op>, h: Hash)
    requires after != [] && !Mentions(after, h)
    ensures var init, op := after[..|after| - 1], after[|after| - 1];
            after == init + [op] && ops + after == ops + init + [op] && !Mentions(init, h) && op.hash != h
  {
    assert forall i :: 0 <= i < |after| - 1 ==> after[i] == after[..|after| - 1][i];
  }

  /** Runs in two parts, the second one without h. */
  lemma {:induction false} FollowsRun(maxSize: pos, evictBatch: nat, ops: seq<Op>, before: seq<Hash>, h: Hash,
                                      time: int, after: seq<Op>)
    requires EMPTY !in Sent(ops + after) && h != EMPTY
    requires var t := Run(maxSize, evictBatch, ops); Follows(Queue(t), Get(t, h), before, h, time, 0)
    requires !Mentions(after, h) && |Sent(after)| < Window(maxSize, evictBatch)
    ensures var t := Run(maxSize, evictBatch, ops + after);
            Follows(Queue(t), Get(t, h), before, h, time, |Sent(after)|)
    decreases |after|
  {
    if after == [] {
      assert ops + after == ops;
    } else {
      hide Run, Follows, Queue, Get, Apply, Ring, Sent, Unbounded, Window;
      var init, op := after[..|after| - 1], after[|after| - 1];
      LastOp(ops, after, h);
      RunNext(maxSize, evictBatch, ops + init, op);
      RunNext(maxSize, evictBatch, init, op);
      hide Mentions;
      FollowsRun(maxSize, evictBatch, ops, before, h, time, init);
      RunRing(maxSize, evictBatch, ops + init);
      FollowsOp(Run(maxSize, evictBatch, ops + init), Sent(ops + init), Unbounded(ops + init), before, h, time,
                |Sent(init)|, op);
    }
  }

  /** Exactly when an entry survives the window, for any history of nonzero hashes: after fewer
      further Sets than the window, none of them of the same hash, it is lost if and only if
      one of the slots that they and its own Set took over still held the hash from before.
      The ring at the moment of the Set decides it: a hash that is not in it survives the whole
      window, and one that is at place p of it is lost at the p-th further Set. */
  lemma SurvivesIff(maxSize: pos, evictBatch: nat, before: seq<Op>, h: Hash, time: int, after: seq<Op>)
    requires EMPTY !in Sent(before + [SetOp(h, time)] + after)
    requires !Mentions(after, h) && |Sent(after)| < Window(maxSize, evictBatch)
    ensures var ring := Queue(MakeRoom(Run(maxSize, evictBatch, before)));
            && |Sent(after)| < |ring|
            && Get(Run(maxSize, evictBatch, before + [SetOp(h, time)] + after), h)
            == if h in ring[..|Sent(after)| + 1] then Missing else Found(time)
  {
    var op, t := SetOp(h, time), Run(maxSize, evictBatch, before);
    RunNext(maxSize, evictBatch, before, op);
    SentPrefix(before + [op], after, h);
    assert Sent(before + [op])[|Sent(before)|] == h;
    hide Run, Sent, Queue, Record, MakeRoom;
    RecordOwn(t, h, time);
    FollowsRun(maxSize, evictBatch, before + [op], Queue(MakeRoom(t)), h, time, after);
  }

  lemma {:induction false} SentPrefix(ops: seq<Op>, more: seq<Op>, h: Hash)
    ensures Sent(ops) <= Sent(ops + more)
    decreases |more|
  {
    if more == [] {
      assert ops + more == ops;
    } else {
      SentPrefix(ops, more[..|more| - 1], h);
      assert (ops + more)[..|ops + more| - 1] == ops + more[..|more| - 1];
    }
  }

  /** A Set itself is recorded exactly if the slot it takes over does not hold the same hash,
      for it stores the entry first and then forgets the slot's hash. */
  lemma RecordedIff(t: Tracker, hash: Hash, time: int)
    requires Sized(t) && hash != EMPTY
    ensures Get(Record(t, hash, time), hash) == Found(time) <==> Queue(MakeRoom(t))[0] != hash
  {
    RecordQueue(t, hash, time);
  }

  lemma OneSet(a: Hash)
    requires a != EMPTY
    ensures Run(3, 1, [SetOp(a, 1)]) == Tracker(map[a := 1], [a, EMPTY, EMPTY], 1, 1) && Sent([SetOp(a, 1)]) == [a]
  {
    assert [SetOp(a, 1)] == [] + [SetOp(a, 1)];
    assert Empty(3, 1).order == [EMPTY, EMPTY, EMPTY];
    RunNext(3, 1, [], SetOp(a, 1));
    hide Run, Evict;
  }

  lemma RecordSecond(a: Hash, b: Hash)
    requires a != EMPTY && b != EMPTY && a != b
    ensures Record(Tracker(map[a := 1], [a, EMPTY, EMPTY], 1, 1), b, 2)
         == Tracker(map[a := 1, b := 2], [a, b, EMPTY], 2, 1)
  {
    FullMapOnly(Tracker(map[a := 1], [a, EMPTY, EMPTY], 1, 1));
    hide MakeRoom;
  }

  /** The ring of three that the second Set of a finds, and the history up to the one of c. */
  lemma SetAgainRing(first: seq<Op>, a: Hash, b: Hash, c: Hash)
    requires EMPTY !in [a, b, c] && a != b && first == [SetOp(a, 1)] + [SetOp(b, 2)]
    ensures Queue(MakeRoom(Run(3, 1, first))) == [EMPTY, a, b]
    ensures Sent(first + [SetOp(a, 3)]) == [a, b, a]
    ensures Sent(first + [SetOp(a, 3)] + [SetOp(c, 4)]) == [a, b, a, c]
  {
    hide Run, Evict, Sent, Record, MakeRoom, Queue;
    OneSet(a);
    RingOfTwo(a, b);
    RunNext(3, 1, [SetOp(a, 1)], SetOp(b, 2));
    RecordSecond(a, b);
    RunNext(3, 1, first, SetOp(a, 3));
    RunNext(3, 1, first + [SetOp(a, 3)], SetOp(c, 4));
    hide Apply;
  }

  lemma RingOfTwo(a: Hash, b: Hash)
    requires a != b
    ensures Queue(MakeRoom(Tracker(map[a := 1, b := 2], [a, b, EMPTY], 2, 1))) == [EMPTY, a, b]
  {
    var t := Tracker(map[a := 1, b := 2], [a, b, EMPTY], 2, 1);
    assert t.times.Keys == {a, b};
    FullMapOnly(t);
    hide MakeRoom;
    assert Queue(t) == [EMPTY, a, b];
  }

  lemma OtherSet(a: Hash, c: Hash)
    requires a != c
    ensures Sent([]) == [] && !Mentions([], a) && Sent([SetOp(c, 4)]) == [c] && !Mentions([SetOp(c, 4)], a)
    ensures Window(3, 1) == 3
  {
    assert [SetOp(c, 4)] == [] + [SetOp(c, 4)];
    RunNext(3, 1, [], SetOp(c, 4));
    hide Run;
  }

  /** But a recorded entry may still go early: three slots, the window is all of them, and the
      second Set of a hash is lost with the slot of the first one at the next Set. */
  lemma SetAgainLost(a: Hash, b: Hash, c: Hash)
    requires EMPTY !in [a, b, c] && a != b && a != c
    ensures var ops := [SetOp(a, 1), SetOp(b, 2)] + [SetOp(a, 3)];
            && Get(Run(3, 1, ops + []), a) == Found(3)
            && Get(Run(3, 1, ops + [SetOp(c, 4)]), a) == Missing
            && Window(3, 1) == 3
  {
    hide *;
    var first := [SetOp(a, 1), SetOp(b, 2)];
    assert first == [SetOp(a, 1)] + [SetOp(b, 2)];
    SetAgainRing(first, a, b, c);
    OtherSet(a, c);
    assert first + [SetOp(a, 3)] + [] == first + [SetOp(a, 3)];
    assert [EMPTY, a, b][..1] == [EMPTY] && [EMPTY, a, b][..2] == [EMPTY, a];
    SurvivesIff(3, 1, first, a, 3, []);
    SurvivesIff(3, 1, first, a, 3, [SetOp(c, 4)]);
  }

  lemma {:induction false} EvictSparesZero(t: Tracker, n: nat)
    requires Sized(t) && EMPTY in t.times
    ensures EMPTY in Evict(t, n).times
  {
    if n != 0 { EvictSparesZero(t, n - 1); }
  }

  /** And why they must not be zero: a zero hash looks like an empty slot, so no eviction and
      no wrap of the ring ever forgets it. */
  lemma ZeroHashStays(t: Tracker, hash: Hash, time: int)
    requires Sized(t) && EMPTY in t.times
    ensures EMPTY in Record(t, hash, time).times
  {
    EvictSparesZero(t, t.evictBatch);
  }
}

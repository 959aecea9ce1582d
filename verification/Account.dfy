/** The account object and its nonce handles, updated in place as in
    internal/account/account.go, each method proved against the allocator value of module
    NonceAllocator. */
module Account {
  import opened NonceAllocator
  import opened Numbers

  /** The outcome of asking a node for a nonce. */
  datatype ChainRead = Nonce(value: nat) | Failed

  /** Append a zero, shift the tail by one, and store: the element is inserted. */
  lemma OpenGap(s: seq<nat>, pos: nat, n: nat)
    requires pos <= |s|
    ensures var t := s + [0];
            (t[..pos + 1] + t[pos..|s|])[pos := n] == s[..pos] + [n] + s[pos..]
  {
    var t := s + [0];
    assert t[pos..|s|] == s[pos..] && t[..pos + 1][..pos] == s[..pos];
  }

  class Account {
    var nonce: nat
    var freeNonces: seq<nat>
    var lastResyncNano: int

    function State(): Allocator reads this { Allocator(nonce, freeNonces) }

    constructor ()
      ensures State() == Allocator(0, []) && lastResyncNano == 0
    {
      nonce, freeNonces, lastResyncNano := 0, [], 0;
    }

    /** Hands out a nonce; the handle starts uncommitted. */
    method ReserveNonce() returns (n: Handle)
      modifies this
      ensures fresh(n) && n.account == this && !n.committed
      ensures (n.value, State()) == Reserve(old(State()))
      ensures lastResyncNano == old(lastResyncNano)
    {
      var value;
      if |freeNonces| > 0 {
        value := freeNonces[0];
        freeNonces := freeNonces[1..];
      } else {
        value := nonce;
        nonce := nonce + 1;
      }
      n := new Handle(value, this);
    }

    /** The smallest index whose element is at least n, found as sort.Search finds it. */
    method Search(n: nat) returns (pos: nat)
      requires Ascending(freeNonces)
      ensures pos == Position(freeNonces, n)
    {
      var lo, hi := 0, |freeNonces|;
      while lo < hi
        invariant 0 <= lo <= hi <= |freeNonces|
        invariant lo > 0 ==> freeNonces[lo - 1] < n
        invariant hi < |freeNonces| ==> n <= freeNonces[hi]
      {
        var mid := (lo + hi) / 2;
        if freeNonces[mid] < n { lo := mid + 1; } else { hi := mid; }
      }
      pos := lo;
    }

    /** Returns a nonce: lowers the head, or opens a gap in the sorted list and fills it. */
    method ReturnNonce(n: nat)
      requires Ascending(freeNonces)
      modifies this
      ensures State() == Rollback(old(State()), n)
      ensures lastResyncNano == old(lastResyncNano)
    {
      hide Ascending, Position;
      if nonce == n + 1 {
        nonce := n;
        return;
      }
      var pos := Search(n);
      if pos < |freeNonces| && freeNonces[pos] == n {
        return;
      }
      var before := freeNonces;
      freeNonces := freeNonces + [0];
      freeNonces := freeNonces[..pos + 1] + freeNonces[pos..|freeNonces| - 1];
      freeNonces := freeNonces[pos := n];
      OpenGap(before, pos, n);
    }

    /** Resync and ResyncFromChain differ only in which node they ask. */
    method ResyncNonce(read: ChainRead) returns (ok: bool)
      modifies this
      ensures ok <==> read.Nonce?
      ensures State() == if ok then Resync(old(State()), read.value) else old(State())
      ensures lastResyncNano == old(lastResyncNano)
    {
      if read.Failed? { return false; }
      if read.value > nonce {
        nonce := read.value;
      }
      freeNonces := [];
      ok := true;
    }

    /** ForceResync and ForceResyncFromChain: the node's answer replaces the local state. */
    method ForceResyncNonce(read: ChainRead) returns (ok: bool)
      modifies this
      ensures ok <==> read.Nonce?
      ensures State() == if ok then ForceResync(read.value) else old(State())
      ensures lastResyncNano == old(lastResyncNano)
    {
      if read.Failed? { return false; }
      nonce, freeNonces := read.value, [];
      ok := true;
    }

    /** The rate-limited resync of the sending path. `won` says whether the compare-and-swap
        that collapses concurrent callers succeeds. */
    method MaybeResyncFromChain(now: int, minInterval: int, won: bool, read: ChainRead) returns (ran: bool)
      modifies this
      ensures ran <==> now - old(lastResyncNano) >= minInterval && won
      ensures lastResyncNano == if ran then now else old(lastResyncNano)
      ensures State() == if ran && read.Nonce? then MaybeResync(old(State()), read.value) else old(State())
    {
      if now - lastResyncNano < minInterval { return false; }
      if !won { return false; }
      lastResyncNano := now;
      ran := true;
      if read.Failed? { return; }
      if read.value > nonce {
        nonce := read.value;
      }
      var kept: seq<nat> := [];
      for i := 0 to |freeNonces|
        invariant kept == KeepFrom(freeNonces[..i], read.value)
        invariant freeNonces == old(freeNonces) && nonce == Max(old(nonce), read.value)
        invariant lastResyncNano == now
      {
        assert freeNonces[..i + 1][..i] == freeNonces[..i];
        if freeNonces[i] >= read.value {
          kept := kept + [freeNonces[i]];
        }
      }
      assert freeNonces[..|freeNonces|] == freeNonces;
      freeNonces := kept;
    }

    method PeekNonce() returns (n: nat)
      ensures n == State().head
    {
      n := nonce;
    }
  }

  /** A reserved nonce. The flag is set by whichever of Commit and Rollback comes first. */
  class Handle {
    const value: nat
    const account: Account
    var committed: bool

    constructor (value: nat, account: Account)
      ensures this.value == value && this.account == account && !committed
    {
      this.value, this.account, committed := value, account, false;
    }

    method Commit()
      modifies this
      ensures committed
    {
      committed := true;
    }

    /** Only the first settlement of a handle can return its nonce. */
    method Rollback()
      requires Ascending(account.freeNonces)
      modifies this, account
      ensures committed
      ensures account.State() ==
              if old(committed) then old(account.State()) else NonceAllocator.Rollback(old(account.State()), value)
    {
      var was := committed;
      committed := true;
      if was { return; }
      account.ReturnNonce(value);
    }
  }
}

/** Transactions under strict two-phase locking: the lock bookkeeping of a transaction and its reads and
    writes. */
module Locking {
  import opened Storage
  import opened Serializability

  /** The shared database and who holds which lock.  `order` and `history` record what happened. */
  class Store {
    var db: Db
    var grants: Grants
    ghost var order: seq<TxId>
    ghost var history: History

    ghost function View(): State
      reads this
    {
      State(db, grants, order, history)
    }

    constructor ()
      ensures View() == EMPTY
    {
      db, grants, order, history := map[], map[], [], [];
    }

    /** Waiting for a lock ends with the grant or at the deadline.  `late` says that the deadline comes first,
        which it does whenever another transaction's lock stays in the way. */
    method Acquire(t: TxId, b: BlockId, m: Mode, late: bool) returns (ok: bool)
      modifies this`grants
      ensures ok <==> Compatible(old(grants), t, b, m) && !late
      ensures grants == if ok then old(grants)[(t, b) := m] else old(grants)
    {
      var free := forall k | k in grants :: k.0 != t && k.1 == b ==> m == S && grants[k] == S;
      FreeIsCompatible(grants, t, b, m);
      ok := free && !late;
      if ok { grants := grants[(t, b) := m]; }
    }

    method Unlock(t: TxId, b: BlockId)
      requires (t, b) in grants
      modifies this`grants
      ensures grants == old(grants) - {(t, b)}
    {
      grants := grants - {(t, b)};
    }
  }

  lemma FreeIsCompatible(grants: Grants, t: TxId, b: BlockId, m: Mode)
    ensures Compatible(grants, t, b, m) <==>
            forall k | k in grants :: k.0 != t && k.1 == b ==> m == S && grants[k] == S
  {
    if forall k | k in grants :: k.0 != t && k.1 == b ==> m == S && grants[k] == S {
      forall u | u != t && (u, b) in grants ensures m == S && grants[(u, b)] == S {
        assert (u, b).0 != t;
      }
    }
    if Compatible(grants, t, b, m) {
      forall k | k in grants && k.0 != t && k.1 == b ensures m == S && grants[k] == S {
        assert k == (k.0, b);
      }
    }
  }

  /** The state once the lock is there. */
  ghost function Locked(s: State, t: TxId, b: BlockId, m: Mode): State {
    if Holds(s.grants, t, b, m) then s else s.(grants := s.grants[(t, b) := m])
  }

  /** The state once a transaction has given up all its locks. */
  ghost function Released(s: State, t: TxId): State {
    s.(order := s.order + [t], grants := map k | k in s.grants && k.0 != t :: s.grants[k])
  }

  /** Exactly its own locks are gone, and it is the last in the release order. */
  lemma ReleasedLocks(s: State, t: TxId)
    ensures var s' := Released(s, t);
            && (forall k :: k in s'.grants <==> k in s.grants && k.0 != t)
            && (forall k | k in s'.grants :: s'.grants[k] == s.grants[k])
            && s'.order == s.order + [t] && s'.db == s.db && s'.history == s.history
  {
  }

  lemma LockedInv(s: State, t: TxId, b: BlockId, m: Mode)
    requires Inv(s) && t !in s.order && (Holds(s.grants, t, b, m) || Compatible(s.grants, t, b, m))
    ensures Inv(Locked(s, t, b, m))
  {
    if !Holds(s.grants, t, b, m) { StepKeepsInv(s, Lock(t, b, m)); }
  }

  /** The locks one transaction holds. */
  class ConcurrencyMgr {
    const store: Store
    const t: TxId
    var locks: map<BlockId, Mode>

    ghost predicate Valid()
      reads this, store
    {
      && (forall b | b in locks :: (t, b) in store.grants && store.grants[(t, b)] == locks[b])
      && (forall b | (t, b) in store.grants :: b in locks)
    }

    constructor (store: Store, t: TxId)
      requires forall b :: (t, b) !in store.grants
      ensures this.store == store && this.t == t && Valid() && locks == map[]
    {
      this.store, this.t, locks := store, t, map[];
    }

    /** A lock already held, of either kind, is enough to read; else S is taken unless another transaction's X is
        in the way until the deadline. */
    method SLock(b: BlockId, late: bool) returns (ok: bool)
      requires Valid() && t !in store.order
      modifies this, store`grants
      ensures ok <==> b in old(locks) || (Compatible(old(store.grants), t, b, S) && !late)
      ensures locks == if ok && b !in old(locks) then old(locks)[b := S] else old(locks)
      ensures store.grants == if ok && b !in old(locks) then old(store.grants)[(t, b) := S] else old(store.grants)
      ensures Valid() && store.View() == (if ok then Locked(old(store.View()), t, b, S) else old(store.View()))
      ensures ok && Inv(old(store.View())) ==> Inv(store.View())
    {
      ghost var s := store.View();
      if b in locks {
        ok := true;
      } else {
        ok := store.Acquire(t, b, S, late);
        if ok {
          locks := locks[b := S];
          if Inv(s) { LockedInv(s, t, b, S); }
        }
      }
    }

    /** An X already held is enough to write; else X is taken, an S held turning into it, unless another
        transaction's lock is in the way until the deadline. */
    method XLock(b: BlockId, late: bool) returns (ok: bool)
      requires Valid() && t !in store.order
      modifies this, store`grants
      ensures ok <==> (b in old(locks) && old(locks)[b] == X) || (Compatible(old(store.grants), t, b, X) && !late)
      ensures locks == if ok then old(locks)[b := X] else old(locks)
      ensures store.grants == if ok then old(store.grants)[(t, b) := X] else old(store.grants)
      ensures Valid() && store.View() == (if ok then Locked(old(store.View()), t, b, X) else old(store.View()))
      ensures ok && Inv(old(store.View())) ==> Inv(store.View())
    {
      ghost var s := store.View();
      if b in locks && locks[b] == X {
        ok := true;
      } else {
        ok := store.Acquire(t, b, X, late);
        if ok {
          locks := locks[b := X];
          if Inv(s) { LockedInv(s, t, b, X); }
        }
      }
    }

    /** Give up every lock, one after the other. */
    method Release()
      requires Valid() && t !in store.order
      modifies this, store`grants, store`order
      ensures Valid() && locks == map[]
      ensures store.View() == Released(old(store.View()), t)
      ensures Inv(old(store.View())) ==> Inv(store.View())
    {
      StartRelease();
      ghost var s1 := store.View();
      while locks != map[]
        invariant Valid()
        invariant Releasing(s1, store.View(), t)
        invariant Inv(s1) ==> Inv(store.View())
        decreases |locks.Keys|
      {
        var b :| b in locks;
        ReleaseOne(b);
      }
      NothingLeft(s1, store.View(), t);
    }

    ghost method StartRelease()
      requires Valid() && t !in store.order
      modifies store`order
      ensures Valid() && store.View() == Do(old(store.View()), BeginRelease(t))
      ensures Inv(old(store.View())) ==> Inv(store.View())
    {
      if Inv(store.View()) { StepKeepsInv(store.View(), BeginRelease(t)); }
      store.order := store.order + [t];
    }

    method ReleaseOne(b: BlockId)
      requires Valid() && t in store.order && b in locks
      modifies this, store`grants
      ensures Valid() && locks == old(locks) - {b}
      ensures store.View() == Do(old(store.View()), Unlock(t, b))
      ensures Inv(old(store.View())) ==> Inv(store.View())
    {
      ghost var now := store.View();
      if Inv(now) { StepKeepsInv(now, Unlock(t, b)); }
      store.Unlock(t, b);
      locks := locks - {b};
    }
  }

  /** From `s` to `s'` nothing happened but that `t` gave up some of its locks. */
  ghost predicate Releasing(s: State, s': State, t: TxId) {
    && t in s.order && s' == s.(grants := s'.grants)
    && (forall k | k in s'.grants :: k in s.grants && s'.grants[k] == s.grants[k])
    && (forall k | k in s.grants && k.0 != t :: k in s'.grants)
  }

  lemma NothingLeft(s: State, s': State, t: TxId)
    requires Releasing(s, s', t) && forall b :: (t, b) !in s'.grants
    ensures s'.grants == map k | k in s.grants && k.0 != t :: s.grants[k]
  {
    forall k | k in s'.grants ensures k.0 != t {
      assert k == (k.0, k.1);
    }
  }

  /** Reads and writes of one transaction. */
  class Transaction {
    const store: Store
    const concurMgr: ConcurrencyMgr

    ghost predicate Valid()
      reads this, concurMgr, store
    {
      concurMgr.store == store && concurMgr.Valid() && concurMgr.t !in store.order
    }

    constructor (store: Store, t: TxId)
      requires t !in store.order && forall b :: (t, b) !in store.grants
      ensures this.store == store && concurMgr.t == t && Valid() && fresh(concurMgr)
    {
      this.store := store;
      concurMgr := new ConcurrencyMgr(store, t);
    }

    /** Read a field under the block's lock; without the lock nothing is read.  Reading fails only without a lock
        on the block, and only at the deadline. */
    method GetVal(b: BlockId, f: Field, late: bool) returns (ok: bool, v: Value)
      requires Valid()
      modifies concurMgr, store`grants, store`history
      ensures ok <==> b in old(concurMgr.locks) || (Compatible(old(store.grants), concurMgr.t, b, S) && !late)
      ensures ok ==> b in concurMgr.locks && (b in old(concurMgr.locks) ==> store.grants == old(store.grants))
      ensures Valid() && store.order == old(store.order)
      ensures ok ==> v == Lookup(old(store.db), b, f)
                     && store.View() == Locked(old(store.View()), concurMgr.t, b, S)
                                        .(history := old(store.history) + [Get(concurMgr.t, b, f, v)])
      ensures !ok ==> store.View() == old(store.View())
      ensures Inv(old(store.View())) ==> Inv(store.View())
    {
      ok := concurMgr.SLock(b, late);
      v := Lookup(store.db, b, f);
      if ok {
        ghost var s := store.View();
        if Inv(s) { StepKeepsInv(s, Read(concurMgr.t, b, f)); }
        store.history := store.history + [Get(concurMgr.t, b, f, v)];
      }
    }

    /** Write a field under the block's X lock, kept until the transaction releases. */
    method SetVal(b: BlockId, f: Field, v: Value, late: bool) returns (ok: bool)
      requires Valid()
      modifies concurMgr, store`grants, store`history, store`db
      ensures ok <==> (b in old(concurMgr.locks) && old(concurMgr.locks)[b] == X)
                      || (Compatible(old(store.grants), concurMgr.t, b, X) && !late)
      ensures ok ==> b in concurMgr.locks && concurMgr.locks[b] == X && (concurMgr.t, b) in store.grants
                     && store.grants[(concurMgr.t, b)] == X && Lookup(store.db, b, f) == v
      ensures Valid() && store.order == old(store.order)
      ensures ok ==> store.View() == Locked(old(store.View()), concurMgr.t, b, X)
                                     .(history := old(store.history) + [Set(concurMgr.t, b, f, v)],
                                       db := old(store.db)[(b, f) := v])
      ensures !ok ==> store.View() == old(store.View())
      ensures Inv(old(store.View())) ==> Inv(store.View())
    {
      ok := concurMgr.XLock(b, late);
      if ok {
        ghost var s := store.View();
        if Inv(s) { StepKeepsInv(s, Write(concurMgr.t, b, f, v)); }
        store.history := store.history + [Set(concurMgr.t, b, f, v)];
        store.db := store.db[(b, f) := v];
      }
    }
  }
}

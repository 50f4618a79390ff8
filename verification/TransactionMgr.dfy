/** Ending a transaction: the log first, then the locks, then the pins. */
module TransactionManager {
  import opened Storage
  import opened LogModel
  import opened CommittedLemmas
  import opened Machine
  import opened Runs
  import opened RunPieces
  import opened RollbackLemmas
  import opened RecoveryManager
  import opened BufferLists
  import BufferPool
  import DurabilityTheorems
  import Locking
  import Serializability

  /** Every field the transaction wrote will, after any later crash, be recovered to the value it reads as. */
  ghost predicate Durable(s: State, s': State, t: TxNum) {
    && s'.durable <= |s'.log|
    && forall p, b, f | PendingOn(s.log, t, p, b, f) ::
         CommittedValue(s'.log[..s'.durable], b, f) == Content(s, b).Get(f)
  }

  /** Whoever has outstanding updates on a block, as recovery sees it, was granted X on it. */
  ghost predicate LocksAgree(xlocks: map<BlockId, TxNum>, grants: Serializability.Grants) {
    forall b | b in xlocks ::
      xlocks[b] >= 0 && (xlocks[b], b) in grants && grants[(xlocks[b], b)] == Serializability.X
  }

  /** One transaction's locks are given up on both sides. */
  lemma ReleasedAgree(xlocks: map<BlockId, TxNum>, was: Serializability.State, t: Serializability.TxId)
    requires LocksAgree(xlocks, was.grants)
    ensures LocksAgree(ReleaseLocks(xlocks, t), Locking.Released(was, t).grants)
  {
  }

  class TransactionMgr {
    const recoveryMgr: RecoveryMgr
    const concurMgr: Locking.ConcurrencyMgr
    const mybuffers: BufferList

    ghost function Store(): State
      reads recoveryMgr.rt, recoveryMgr.rt.lm, recoveryMgr.rt.bm, recoveryMgr.rt.att, recoveryMgr.rt.dpt
      requires recoveryMgr.rt.lm.Valid()
    {
      recoveryMgr.rt.View()
    }

    /** It still holds all its locks, and is running if the transaction table knows it. */
    ghost predicate Active()
      reads recoveryMgr.rt, recoveryMgr.rt.lm, recoveryMgr.rt.bm, recoveryMgr.rt.att, recoveryMgr.rt.dpt
      reads concurMgr, concurMgr.store
    {
      && recoveryMgr.rt.Ok() && recoveryMgr.rt.mode.Up?
      && (recoveryMgr.txnum in recoveryMgr.rt.att.table ==> CanCommit(Store(), recoveryMgr.txnum))
      && concurMgr.Valid() && concurMgr.t !in concurMgr.store.order && concurMgr.t == recoveryMgr.txnum
      && LocksAgree(recoveryMgr.rt.xlocks, concurMgr.store.grants)
    }

    constructor (recoveryMgr: RecoveryMgr, concurMgr: Locking.ConcurrencyMgr, mybuffers: BufferList)
      ensures this.recoveryMgr == recoveryMgr && this.concurMgr == concurMgr && this.mybuffers == mybuffers
    {
      this.recoveryMgr, this.concurMgr, this.mybuffers := recoveryMgr, concurMgr, mybuffers;
    }

    /** Locks and pins are given up only once the COMMIT is on disk; if committing fails both are kept. */
    method Commit() returns (ok: bool)
      requires Active() && mybuffers.Valid()
      modifies recoveryMgr.rt, recoveryMgr.rt.lm, recoveryMgr.rt.att, concurMgr, concurMgr.store`grants, concurMgr.store`order
      modifies mybuffers, mybuffers.ledger, mybuffers.bm`numAvailable, mybuffers.bm.bufs
      ensures recoveryMgr.rt.lm.Valid() && Reaches(old(Store()), Store()) && concurMgr.Valid() && mybuffers.Valid()
      ensures ok == (recoveryMgr.txnum in old(recoveryMgr.rt.att.table))
      ensures !ok ==> Store() == old(Store()) && KeptAll(old(concurMgr.store.View()), old(mybuffers.pins))
      ensures ok ==> Durable(old(Store()), Store(), recoveryMgr.txnum)
      ensures ok ==> LetGo(old(concurMgr.store.View()))
      ensures LocksAgree(recoveryMgr.rt.xlocks, concurMgr.store.grants)
      ensures forall l | l != mybuffers.id :: Keys(mybuffers.ledger.held, l) == old(Keys(mybuffers.ledger.held, l))
      ensures BufferPool.SameContents(old(mybuffers.bm.View()), mybuffers.bm.View(), mybuffers.bm.hash)
    {
      ghost var s := Store();
      ok := CommitAndRelease();
      if ok { CommittedDurably(s, recoveryMgr.txnum); }
    }

    method CommitAndRelease() returns (ok: bool)
      requires Active() && mybuffers.Valid()
      modifies recoveryMgr.rt, recoveryMgr.rt.lm, recoveryMgr.rt.att, concurMgr, concurMgr.store`grants, concurMgr.store`order
      modifies mybuffers, mybuffers.ledger, mybuffers.bm`numAvailable, mybuffers.bm.bufs
      ensures recoveryMgr.rt.lm.Valid() && Reaches(old(Store()), Store()) && concurMgr.Valid() && mybuffers.Valid()
      ensures ok == (recoveryMgr.txnum in old(recoveryMgr.rt.att.table))
      ensures !ok ==> Store() == old(Store()) && KeptAll(old(concurMgr.store.View()), old(mybuffers.pins))
      ensures ok ==> CanCommit(old(Store()), recoveryMgr.txnum) && Store() == Committing(old(Store()), recoveryMgr.txnum)
      ensures ok ==> LetGo(old(concurMgr.store.View()))
      ensures LocksAgree(recoveryMgr.rt.xlocks, concurMgr.store.grants)
      ensures forall l | l != mybuffers.id :: Keys(mybuffers.ledger.held, l) == old(Keys(mybuffers.ledger.held, l))
      ensures BufferPool.SameContents(old(mybuffers.bm.View()), mybuffers.bm.View(), mybuffers.bm.hash)
    {
      ok := CommitAndUnlock();
      if ok { GiveBackPins(); }
    }

    /** Pins only; log and locks stay as they are. */
    method GiveBackPins()
      requires recoveryMgr.rt.lm.Valid() && concurMgr.Valid() && mybuffers.Valid()
      modifies mybuffers, mybuffers.ledger, mybuffers.bm`numAvailable, mybuffers.bm.bufs
      ensures recoveryMgr.rt.lm.Valid() && Store() == old(Store())
      ensures concurMgr.Valid() && concurMgr.locks == old(concurMgr.locks)
      ensures concurMgr.store.View() == old(concurMgr.store.View())
      ensures mybuffers.Valid() && mybuffers.pins == []
      ensures forall l | l != mybuffers.id :: Keys(mybuffers.ledger.held, l) == old(Keys(mybuffers.ledger.held, l))
      ensures BufferPool.SameContents(old(mybuffers.bm.View()), mybuffers.bm.View(), mybuffers.bm.hash)
    {
      mybuffers.UnpinAll();
    }

    /** Log and locks. */
    method CommitAndUnlock() returns (ok: bool)
      requires Active()
      modifies recoveryMgr.rt, recoveryMgr.rt.lm, recoveryMgr.rt.att, concurMgr, concurMgr.store`grants, concurMgr.store`order
      ensures recoveryMgr.rt.lm.Valid() && Reaches(old(Store()), Store()) && concurMgr.Valid()
      ensures ok == (recoveryMgr.txnum in old(recoveryMgr.rt.att.table))
      ensures !ok ==> Store() == old(Store()) && concurMgr.store.View() == old(concurMgr.store.View())
      ensures ok ==> CanCommit(old(Store()), recoveryMgr.txnum) && Store() == Committing(old(Store()), recoveryMgr.txnum)
      ensures ok ==> Unlocked(old(concurMgr.store.View()))
      ensures LocksAgree(recoveryMgr.rt.xlocks, concurMgr.store.grants)
    {
      ReleasedAgree(recoveryMgr.rt.xlocks, concurMgr.store.View(), concurMgr.t);
      var lsn := recoveryMgr.Commit();
      ok := lsn.Some?;
      if ok { Unlock(); }
    }

    /** As for Commit, after everything the transaction wrote is undone. */
    method Rollback() returns (ok: bool)
      requires Active() && mybuffers.Valid()
      modifies recoveryMgr.rt, recoveryMgr.rt.lm, recoveryMgr.rt.bm, recoveryMgr.rt.att, recoveryMgr.rt.dpt
      modifies concurMgr, concurMgr.store`grants, concurMgr.store`order
      modifies mybuffers, mybuffers.ledger, mybuffers.bm`numAvailable, mybuffers.bm.bufs
      ensures recoveryMgr.rt.lm.Valid() && Reaches(old(Store()), Store()) && concurMgr.Valid() && mybuffers.Valid()
      ensures ok == (recoveryMgr.txnum in old(recoveryMgr.rt.att.table))
      ensures !ok ==> Store() == old(Store()) && KeptAll(old(concurMgr.store.View()), old(mybuffers.pins))
      ensures ok ==> Restores(old(Store()), Store(), recoveryMgr.txnum)
      ensures ok ==> LetGo(old(concurMgr.store.View()))
      ensures LocksAgree(recoveryMgr.rt.xlocks, concurMgr.store.grants)
      ensures forall l | l != mybuffers.id :: Keys(mybuffers.ledger.held, l) == old(Keys(mybuffers.ledger.held, l))
      ensures BufferPool.SameContents(old(mybuffers.bm.View()), mybuffers.bm.View(), mybuffers.bm.hash)
    {
      ok := RollbackAndUnlock();
      if ok { GiveBackPins(); }
    }

    method RollbackAndUnlock() returns (ok: bool)
      requires Active()
      modifies recoveryMgr.rt, recoveryMgr.rt.lm, recoveryMgr.rt.bm, recoveryMgr.rt.att, recoveryMgr.rt.dpt
      modifies concurMgr, concurMgr.store`grants, concurMgr.store`order
      ensures recoveryMgr.rt.lm.Valid() && Reaches(old(Store()), Store()) && concurMgr.Valid()
      ensures ok == (recoveryMgr.txnum in old(recoveryMgr.rt.att.table))
      ensures !ok ==> Store() == old(Store()) && concurMgr.store.View() == old(concurMgr.store.View())
      ensures ok ==> Restores(old(Store()), Store(), recoveryMgr.txnum)
      ensures ok ==> Unlocked(old(concurMgr.store.View()))
      ensures LocksAgree(recoveryMgr.rt.xlocks, concurMgr.store.grants)
    {
      ReleasedAgree(recoveryMgr.rt.xlocks, concurMgr.store.View(), concurMgr.t);
      var lsn := recoveryMgr.Rollback();
      ok := lsn.Some?;
      if ok { Unlock(); }
    }

    /** Nothing was released. */
    ghost predicate KeptAll(was: Serializability.State, pins: seq<Ref>)
      reads concurMgr.store, mybuffers
    {
      concurMgr.store.View() == was && mybuffers.pins == pins
    }

    /** All locks of the transaction are gone, the locks of the others are as they were, and what strict
        two-phase locking needs still holds. */
    ghost predicate Unlocked(was: Serializability.State)
      reads concurMgr, concurMgr.store
    {
      && concurMgr.locks == map[]
      && concurMgr.store.View() == Locking.Released(was, concurMgr.t)
      && (Serializability.Inv(was) ==> Serializability.Inv(concurMgr.store.View()))
    }

    /** Its pins are gone too. */
    ghost predicate LetGo(was: Serializability.State)
      reads concurMgr, concurMgr.store, mybuffers
    {
      Unlocked(was) && mybuffers.pins == []
    }

    /** Allowed only once the transaction has left the transaction table: by then its COMMIT, or its ABORT and
        every compensation record, is on disk. */
    method Unlock()
      requires recoveryMgr.txnum !in recoveryMgr.rt.att.table
      requires concurMgr.Valid() && concurMgr.t !in concurMgr.store.order
      modifies concurMgr, concurMgr.store`grants, concurMgr.store`order
      ensures concurMgr.Valid() && Unlocked(old(concurMgr.store.View()))
    {
      concurMgr.Release();
    }
  }

  lemma CommittedDurably(s: State, t: TxNum)
    requires Reaches(FRESH, s) && CanCommit(s, t)
    ensures Durable(s, Committing(s, t), t)
  {
    forall p, b, f | PendingOn(s.log, t, p, b, f)
      ensures CommittedValue(Committing(s, t).log[..Committing(s, t).durable], b, f) == Content(s, b).Get(f)
    {
      DurabilityTheorems.CommitIsDurable(s, t, p, b, f);
    }
  }
}

/** The recovery manager of a transaction, and restart recovery.

    Every method says what it did to the store as a whole (`View`): it took the store along a run of
    the machine, so whatever holds along every run holds across every call, and at a crash within it. */
module RecoveryManager {
  import opened Storage
  import opened LogModel
  import opened Machine
  import opened Runs
  import opened RunPieces
  import opened Effects
  import opened RecoveryObjects
  import opened RollbackLemmas

  /** The objects all transactions share.  The ghost fields are the parts of the store's state that live
      in local variables of running calls or in the lock table. */
  class Runtime {
    const lm: LogManager
    const bm: PageCache
    const att: ActiveTrxTable
    const dpt: DirtyPageTable
    ghost var rollbacks: map<TxNum, Cursor>
    ghost var xlocks: map<BlockId, TxNum>
    ghost var mode: Mode
    ghost var recovered: bool

    ghost function View(): State
      reads this, lm, bm, att, dpt
      requires lm.Valid()
    {
      State(lm.records, lm.durable, lm.checkpointLSN, bm.disk, bm.bufs, att.table, dpt.table,
            rollbacks, xlocks, mode, recovered)
    }

    ghost predicate Ok()
      reads this, lm, bm, att, dpt
    {
      lm.Valid() && Reaches(FRESH, View())
    }

    /** A process starts with what is on disk. */
    constructor (log: Log, checkpointLSN: LSN, disk: Disk)
      ensures lm.Valid()
      ensures View() == State(log, |log|, checkpointLSN, disk, map[], map[], map[], map[], map[], Down, false)
      ensures fresh(lm) && fresh(bm) && fresh(att) && fresh(dpt)
    {
      lm := new LogManager(log, checkpointLSN);
      bm := new PageCache(disk);
      att := new ActiveTrxTable();
      dpt := new DirtyPageTable();
      rollbacks, xlocks, mode, recovered := map[], map[], Down, false;
    }
  }

  // ---------------------------------------------------------------- transactions

  const RECOVERY_TXNUM: TxNum := -2

  class RecoveryMgr {
    const rt: Runtime
    const txnum: TxNum

    /** Starting a transaction logs START and enters it in the transaction table. */
    constructor (rt: Runtime, t: TxNum)
      requires rt.lm.Valid() && CanStart(rt.View(), t)
      modifies rt.lm, rt.att
      ensures this.rt == rt && txnum == t && rt.lm.Valid()
      ensures StartDone(old(rt.View()), rt.View(), t)
      ensures rt.View() == DoStart(old(rt.View()).(durable := rt.lm.durable), t)
      ensures Reaches(old(rt.View()), rt.View())
    {
      ghost var s := rt.View();
      var lsn := rt.lm.Append(Start(t));
      rt.att.SetTrx(t, Running, lsn);
      this.rt, txnum := rt, t;
      new;
      StartReaches(s, rt.lm.durable, t);
      StartIsDone(s, rt.lm.durable, t);
    }

    /** The manager used for restart recovery writes no START and has a reserved transaction number. */
    constructor ForRecover(rt: Runtime)
      ensures this.rt == rt && txnum == RECOVERY_TXNUM
    {
      this.rt, txnum := rt, RECOVERY_TXNUM;
    }

    /** A logged set: log the old and the new value, then change the page and note the modification.
        Without an entry in the transaction table nothing happens. */
    method SetVal(b: BlockId, f: Field, v: Value) returns (lsn: Option<LSN>)
      requires rt.lm.Valid() && rt.mode.Up? && b in rt.bm.bufs && v.Kind() == f.kind
      requires txnum in rt.att.table ==> CanSet(rt.View(), txnum, b, f, v)
      modifies rt, rt.lm, rt.bm, rt.att, rt.dpt
      ensures rt.lm.Valid() && Reaches(old(rt.View()), rt.View())
      ensures txnum !in old(rt.att.table) ==> lsn.None? && rt.View() == old(rt.View())
      ensures txnum in old(rt.att.table) ==>
                && lsn == Some(|rt.lm.records|)
                && SetDone(old(rt.View()), rt.View(), txnum, b, f, v)
                && rt.View() == DoSet(old(rt.View()).(durable := rt.lm.durable), txnum, b, f, v)
    {
      ReachesSelf(rt.View());
      ghost var s := rt.View();
      var prev := rt.att.GetLastLSN(txnum);
      if prev.None? { return None; }
      var n := LogAndSet(prev.value, b, f, v);
      SetIsDone(s, rt.lm.durable, txnum, b, f, v);
      lsn := Some(n);
    }

    method LogAndSet(prev: LSN, b: BlockId, f: Field, v: Value) returns (n: LSN)
      requires rt.lm.Valid() && CanSet(rt.View(), txnum, b, f, v) && prev == rt.att.table[txnum].lastLSN
      modifies rt, rt.lm, rt.bm, rt.att, rt.dpt
      ensures rt.lm.Valid() && Reaches(old(rt.View()), rt.View()) && n == |rt.lm.records|
      ensures rt.View() == DoSet(old(rt.View()).(durable := rt.lm.durable), txnum, b, f, v)
    {
      ghost var s := rt.View();
      var was := rt.bm.bufs[b].page.Get(f);
      n := rt.lm.Append(Update(txnum, prev, b, f, was, v));
      rt.att.SetLastLSN(txnum, n);
      rt.bm.Apply(n, txnum, b, f, v, rt.dpt);
      rt.xlocks := rt.xlocks[b := txnum];
      SetReaches(s, rt.lm.durable, txnum, b, f, v);
    }

    /** Commit forces the COMMIT record before END is written and the transaction leaves the table. */
    method Commit() returns (lsn: Option<LSN>)
      requires rt.lm.Valid() && rt.mode.Up?
      requires txnum in rt.att.table ==> CanCommit(rt.View(), txnum)
      modifies rt, rt.lm, rt.att
      ensures rt.lm.Valid() && Reaches(old(rt.View()), rt.View())
      ensures txnum !in old(rt.att.table) ==> lsn.None? && rt.View() == old(rt.View())
      ensures txnum in old(rt.att.table) ==>
                && lsn == Some(|rt.lm.records|)
                && CommitDone(old(rt.View()), rt.View(), txnum)
                && rt.View() == Committing(old(rt.View()), txnum)
    {
      ghost var s := rt.View();
      ReachesSelf(s);
      var prev := rt.att.GetLastLSN(txnum);
      if prev.None? { return None; }
      var endLSN := CommitAndEnd(prev.value);
      CommitIsDone(s, txnum);
      lsn := Some(endLSN);
    }

    method CommitAndEnd(prev: LSN) returns (endLSN: LSN)
      requires rt.lm.Valid() && CanCommit(rt.View(), txnum) && prev == rt.att.table[txnum].lastLSN
      modifies rt, rt.lm, rt.att
      ensures rt.lm.Valid() && Reaches(old(rt.View()), rt.View()) && endLSN == |rt.lm.records|
      ensures rt.View() == Committing(old(rt.View()), txnum)
    {
      ghost var s := rt.View();
      var commitLSN := rt.lm.Append(LogModel.Commit(txnum, prev));
      ghost var d := rt.lm.durable;
      rt.lm.Flush(commitLSN);
      rt.att.SetTrx(txnum, Committed, commitLSN);
      endLSN := rt.lm.Append(End(txnum, commitLSN));
      rt.att.RemoveTrx(txnum);
      rt.xlocks := ReleaseLocks(rt.xlocks, txnum);
      CommitReaches(s, d, txnum);
      assert rt.View() == Committing(s, txnum);
    }

    /** Undo `t` from the record at `undoLSN` down to its START, newest first.  The log is forced after
        every compensation record, before the page changes.  None of the reads can fail. */
    method DoRollback(t: TxNum, undoLSN: LSN, prevLastLSN: LSN) returns (last: LSN)
      requires rt.Ok() && (rt.mode.Up? || rt.mode.Undoing?)
      requires t in rt.rollbacks && rt.rollbacks[t] == Cursor(undoLSN, prevLastLSN) && prevLastLSN <= rt.lm.durable
      modifies rt, rt.lm, rt.bm, rt.dpt
      ensures rt.Ok() && Reaches(old(rt.View()), rt.View())
      ensures OnlyCompensated(old(rt.lm.records), rt.lm.records, t, prevLastLSN)
      ensures last == (if |rt.lm.records| == |old(rt.lm.records)| then prevLastLSN else |rt.lm.records|)
      ensures last <= rt.lm.durable && old(rt.lm.durable) <= rt.lm.durable
      ensures t in rt.rollbacks && AtStart(rt.lm.records, rt.rollbacks[t].undoLSN)
      ensures rt.rollbacks == old(rt.rollbacks)[t := Cursor(rt.rollbacks[t].undoLSN, last)]
      ensures rt.mode == old(rt.mode) && rt.xlocks == old(rt.xlocks) && rt.recovered == old(rt.recovered)
      decreases undoLSN
    {
      ghost var s := rt.View();
      ReachesSelf(s);
      if undoLSN == NO_LSN { return prevLastLSN; }
      CursorReadable(s, t);
      var read := rt.lm.ReadRecordAt(undoLSN);
      var r := read.value;
      if r.Start? { return prevLastLSN; }
      var undoNext, lastLSN := UndoRecord(t, undoLSN, prevLastLSN, r);
      ghost var s1 := rt.View();
      last := DoRollback(t, undoNext, lastLSN);
      ReachesTrans(s, s1, rt.View());
      if r.Update? { OnlyCompensatedStep(s.log, Clr(r, prevLastLSN), rt.lm.records, t, prevLastLSN); }
    }

    /** Undo what one record did, and find where to go on: an update is compensated, a compensation record
        skips what it has undone already, anything else is passed over. */
    method UndoRecord(t: TxNum, undoLSN: LSN, prevLastLSN: LSN, r: Record) returns (undoNext: LSN, lastLSN: LSN)
      requires rt.Ok() && (rt.mode.Up? || rt.mode.Undoing?)
      requires t in rt.rollbacks && rt.rollbacks[t] == Cursor(undoLSN, prevLastLSN)
      requires 1 <= undoLSN <= prevLastLSN <= rt.lm.durable
      requires rt.lm.records[undoLSN - 1] == r && r.OfTx(t) && !r.Start?
      modifies rt, rt.lm, rt.bm, rt.dpt
      ensures rt.Ok() && Reaches(old(rt.View()), rt.View())
      ensures undoNext == UndoNext(r)
      ensures r.Update? ==> rt.lm.records == old(rt.lm.records) + [Clr(r, prevLastLSN)] && lastLSN == |rt.lm.records|
      ensures !r.Update? ==> rt.lm.records == old(rt.lm.records) && lastLSN == prevLastLSN
      ensures lastLSN <= rt.lm.durable && old(rt.lm.durable) <= rt.lm.durable
      ensures rt.rollbacks == old(rt.rollbacks)[t := Cursor(undoNext, lastLSN)]
      ensures rt.mode == old(rt.mode) && rt.xlocks == old(rt.xlocks) && rt.recovered == old(rt.recovered)
    {
      lastLSN := prevLastLSN;
      if r.Update? {
        lastLSN := UndoUpdate(t, undoLSN, prevLastLSN, r);
        undoNext := r.prevLSN;
      } else {
        undoNext := if r.Compensation? then r.undoNextLSN else r.prevLSN;
        PassOver(t, undoLSN, prevLastLSN, undoNext);
      }
    }

    /** Undo moves past a record that changed no page or is itself a compensation. */
    ghost method PassOver(t: TxNum, undoLSN: LSN, prevLastLSN: LSN, undoNext: LSN)
      requires rt.Ok() && (rt.mode.Up? || rt.mode.Undoing?)
      requires t in rt.rollbacks && rt.rollbacks[t] == Cursor(undoLSN, prevLastLSN)
      requires 1 <= undoLSN <= prevLastLSN <= rt.lm.durable
      requires var r := rt.lm.records[undoLSN - 1]; r.OfTx(t) && !r.Start? && !r.Update? && undoNext == UndoNext(r)
      modifies rt
      ensures rt.Ok() && Reaches(old(rt.View()), rt.View())
      ensures rt.View() == old(rt.View()).(rollbacks := old(rt.rollbacks)[t := Cursor(undoNext, prevLastLSN)])
    {
      ghost var s := rt.View();
      rt.rollbacks := rt.rollbacks[t := Cursor(undoNext, prevLastLSN)];
      SkipReaches(s, t);
      ReachesTrans(FRESH, s, rt.View());
    }

    /** Write the compensation record of an update, force it, then restore the old value in the page. */
    method UndoUpdate(t: TxNum, undoLSN: LSN, prevLastLSN: LSN, r: Record) returns (clrLSN: LSN)
      requires rt.Ok() && (rt.mode.Up? || rt.mode.Undoing?)
      requires t in rt.rollbacks && rt.rollbacks[t] == Cursor(undoLSN, prevLastLSN)
      requires undoLSN <= prevLastLSN && AtUpdate(rt.View(), t, r)
      modifies rt, rt.lm, rt.bm, rt.dpt
      ensures rt.Ok() && Reaches(old(rt.View()), rt.View())
      ensures rt.lm.records == old(rt.lm.records) + [Clr(r, prevLastLSN)]
      ensures clrLSN == |rt.lm.records| == rt.lm.durable
      ensures Rewritten(old(rt.View()), rt.View(), r.blk, r.fld, r.oldVal, clrLSN)
      ensures rt.rollbacks == old(rt.rollbacks)[t := Cursor(r.prevLSN, clrLSN)]
      ensures rt.mode == old(rt.mode) && rt.xlocks == old(rt.xlocks) && rt.recovered == old(rt.recovered)
    {
      ghost var s := rt.View();
      PageLsnInLog(s);
      ghost var victim, stale;
      clrLSN, victim, stale := WriteAndUndo(t, prevLastLSN, r);
      UndoneReaches(s, t, r, victim, stale);
      UndoneIsRewritten(s, t, r, victim, stale);
      ReachesTrans(FRESH, s, rt.View());
    }

    method WriteAndUndo(t: TxNum, prevLastLSN: LSN, r: Record)
      returns (clrLSN: LSN, ghost victim: Option<BlockId>, ghost stale: LSN)
      requires rt.lm.Valid() && PagesInLog(rt.bm.bufs, rt.lm.records)
      requires r.Update? && t in rt.rollbacks && rt.rollbacks[t].lastLSN == prevLastLSN
      modifies rt, rt.lm, rt.bm, rt.dpt
      ensures rt.lm.Valid() && CanPin(old(rt.bm.bufs), r.blk, victim)
      ensures clrLSN == |old(rt.lm.records)| + 1
      ensures rt.View() == Undone(old(rt.View()), t, r, victim, stale)
    {
      clrLSN := rt.lm.Append(Clr(r, prevLastLSN));
      rt.lm.Flush(clrLSN);
      victim, stale := rt.bm.Pin(r.blk, rt.lm, rt.dpt);
      rt.bm.Apply(clrLSN, t, r.blk, r.fld, r.oldVal, rt.dpt);
      rt.rollbacks := rt.rollbacks[t := Cursor(r.prevLSN, clrLSN)];
    }

    /** ABORT is on disk before anything is undone. */
    method BeginAbort(prev: LSN) returns (abortLSN: LSN)
      requires rt.Ok() && CanCommit(rt.View(), txnum) && prev == rt.att.table[txnum].lastLSN
      modifies rt, rt.lm
      ensures rt.lm.Valid() && Reaches(old(rt.View()), rt.View()) && rt.Ok()
      ensures abortLSN == |rt.lm.records|
      ensures rt.View() == DoAbort(old(rt.View()), txnum).(durable := |rt.lm.records|)
    {
      ghost var s := rt.View();
      abortLSN := rt.lm.Append(Abort(txnum, prev));
      ghost var d := rt.lm.durable;
      rt.lm.Flush(abortLSN);
      rt.rollbacks := rt.rollbacks[txnum := Cursor(prev, abortLSN)];
      AbortReaches(s, d, txnum);
      ReachesTrans(FRESH, s, rt.View());
    }

    method EndAbort(clrLastLSN: LSN) returns (endLSN: LSN)
      requires rt.lm.Valid() && CanEndRollback(rt.View(), txnum) && rt.rollbacks[txnum].lastLSN == clrLastLSN
      modifies rt, rt.lm, rt.att
      ensures rt.lm.Valid() && Reaches(old(rt.View()), rt.View())
      ensures rt.View() == DoEndRollback(old(rt.View()).(durable := rt.lm.durable), txnum)
      ensures endLSN == |rt.lm.records|
    {
      ghost var s := rt.View();
      rt.att.SetTrx(txnum, Aborting, clrLastLSN);
      endLSN := rt.lm.Append(End(txnum, clrLastLSN));
      rt.att.RemoveTrx(txnum);
      rt.rollbacks := rt.rollbacks - {txnum};
      rt.xlocks := ReleaseLocks(rt.xlocks, txnum);
      assert rt.att.table == s.att - {txnum};
      EndRollbackReaches(s, rt.lm.durable, txnum);
    }

    /** Rollback: ABORT, forced, then undo from the transaction's last record, then END. */
    method Rollback() returns (lsn: Option<LSN>)
      requires rt.Ok() && rt.mode.Up?
      requires txnum in rt.att.table ==> CanCommit(rt.View(), txnum)
      modifies rt, rt.lm, rt.bm, rt.att, rt.dpt
      ensures rt.lm.Valid() && Reaches(old(rt.View()), rt.View())
      ensures txnum !in old(rt.att.table) ==> lsn.None? && rt.View() == old(rt.View())
      ensures txnum in old(rt.att.table) ==>
                && lsn == Some(|rt.lm.records|)
                && RollbackLog(old(rt.lm.records), rt.lm.records, txnum, old(rt.att.table)[txnum].lastLSN)
                && rt.att.table == old(rt.att.table) - {txnum}
                && rt.xlocks == ReleaseLocks(old(rt.xlocks), txnum)
                && Restores(old(rt.View()), rt.View(), txnum)
    {
      ghost var s := rt.View();
      ReachesSelf(s);
      var prev := rt.att.GetLastLSN(txnum);
      if prev.None? { return None; }
      var abortLSN := BeginAbort(prev.value);
      ghost var s1 := rt.View();
      var clrLastLSN := DoRollback(txnum, prev.value, abortLSN);
      ghost var s2 := rt.View();
      var endLSN := EndAbort(clrLastLSN);
      ReachesTrans(s, s1, s2);
      ReachesTrans(s, s2, rt.View());
      RollbackLogIs(s.log, s2.log, txnum, prev.value, clrLastLSN);
      RollbackFacts(s, rt.View(), txnum);
      lsn := Some(endLSN);
    }

    /** A checkpoint records both tables, forces the log, and only then names itself in the log header.
        It is a run of the store when no rollback is going on and the dirty page table covers every
        dirty buffer. */
    method Checkpoint() returns (endLSN: LSN)
      requires rt.lm.Valid() && rt.mode.Up?
      modifies rt.lm
      ensures rt.lm.Valid() && endLSN == |rt.lm.records|
      ensures CheckpointDone(old(rt.View()), rt.View()) && rt.View() == Checkpointed(old(rt.View()))
      ensures rt.rollbacks == map[] && DptCovers(old(rt.View())) ==> Reaches(old(rt.View()), rt.View())
    {
      ghost var s := rt.View();
      var beginLSN := rt.lm.Append(CheckpointBegin);
      ghost var d := rt.lm.durable;
      endLSN := rt.lm.Append(CheckpointEnd(beginLSN, rt.att.table, rt.dpt.table));
      ghost var d2 := rt.lm.durable;
      rt.lm.Flush(endLSN);
      rt.lm.WriteLastCheckpointLSN(beginLSN);
      CheckpointIsDone(s);
      if rt.rollbacks == map[] && DptCovers(s) { CheckpointReaches(s, d, d2); }
    }
  }
}

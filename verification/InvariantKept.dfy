/** The invariant holds of a fresh store and is kept by every action of normal operation. */
module InvariantKept {
  import opened Storage
  import opened LogModel
  import opened LogLemmas
  import opened ReplayLemmas
  import opened Analysis
  import opened UndoLemmas
  import opened Machine
  import opened Invariant
  import opened InvariantSteps

  lemma FreshOk()
    ensures Inv(FRESH)
  {
  }

  // ---------------------------------------------------------------- records that change no page

  /** Everything except the transaction tables survives a record that changes no page. */
  lemma UpQuiet(s: State, r: Record)
    requires Base(s) && PagesOk(s.log, s.disk, s.bufs) && LocksOk(s.log, s.xlocks)
    requires DptOk(s.log, s.bufs, s.dpt, s.recovered)
    requires WfLog(s.log + [r]) && EndAllowed(s.log, s.durable, r)
    requires !r.Dirties() && !r.CheckpointEnd?
    ensures Base(Append(s, r))
    ensures PagesOk(s.log + [r], s.disk, s.bufs)
    ensures LocksOk(s.log + [r], s.xlocks)
    ensures DptOk(s.log + [r], s.bufs, s.dpt, s.recovered)
  {
    WfAllTxOk(s.log);
    BaseAppend(s, r);
    PagesQuiet(s.log, r, s.disk, s.bufs);
    LocksSnoc(s.log, r, s.xlocks);
  }

  lemma TransactionsStart(log: Log, att: Att, rollbacks: map<TxNum, Cursor>, t: TxNum)
    requires AllTxOk(log) && TransactionsOk(log, att, rollbacks) && t !in att && t >= 0
    ensures WfLog(log) ==> WfLog(log + [Start(t)])
    ensures TransactionsOk(log + [Start(t)], att[t := AttEntry(Running, |log| + 1)], rollbacks)
  {
    RollbacksSnoc(log, Start(t), rollbacks);
    Snoc(log, Start(t));
  }

  lemma KeepStart(s: State, t: TxNum)
    requires Inv(s) && CanStart(s, t)
    ensures Inv(DoStart(s, t))
  {
    WfAllTxOk(s.log);
    TransactionsStart(s.log, s.att, s.rollbacks, t);
    UpQuiet(s, Start(t));
  }

  /** A running transaction may commit or abort. */
  lemma RunningMayFinish(log: Log, att: Att, rollbacks: map<TxNum, Cursor>, t: TxNum)
    requires WfLog(log) && AttOk(log, att, rollbacks)
    requires t in att && t !in rollbacks && att[t].status == Running
    ensures WfLog(log + [Commit(t, att[t].lastLSN)]) && WfLog(log + [Abort(t, att[t].lastLSN)])
  {
    Snoc(log, Commit(t, att[t].lastLSN));
    Snoc(log, Abort(t, att[t].lastLSN));
  }

  lemma TransactionsCommit(log: Log, att: Att, rollbacks: map<TxNum, Cursor>, t: TxNum)
    requires TransactionsOk(log, att, rollbacks) && t in att && t !in rollbacks
    ensures TransactionsOk(log + [Commit(t, att[t].lastLSN)], att[t := AttEntry(Committed, |log| + 1)], rollbacks)
  {
    var r := Commit(t, att[t].lastLSN);
    RollbacksSnoc(log, r, rollbacks);
    Snoc(log, r);
  }

  lemma KeepCommit(s: State, t: TxNum)
    requires Inv(s) && CanCommit(s, t)
    ensures Inv(DoCommit(s, t))
  {
    RunningMayFinish(s.log, s.att, s.rollbacks, t);
    TransactionsCommit(s.log, s.att, s.rollbacks, t);
    UpQuiet(s, Commit(t, s.att[t].lastLSN));
  }

  /** The tables after END of a transaction, and the locks it can give up. */
  lemma TransactionsEnd(log: Log, r: Record, att: Att, rollbacks: map<TxNum, Cursor>)
    requires r.End? && TransactionsOk(log, att, rollbacks)
    ensures TransactionsOk(log + [r], att - {r.txnum}, rollbacks - {r.txnum})
    ensures r.txnum !in Views(log + [r])
  {
    RollbacksSnoc(log, r, rollbacks - {r.txnum});
    Snoc(log, r);
  }

  lemma CommitEndIsLegal(log: Log, durable: nat, att: Att, rollbacks: map<TxNum, Cursor>, t: TxNum)
    requires AllTxOk(log) && AttOk(log, att, rollbacks)
    requires t in att && t !in rollbacks && att[t].status == Committed
    ensures WfLog(log) ==> WfLog(log + [End(t, att[t].lastLSN)])
    ensures att[t].lastLSN <= durable ==> EndAllowed(log, durable, End(t, att[t].lastLSN))
    ensures 1 <= att[t].lastLSN <= |log|
  {
    TxFacts(log, t);
    Snoc(log, End(t, att[t].lastLSN));
  }

  lemma KeepEndCommit(s: State, t: TxNum)
    requires Inv(s) && CanEndCommit(s, t)
    ensures Inv(DoEndCommit(s, t))
  {
    var r := End(t, s.att[t].lastLSN);
    WfAllTxOk(s.log);
    CommitEndIsLegal(s.log, s.durable, s.att, s.rollbacks, t);
    UpQuiet(s, r);
    TransactionsEnd(s.log, r, s.att, s.rollbacks);
    LocksRelease(s.log + [r], s.xlocks, t);
    assert s.rollbacks - {t} == s.rollbacks;
  }

  /** A rollback's cursor after its transaction wrote a record or moved on. */
  lemma RollbacksMove(log: Log, rollbacks: map<TxNum, Cursor>, t: TxNum, c: Cursor)
    requires RollbacksOk(log, rollbacks - {t})
    requires t in Views(log) && Views(log)[t].status == Aborting && Views(log)[t].last == c.lastLSN
    requires CursorOk(log, t, c.undoLSN)
    ensures RollbacksOk(log, rollbacks[t := c])
  {
  }

  /** A running transaction's undo starts at its last record. */
  lemma AbortedCursor(log: Log, att: Att, rollbacks: map<TxNum, Cursor>, t: TxNum)
    requires AllTxOk(log) && AttOk(log, att, rollbacks)
    requires t in att && t !in rollbacks && att[t].status == Running
    ensures CursorOk(log + [Abort(t, att[t].lastLSN)], t, att[t].lastLSN)
  {
    TxFacts(log, t);
    Snoc(log, Abort(t, att[t].lastLSN));
  }

  lemma TransactionsAbort(log: Log, att: Att, rollbacks: map<TxNum, Cursor>, t: TxNum)
    requires AllTxOk(log) && TransactionsOk(log, att, rollbacks)
    requires t in att && t !in rollbacks && att[t].status == Running
    ensures TransactionsOk(log + [Abort(t, att[t].lastLSN)], att, rollbacks[t := Cursor(att[t].lastLSN, |log| + 1)])
  {
    var r := Abort(t, att[t].lastLSN);
    RollbacksSnoc(log, r, rollbacks - {t});
    AbortedCursor(log, att, rollbacks, t);
    Snoc(log, r);
    RollbacksMove(log + [r], rollbacks, t, Cursor(att[t].lastLSN, |log| + 1));
  }

  lemma KeepAbort(s: State, t: TxNum)
    requires Inv(s) && CanCommit(s, t)
    ensures Inv(DoAbort(s, t))
  {
    WfAllTxOk(s.log);
    RunningMayFinish(s.log, s.att, s.rollbacks, t);
    TransactionsAbort(s.log, s.att, s.rollbacks, t);
    UpQuiet(s, Abort(t, s.att[t].lastLSN));
  }

  lemma TransactionsCheckpoint(log: Log, r: Record, att: Att, rollbacks: map<TxNum, Cursor>)
    requires TransactionsOk(log, att, rollbacks)
    requires r.CheckpointBegin? || r.CheckpointEnd?
    ensures TransactionsOk(log + [r], att, rollbacks)
  {
    RollbacksSnoc(log, r, rollbacks);
    Snoc(log, r);
  }

  lemma KeepCheckpointBegin(s: State)
    requires Inv(s) && s.mode.Up?
    ensures Inv(Append(s, CheckpointBegin))
  {
    WfAllTxOk(s.log);
    Snoc(s.log, CheckpointBegin);
    UpQuiet(s, CheckpointBegin);
    TransactionsCheckpoint(s.log, CheckpointBegin, s.att, s.rollbacks);
  }

  // ---------------------------------------------------------------- checkpoints

  /** A change missing on disk belongs to a dirty buffer and is not older than its recLSN. */
  lemma MissingIsBuffered(log: Log, disk: Disk, bufs: Buffers, i: nat)
    requires PagesOk(log, disk, bufs) && Missing(log, disk, i)
    ensures log[i].blk in bufs && Dirty(bufs[log[i].blk]) && bufs[log[i].blk].recLSN <= i + 1
  {
    var b := log[i].blk;
    assert log[..|log|] == log;
    LsnCoversRecord(log, i, |log|, b);
    assert Read(disk, bufs, b) == Replay(log, b);
    var fr := bufs[b];
    assert FrameOk(log, disk, fr, b);
    if i < fr.recLSN - 1 { LsnCoversRecord(log, i, fr.recLSN - 1, b); }
  }

  lemma AttIsAttOf(log: Log, att: Att)
    requires AttOk(log, att, map[])
    ensures att == AttOf(Views(log))
  {
    forall t | t in att ensures att[t] == AttOf(Views(log))[t] {
    }
  }

  lemma CheckpointEndIsLegal(s: State)
    requires Inv(s) && CanCheckpointEnd(s)
    ensures Base(DoCheckpointEnd(s))
  {
    var r := CheckpointEnd(|s.log|, s.att, s.dpt);
    AttIsAttOf(s.log, s.att);
    forall i | 0 <= i < |s.log| && Missing(s.log, s.disk, i)
      ensures s.log[i].blk in r.dpt && r.dpt[s.log[i].blk] <= i + 1
    {
      MissingIsBuffered(s.log, s.disk, s.bufs, i);
    }
    Snoc(s.log, r);
    BaseAppend(s, r);
  }

  lemma KeepCheckpointEnd(s: State)
    requires Inv(s) && CanCheckpointEnd(s)
    ensures Inv(DoCheckpointEnd(s))
  {
    var r := CheckpointEnd(|s.log|, s.att, s.dpt);
    WfAllTxOk(s.log);
    CheckpointEndIsLegal(s);
    PagesQuiet(s.log, r, s.disk, s.bufs);
    TransactionsCheckpoint(s.log, r, s.att, s.rollbacks);
    LocksSnoc(s.log, r, s.xlocks);
  }

  // ---------------------------------------------------------------- logged sets

  function SetRecord(s: State, t: TxNum, b: BlockId, f: Field, v: Value): Record
    requires t in s.att && b in s.bufs
  {
    Update(t, s.att[t].lastLSN, b, f, s.bufs[b].page.Get(f), v)
  }

  lemma SetIsLegal(s: State, t: TxNum, b: BlockId, f: Field, v: Value)
    requires Inv(s) && CanSet(s, t, b, f, v)
    ensures WfLog(s.log + [SetRecord(s, t, b, f, v)]) && t >= 0
  {
    assert Read(s.disk, s.bufs, b) == Replay(s.log, b);
    WfAllTxOk(s.log);
    TxFacts(s.log, t);
    var vs := Views(s.log);
    forall u, p | u in vs && u != t && p in vs[u].pending && 1 <= p <= |s.log| ensures !s.log[p - 1].Writes(b) {
      if s.log[p - 1].Dirties() { assert s.log[p - 1].blk in s.xlocks && s.xlocks[s.log[p - 1].blk] == u; }
    }
    Snoc(s.log, SetRecord(s, t, b, f, v));
  }

  lemma TransactionsUpdate(log: Log, r: Record, att: Att, rollbacks: map<TxNum, Cursor>)
    requires r.Update? && TransactionsOk(log, att, rollbacks)
    requires r.txnum in att && r.txnum !in rollbacks
    ensures TransactionsOk(log + [r], att[r.txnum := att[r.txnum].(lastLSN := |log| + 1)], rollbacks)
  {
    RollbacksSnoc(log, r, rollbacks);
    Snoc(log, r);
  }

  lemma SetBase(s: State, t: TxNum, b: BlockId, f: Field, v: Value)
    requires Inv(s) && CanSet(s, t, b, f, v)
    ensures Base(Append(s, SetRecord(s, t, b, f, v)))
  {
    SetIsLegal(s, t, b, f, v);
    BaseAppend(s, SetRecord(s, t, b, f, v));
  }

  lemma SetPages(s: State, t: TxNum, b: BlockId, f: Field, v: Value)
    requires Inv(s) && CanSet(s, t, b, f, v) && t >= 0
    ensures var s' := DoSet(s, t, b, f, v); PagesOk(s'.log, s'.disk, s'.bufs)
  {
    PagesTouched(s.log, SetRecord(s, t, b, f, v), s.disk, s.bufs, t);
  }

  lemma SetTransactions(s: State, t: TxNum, b: BlockId, f: Field, v: Value)
    requires Inv(s) && CanSet(s, t, b, f, v)
    ensures var s' := DoSet(s, t, b, f, v); TransactionsOk(s'.log, s'.att, s'.rollbacks)
  {
    TransactionsUpdate(s.log, SetRecord(s, t, b, f, v), s.att, s.rollbacks);
  }

  lemma SetDpt(s: State, t: TxNum, b: BlockId, f: Field, v: Value)
    requires Inv(s) && CanSet(s, t, b, f, v) && t >= 0
    ensures var s' := DoSet(s, t, b, f, v); DptOk(s'.log, s'.bufs, s'.dpt, s'.recovered)
  {
    DptTouched(s.log, SetRecord(s, t, b, f, v), s.disk, s.bufs, s.dpt, s.recovered, t);
  }

  lemma SetLocks(s: State, t: TxNum, b: BlockId, f: Field, v: Value)
    requires Inv(s) && CanSet(s, t, b, f, v)
    ensures var s' := DoSet(s, t, b, f, v); LocksOk(s'.log, s'.xlocks)
  {
    WfAllTxOk(s.log);
    LocksSet(s.log, SetRecord(s, t, b, f, v), s.xlocks);
  }

  lemma KeepSet(s: State, t: TxNum, b: BlockId, f: Field, v: Value)
    requires Inv(s) && CanSet(s, t, b, f, v)
    ensures Inv(DoSet(s, t, b, f, v))
  {
    SetIsLegal(s, t, b, f, v);
    SetBase(s, t, b, f, v);
    SetPages(s, t, b, f, v);
    SetTransactions(s, t, b, f, v);
    SetDpt(s, t, b, f, v);
    SetLocks(s, t, b, f, v);
  }

  // ---------------------------------------------------------------- rolling back

  /** The compensation record undo writes is a legal continuation of the log, and the cursor moves on
      to the next outstanding update. */
  lemma CompensationIsLegal(s: State, t: TxNum)
    requires WfLog(s.log) && RollbacksOk(s.log, s.rollbacks) && CanCompensate(s, t)
    ensures var log' := s.log + [ClrFor(s, t)];
            && WfLog(log') && t >= 0
            && t in Views(log') && Views(log')[t].last == |s.log| + 1 && Views(log')[t].status == Aborting
            && CursorOk(log', t, ClrFor(s, t).undoNextLSN)
  {
    WfAllTxOk(s.log);
    TxFacts(s.log, t);
    CursorFacts(s.log, t, s.rollbacks[t].undoLSN);
    var x := Views(s.log)[t];
    assert PendingOk(s.log, t, x, |x.pending| - 1);
    Snoc(s.log, ClrFor(s, t));
  }

  lemma TransactionsCompensate(log: Log, r: Record, att: Att, rollbacks: map<TxNum, Cursor>, c: Cursor)
    requires r.Compensation? && TransactionsOk(log, att, rollbacks)
    requires r.txnum in rollbacks && c == Cursor(r.undoNextLSN, |log| + 1)
    requires r.txnum in Views(log + [r]) && Views(log + [r])[r.txnum].status == Aborting && Views(log + [r])[r.txnum].last == |log| + 1
    requires CursorOk(log + [r], r.txnum, r.undoNextLSN)
    ensures TransactionsOk(log + [r], att, rollbacks[r.txnum := c])
  {
    RollbacksSnoc(log, r, rollbacks - {r.txnum});
    Snoc(log, r);
    RollbacksMove(log + [r], rollbacks, r.txnum, c);
  }

  lemma CompensateBase(s: State, t: TxNum)
    requires Inv(s) && CanCompensate(s, t)
    ensures Base(Append(s, ClrFor(s, t)))
  {
    CompensationIsLegal(s, t);
    BaseAppend(s, ClrFor(s, t));
  }

  lemma CompensatePages(s: State, t: TxNum)
    requires PagesOk(s.log, s.disk, s.bufs) && CanCompensate(s, t) && t >= 0
    ensures var s' := DoCompensate(s, t); PagesOk(s'.log, s'.disk, s'.bufs)
  {
    CompensateTouches(s, t);
    PagesTouched(s.log, ClrFor(s, t), s.disk, s.bufs, t);
  }

  /** A compensation step appends its record and applies it to the buffer, which is there. */
  lemma CompensateTouches(s: State, t: TxNum)
    requires CanCompensate(s, t)
    ensures var s' := DoCompensate(s, t); var r := ClrFor(s, t);
            && r.Compensation? && r.txnum == t && r.blk in s.bufs
            && s'.log == s.log + [r] && s'.disk == s.disk
            && s'.bufs == Touch(s.bufs, r.blk, r.fld, r.newVal, |s.log| + 1, t)
  {
  }

  lemma CompensateTransactions(s: State, t: TxNum, att: Att)
    requires WfLog(s.log) && CanCompensate(s, t) && TransactionsOk(s.log, att, s.rollbacks)
    ensures var s' := DoCompensate(s, t); TransactionsOk(s'.log, att, s'.rollbacks)
  {
    CompensationIsLegal(s, t);
    TransactionsCompensate(s.log, ClrFor(s, t), att, s.rollbacks, Cursor(ClrFor(s, t).undoNextLSN, |s.log| + 1));
  }

  lemma CompensateUp(s: State, t: TxNum)
    requires WfLog(s.log) && PagesOk(s.log, s.disk, s.bufs) && CanCompensate(s, t) && t >= 0
    requires LocksOk(s.log, s.xlocks) && DptOk(s.log, s.bufs, s.dpt, s.recovered)
    ensures var s' := DoCompensate(s, t);
            LocksOk(s'.log, s'.xlocks) && DptOk(s'.log, s'.bufs, s'.dpt, s'.recovered)
  {
    WfAllTxOk(s.log);
    LocksSnoc(s.log, ClrFor(s, t), s.xlocks);
    DptTouched(s.log, ClrFor(s, t), s.disk, s.bufs, s.dpt, s.recovered, t);
  }

  lemma KeepCompensateUp(s: State, t: TxNum)
    requires Inv(s) && CanCompensate(s, t) && s.mode.Up? && t >= 0 && Base(Append(s, ClrFor(s, t)))
    ensures Inv(DoCompensate(s, t))
  {
    CompensatePages(s, t);
    CompensateTransactions(s, t, s.att);
    CompensateUp(s, t);
  }

  lemma KeepCompensateUndoing(s: State, t: TxNum)
    requires Inv(s) && CanCompensate(s, t) && s.mode.Undoing? && t >= 0 && Base(Append(s, ClrFor(s, t)))
    ensures Inv(DoCompensate(s, t))
  {
    CompensatePages(s, t);
    CompensateTransactions(s, t, s.mode.tables.att);
  }

  /** Compensating the update under the cursor. */
  lemma KeepCompensate(s: State, t: TxNum)
    requires Inv(s) && CanCompensate(s, t)
    ensures Inv(DoCompensate(s, t))
  {
    CompensationIsLegal(s, t);
    CompensateBase(s, t);
    if s.mode.Up? { KeepCompensateUp(s, t); } else { KeepCompensateUndoing(s, t); }
  }

  lemma SkipCursor(s: State, t: TxNum)
    requires WfLog(s.log) && RollbacksOk(s.log, s.rollbacks) && CanRollbackStep(s, t) && !CanCompensate(s, t)
    ensures RollbacksOk(s.log, DoSkip(s, t).rollbacks)
  {
    var c := s.rollbacks[t];
    WfAllTxOk(s.log);
    CursorFacts(s.log, t, c.undoLSN);
    RollbacksMove(s.log, s.rollbacks, t, c.(undoLSN := UndoNext(s.log[c.undoLSN - 1])));
  }

  /** Moving the cursor over a record that needs no compensation. */
  lemma KeepSkip(s: State, t: TxNum)
    requires Inv(s) && CanRollbackStep(s, t) && !CanCompensate(s, t)
    ensures Inv(DoSkip(s, t))
  {
    SkipCursor(s, t);
  }

  lemma KeepRollbackStep(s: State, t: TxNum)
    requires Inv(s) && CanRollbackStep(s, t)
    ensures Inv(DoRollbackStep(s, t))
  {
    if CanCompensate(s, t) { KeepCompensate(s, t); } else { KeepSkip(s, t); }
  }

  /** The END that closes a rollback is legal. */
  lemma RollbackEndIsLegal(log: Log, durable: nat, rollbacks: map<TxNum, Cursor>, t: TxNum)
    requires WfLog(log) && RollbacksOk(log, rollbacks) && t in rollbacks && AtStart(log, rollbacks[t].undoLSN)
    ensures WfLog(log + [End(t, rollbacks[t].lastLSN)])
    ensures EndAllowed(log, durable, End(t, rollbacks[t].lastLSN))
  {
    WfAllTxOk(log);
    TxFacts(log, t);
    CursorFacts(log, t, rollbacks[t].undoLSN);
    Snoc(log, End(t, rollbacks[t].lastLSN));
  }

  lemma KeepEndRollback(s: State, t: TxNum)
    requires Inv(s) && CanEndRollback(s, t)
    ensures Inv(DoEndRollback(s, t))
  {
    var r := End(t, s.rollbacks[t].lastLSN);
    RollbackEndIsLegal(s.log, s.durable, s.rollbacks, t);
    WfAllTxOk(s.log);
    UpQuiet(s, r);
    TransactionsEnd(s.log, r, s.att, s.rollbacks);
    LocksRelease(s.log + [r], s.xlocks, t);
  }
}

/** The runs of the store that single calls of the recovery manager take. */
module RunPieces {
  import opened Storage
  import opened LogModel
  import opened LogLemmas
  import opened UndoLemmas
  import opened Machine
  import opened Invariant
  import opened Runs
  import opened RecoveryObjects
  import opened RollbackLemmas

  // ---------------------------------------------------------------- pieces of runs

  /** A full log block may be written out before an append. */
  lemma SpillReaches(s: State, d: nat)
    requires !s.mode.Down? && (d == s.durable || d == |s.log|)
    ensures Reaches(s, s.(durable := d))
  {
    if d == |s.log| { ReachesStep(s, AFlushLog); } else { ReachesSelf(s); }
  }

  /** An action that appends one record, with the log before it possibly written out. */
  lemma AppendReaches(s: State, d: nat, a: Action)
    requires !s.mode.Down? && (d == s.durable || d == |s.log|)
    requires Enabled(s.(durable := d), a)
    ensures Reaches(s, Do(s.(durable := d), a))
  {
    SpillReaches(s, d);
    ReachesThen(s, s.(durable := d), a);
  }

  /** The same, followed by a flush of the log. */
  lemma ForcedReaches(s: State, d: nat, a: Action)
    requires !s.mode.Down? && (d == s.durable || d == |s.log|)
    requires Enabled(s.(durable := d), a) && !Do(s.(durable := d), a).mode.Down?
    ensures var s' := Do(s.(durable := d), a); Reaches(s, s'.(durable := |s'.log|))
  {
    AppendReaches(s, d, a);
    ReachesThen(s, Do(s.(durable := d), a), AFlushLog);
  }

  /** The store after a pin of `b` that took the buffer of `v`. */
  function Pinned(s: State, b: BlockId, v: Option<BlockId>, stale: LSN): State
    requires CanPin(s.bufs, b, v)
  {
    s.(disk := PinDisk(s.disk, s.bufs, b, v),
       bufs := PinBufs(s.disk, s.bufs, b, v, stale),
       dpt := PinDpt(s.bufs, s.dpt, b, v))
  }

  lemma PinSteadily(s: State, b: BlockId, v: Option<BlockId>, stale: LSN)
    requires !s.mode.Down? && CanPin(s.bufs, b, v)
    requires v.Some? && Dirty(s.bufs[v.value]) ==> s.bufs[v.value].pageLSN <= s.durable
    ensures Steadily(s, Pinned(s, b, v, stale))
  {
    SteadilySelf(s);
    if b !in s.bufs {
      var s1 := s;
      if v.Some? {
        if Dirty(s.bufs[v.value]) {
          s1 := DoFlushPage(s, v.value);
          SteadilyThen(s, s, AFlushPage(v.value));
        }
        SteadilyThen(s, s1, ADrop(v.value));
        s1 := s1.(bufs := s1.bufs - {v.value});
        assert s1.bufs == s.bufs - {v.value};
      }
      SteadilyThen(s, s1, ALoad(b, stale));
      assert DoLoad(s1, b, stale) == Pinned(s, b, v, stale);
    }
  }

  lemma PinReaches(s: State, b: BlockId, v: Option<BlockId>, stale: LSN)
    requires !s.mode.Down? && CanPin(s.bufs, b, v)
    requires v.Some? && Dirty(s.bufs[v.value]) ==> s.bufs[v.value].pageLSN <= s.durable
    ensures Reaches(s, Pinned(s, b, v, stale))
  {
    PinSteadily(s, b, v, stale);
    SteadilyReaches(s, Pinned(s, b, v, stale));
  }

  /** No dirty buffer is newer than the log. */
  ghost predicate PagesInLog(bufs: Buffers, log: Log) {
    forall c | c in bufs && Dirty(bufs[c]) :: bufs[c].pageLSN <= |log|
  }

  lemma PageLsnInLog(s: State)
    requires Reaches(FRESH, s) && !s.mode.Down?
    ensures PagesInLog(s.bufs, s.log)
  {
    ReachedInv(s);
    forall c | c in s.bufs && Dirty(s.bufs[c]) ensures s.bufs[c].pageLSN <= |s.log| {
      assert FrameOk(s.log, s.disk, s.bufs[c], c);
    }
  }

  lemma StartReaches(s: State, d: nat, t: TxNum)
    requires (d == s.durable || d == |s.log|) && CanStart(s, t)
    ensures Reaches(s, DoStart(s.(durable := d), t))
  {
    AppendReaches(s, d, AStart(t));
  }

  lemma SetReaches(s: State, d: nat, t: TxNum, b: BlockId, f: Field, v: Value)
    requires (d == s.durable || d == |s.log|) && CanSet(s, t, b, f, v)
    ensures Reaches(s, DoSet(s.(durable := d), t, b, f, v))
  {
    AppendReaches(s, d, ASet(t, b, f, v));
  }

  /** COMMIT, its force, and END. */
  function Committing(s: State, t: TxNum): State
    requires CanCommit(s, t)
  {
    DoEndCommit(DoCommit(s, t).(durable := |s.log| + 1), t)
  }

  lemma CommitReaches(s: State, d: nat, t: TxNum)
    requires (d == s.durable || d == |s.log|) && CanCommit(s, t)
    ensures Reaches(s, Committing(s, t))
  {
    ForcedReaches(s, d, ACommit(t));
    ReachesThen(s, DoCommit(s, t).(durable := |s.log| + 1), AEndCommit(t));
  }

  lemma AbortReaches(s: State, d: nat, t: TxNum)
    requires (d == s.durable || d == |s.log|) && CanCommit(s, t)
    ensures Reaches(s, DoAbort(s, t).(durable := |s.log| + 1))
  {
    ForcedReaches(s, d, AAbort(t));
  }

  lemma EndRollbackReaches(s: State, d: nat, t: TxNum)
    requires (d == s.durable || d == |s.log|) && CanEndRollback(s, t)
    ensures Reaches(s, DoEndRollback(s.(durable := d), t))
  {
    AppendReaches(s, d, AEndRollback(t));
  }

  // ---------------------------------------------------------------- pieces of an undo

  /** The record under a rollback's cursor exists, belongs to the transaction, and leads further down. */
  lemma CursorReadable(s: State, t: TxNum)
    requires Reaches(FRESH, s) && t in s.rollbacks && (s.mode.Up? || s.mode.Undoing?)
    ensures var undo := s.rollbacks[t].undoLSN;
            && 1 <= undo <= s.rollbacks[t].lastLSN <= |s.log| && s.log[undo - 1].OfTx(t)
            && (s.log[undo - 1].Start? || UndoNext(s.log[undo - 1]) < undo)
  {
    ReachedInv(s);
    WfAllTxOk(s.log);
    CursorFacts(s.log, t, s.rollbacks[t].undoLSN);
  }

  /** Undo of `t` stands at update `r`, all it needs from the log being on disk. */
  predicate AtUpdate(s: State, t: TxNum, r: Record) {
    && (s.mode.Up? || s.mode.Undoing?) && t in s.rollbacks && s.durable <= |s.log|
    && s.rollbacks[t].lastLSN <= s.durable && 1 <= s.rollbacks[t].undoLSN <= s.durable
    && s.log[s.rollbacks[t].undoLSN - 1] == r && r.Update? && r.txnum == t
  }

  function Clr(r: Record, last: LSN): Record
    requires r.Update?
  {
    Compensation(r.txnum, last, r.blk, r.fld, r.newVal, r.oldVal, r.prevLSN)
  }

  /** Undoing the update `r`: compensation record, log force, pin, page change. */
  function Undone(s: State, t: TxNum, r: Record, v: Option<BlockId>, stale: LSN): State
    requires r.Update? && t in s.rollbacks && CanPin(s.bufs, r.blk, v)
  {
    var lsn := |s.log| + 1;
    var bufs := PinBufs(s.disk, s.bufs, r.blk, v, stale);
    State(s.log + [Clr(r, s.rollbacks[t].lastLSN)], lsn, s.ckptLSN,
          PinDisk(s.disk, s.bufs, r.blk, v),
          Touch(bufs, r.blk, r.fld, r.oldVal, lsn, t),
          s.att,
          TouchDpt(bufs, PinDpt(s.bufs, s.dpt, r.blk, v), r.blk, lsn),
          s.rollbacks[t := Cursor(r.prevLSN, lsn)], s.xlocks, s.mode, s.recovered)
  }

  lemma CompensateReaches(s: State, t: TxNum)
    requires CanCompensate(s, t)
    ensures Reaches(s, DoCompensate(s, t).(durable := |s.log| + 1))
  {
    ReachesStep(s, ARollbackStep(t));
    ReachesThen(s, DoCompensate(s, t), AFlushLog);
  }

  lemma UndoneIsCompensated(s: State, t: TxNum, r: Record, v: Option<BlockId>, stale: LSN)
    requires AtUpdate(s, t, r) && CanPin(s.bufs, r.blk, v)
    ensures var s2 := Pinned(s.(durable := |s.log|), r.blk, v, stale);
            CanCompensate(s2, t) && Undone(s, t, r, v, stale) == DoCompensate(s2, t).(durable := |s.log| + 1)
  {
  }

  lemma UndoneReaches(s: State, t: TxNum, r: Record, v: Option<BlockId>, stale: LSN)
    requires AtUpdate(s, t, r) && CanPin(s.bufs, r.blk, v)
    requires v.Some? && Dirty(s.bufs[v.value]) ==> s.bufs[v.value].pageLSN <= |s.log|
    ensures Reaches(s, Undone(s, t, r, v, stale))
  {
    var s1 := s.(durable := |s.log|);
    ReachesStep(s, AFlushLog);
    PinReaches(s1, r.blk, v, stale);
    ReachesTrans(s, s1, Pinned(s1, r.blk, v, stale));
    UndoneIsCompensated(s, t, r, v, stale);
    CompensateReaches(Pinned(s1, r.blk, v, stale), t);
    ReachesTrans(s, Pinned(s1, r.blk, v, stale), Undone(s, t, r, v, stale));
  }

  lemma SkipReaches(s: State, t: TxNum)
    requires CanRollbackStep(s, t) && !CanCompensate(s, t)
    ensures Reaches(s, DoSkip(s, t))
  {
    ReachesStep(s, ARollbackStep(t));
  }

  // ---------------------------------------------------------------- checkpoints

  /** The store after a checkpoint. */
  function Checkpointed(s: State): State {
    var n := |s.log| + 1;
    s.(log := s.log + [CheckpointBegin] + [CheckpointEnd(n, s.att, s.dpt)], durable := n + 1, ckptLSN := n)
  }

  lemma CheckpointReaches(s: State, d: nat, d2: nat)
    requires (d == s.durable || d == |s.log|) && (d2 == d || d2 == |s.log| + 1)
    requires s.mode.Up? && s.rollbacks == map[] && DptCovers(s)
    ensures Reaches(s, Checkpointed(s))
  {
    var n := |s.log| + 1;
    var s1 := Append(s, CheckpointBegin).(durable := d);
    AppendReaches(s, d, ACheckpointBegin);
    var s2 := DoCheckpointEnd(s1.(durable := d2));
    AppendReaches(s1, d2, ACheckpointEnd);
    ReachesTrans(s, s1, s2);
    ReachesThen(s, s2, AFlushLog);
    ReachesThen(s, s2.(durable := n + 1), AWriteCheckpointLSN(n));
  }

  // ---------------------------------------------------------------- a whole rollback

  lemma RollbackFacts(s: State, s': State, t: TxNum)
    requires Reaches(FRESH, s) && Reaches(s, s') && CanCommit(s, t) && s'.mode.Up?
    requires RollbackLog(s.log, s'.log, t, s.att[t].lastLSN)
    ensures Restores(s, s', t)
  {
    ReachedInv(s);
    ReachesTrans(FRESH, s, s');
    ReachedInv(s');
    RollbackRestores(s, s', t);
  }
}

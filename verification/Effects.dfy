/** What the operations of the recovery manager leave behind, said in terms of the log, of what readers see and
    of the tables, without the step functions of the machine. */
module Effects {
  import opened Storage
  import opened LogModel
  import opened Machine
  import opened RecoveryObjects
  import opened RunPieces
  import opened RestartPieces

  /** Only field `f` of block `b` reads differently. */
  ghost predicate OnlyField(s: State, s': State, b: BlockId, f: Field) {
    && (forall c | c != b :: Content(s', c) == Content(s, c))
    && (forall g | g != f :: Content(s', b).Get(g) == Content(s, b).Get(g))
  }

  /** Nothing that a set, a commit or a checkpoint does not touch has changed. */
  predicate SameRest(s: State, s': State) {
    s'.disk == s.disk && s'.rollbacks == s.rollbacks && s'.mode == s.mode && s'.recovered == s.recovered
  }

  predicate SamePages(s: State, s': State) { s'.bufs == s.bufs && s'.dpt == s.dpt }

  ghost predicate StartDone(s: State, s': State, t: TxNum) {
    && s'.log == s.log + [Start(t)] && s'.ckptLSN == s.ckptLSN
    && s'.att == s.att[t := AttEntry(Running, |s'.log|)]
    && s'.xlocks == s.xlocks && SamePages(s, s') && SameRest(s, s')
  }

  lemma StartIsDone(s: State, d: nat, t: TxNum)
    requires CanStart(s, t)
    ensures StartDone(s, DoStart(s.(durable := d), t), t)
  {
  }

  /** The buffer of the block carries the transaction and the LSN of its change, and that of its first change
      since it was last clean. */
  predicate Noted(s: State, s': State, t: TxNum, b: BlockId, lsn: LSN) {
    && b in s.bufs && b in s'.bufs && s'.bufs.Keys == s.bufs.Keys
    && s'.bufs[b].txnum == t && s'.bufs[b].pageLSN == lsn && s'.bufs[b].page.lsn == lsn
    && s'.bufs[b].recLSN == (if s.bufs[b].recLSN == NO_LSN then lsn else s.bufs[b].recLSN)
    && (forall c | c in s.bufs && c != b :: s'.bufs[c] == s.bufs[c])
    && s'.dpt == (if s.bufs[b].recLSN == NO_LSN && b !in s.dpt then s.dpt[b := lsn] else s.dpt)
  }

  /** A logged set: the value it logs is the value the field then has. */
  ghost predicate SetDone(s: State, s': State, t: TxNum, b: BlockId, f: Field, v: Value)
    requires t in s.att
  {
    var lsn := |s.log| + 1;
    && s'.log == s.log + [Update(t, s.att[t].lastLSN, b, f, Content(s, b).Get(f), v)] && s'.ckptLSN == s.ckptLSN
    && Content(s', b).Get(f) == v && OnlyField(s, s', b, f) && Noted(s, s', t, b, lsn)
    && s'.att == s.att[t := AttEntry(s.att[t].status, lsn)]
    && s'.xlocks == s.xlocks[b := t] && SameRest(s, s')
  }

  lemma SetIsDone(s: State, d: nat, t: TxNum, b: BlockId, f: Field, v: Value)
    requires CanSet(s, t, b, f, v)
    ensures SetDone(s, DoSet(s.(durable := d), t, b, f, v), t, b, f, v)
  {
  }

  /** COMMIT and END, the COMMIT on disk; the transaction is out of the table and its blocks are free. */
  ghost predicate CommitDone(s: State, s': State, t: TxNum)
    requires t in s.att
  {
    && s'.log == s.log + [Commit(t, s.att[t].lastLSN), End(t, |s.log| + 1)]
    && |s.log| < s'.durable <= |s'.log| && s'.ckptLSN == s.ckptLSN
    && s'.att == s.att - {t}
    && (forall b :: b in s'.xlocks <==> b in s.xlocks && s.xlocks[b] != t)
    && (forall b | b in s'.xlocks :: s'.xlocks[b] == s.xlocks[b])
    && SamePages(s, s') && SameRest(s, s')
  }

  lemma CommitIsDone(s: State, t: TxNum)
    requires CanCommit(s, t)
    ensures CommitDone(s, Committing(s, t), t)
  {
    assert s.log + [Commit(t, s.att[t].lastLSN)] + [End(t, |s.log| + 1)]
        == s.log + [Commit(t, s.att[t].lastLSN), End(t, |s.log| + 1)];
    assert s.att[t := AttEntry(Committed, |s.log| + 1)] - {t} == s.att - {t};
  }

  /** Both tables in the log, all of it on disk, and BEGIN named in the header. */
  ghost predicate CheckpointDone(s: State, s': State) {
    && s'.log == s.log + [CheckpointBegin, CheckpointEnd(|s.log| + 1, s.att, s.dpt)]
    && s'.durable == |s'.log| && s'.ckptLSN == |s.log| + 1
    && s'.att == s.att && s'.xlocks == s.xlocks && SamePages(s, s') && SameRest(s, s')
  }

  lemma CheckpointIsDone(s: State)
    ensures CheckpointDone(s, Checkpointed(s))
  {
  }

  // ---------------------------------------------------------------- undo and redo

  /** The block is resident, the value is in its field under the LSN; the rest of the page and every other buffer
      that stayed are as they were. */
  ghost predicate Rewritten(s: State, s': State, b: BlockId, f: Field, v: Value, lsn: LSN) {
    && b in s'.bufs && Content(s', b).Get(f) == v && Content(s', b).lsn == lsn
    && (forall g | g != f :: Content(s', b).Get(g) == Content(s, b).Get(g))
    && (forall c | c in s'.bufs && c != b :: c in s.bufs && s'.bufs[c] == s.bufs[c])
  }

  lemma UndoneIsRewritten(s: State, t: TxNum, r: Record, v: Option<BlockId>, stale: LSN)
    requires r.Update? && t in s.rollbacks && CanPin(s.bufs, r.blk, v)
    ensures Rewritten(s, Undone(s, t, r, v, stale), r.blk, r.fld, r.oldVal, |s.log| + 1)
  {
  }

  /** A record is redone exactly if the table lists its block no later and the page on disk is older. */
  ghost predicate RedoneOrPassed(s: State, s': State, dpt: Dpt, r: Record, lsn: LSN) {
    if r.Dirties() && r.blk in dpt && dpt[r.blk] <= lsn && ReadPage(s.disk, r.blk).lsn < lsn
    then Rewritten(s, s', r.blk, r.fld, r.newVal, lsn)
    else s' == s.(mode := s'.mode)
  }

  /** Redo starts at the oldest recLSN of the table, or has nothing to do. */
  lemma RedoStartsAtOldest(log: Log, dpt: Dpt)
    ensures dpt == map[] ==> RedoStart(log, dpt) == |log|
    ensures dpt != map[] ==> exists b :: b in dpt && dpt[b] == RedoStart(log, dpt) + 1
    ensures forall b | b in dpt :: RedoStart(log, dpt) < dpt[b]
  {
  }

  lemma RedoneIsRewritten(s: State, r: Record, v: Option<BlockId>, stale: LSN)
    requires s.mode.Redoing? && r.Dirties() && CanPin(s.bufs, r.blk, v)
    ensures Rewritten(s, Redone(s, r, v, stale), r.blk, r.fld, r.newVal, s.mode.next + 1)
  {
  }
}

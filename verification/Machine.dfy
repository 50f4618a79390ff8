/** The recoverable store as a step system.

    The durable part is the disk, the first `durable` log records and the checkpoint LSN in the log
    header; everything else is lost in a crash.  An action is at most one log append together with
    the memory it changes, so a crash may fall between any two appends, and actions of different
    transactions interleave freely.  A rollback in progress is a cursor into the log. */
module Machine {
  import opened Storage
  import opened LogModel
  import opened Analysis

  /** A buffer: `txnum` is the last modifying transaction or -1, `recLSN` the first change since the
      buffer was last clean or -1, `pageLSN` the last LSN set through this buffer (it survives reuse of
      the buffer for another block). */
  datatype Frame = Frame(page: PageImage, txnum: TxNum, recLSN: LSN, pageLSN: LSN)

  datatype Cursor = Cursor(undoLSN: LSN, lastLSN: LSN)

  /** `Redoing` holds the position of the next record to redo; both recovery modes hold the tables
      rebuilt by analysis. */
  datatype Mode =
    | Up
    | Down
    | Redoing(next: nat, tables: Tables)
    | Undoing(tables: Tables)

  datatype State = State(
    log: Log,
    durable: nat,
    ckptLSN: LSN,
    disk: Disk,
    bufs: Buffers,
    att: Att,
    dpt: Dpt,
    rollbacks: map<TxNum, Cursor>,
    xlocks: map<BlockId, TxNum>,
    mode: Mode,
    recovered: bool)

  const FRESH := State([], 0, 1, map[], map[], map[], map[], map[], map[], Up, false)

  type Buffers = map<BlockId, Frame>

  /** What a reader of block `b` sees: its buffer if there is one, else the disk. */
  function Read(disk: Disk, bufs: Buffers, b: BlockId): PageImage {
    if b in bufs then bufs[b].page else ReadPage(disk, b)
  }

  function Content(s: State, b: BlockId): PageImage { Read(s.disk, s.bufs, b) }

  predicate Dirty(fr: Frame) { fr.txnum >= 0 }

  function Append(s: State, r: Record): State { s.(log := s.log + [r]) }

  function NextLSN(s: State): LSN { |s.log| + 1 }

  /** The buffers after writing a field of block `b` and recording the modification by `t` at `lsn`. */
  function Touch(bufs: Buffers, b: BlockId, f: Field, v: Value, lsn: LSN, t: TxNum): Buffers
    requires b in bufs
  {
    var fr := bufs[b];
    bufs[b := Frame(fr.page.Put(f, v, lsn), t, if fr.recLSN == NO_LSN then lsn else fr.recLSN, lsn)]
  }

  /** The first modification of a clean buffer enters the dirty page table. */
  function TouchDpt(bufs: Buffers, dpt: Dpt, b: BlockId, lsn: LSN): Dpt
    requires b in bufs
  {
    if bufs[b].recLSN == NO_LSN then MarkDirty(dpt, b, lsn) else dpt
  }

  function ReleaseLocks(xl: map<BlockId, TxNum>, t: TxNum): map<BlockId, TxNum> {
    map b | b in xl && xl[b] != t :: xl[b]
  }

  // ---------------------------------------------------------------- transactions

  predicate CanStart(s: State, t: TxNum) { s.mode.Up? && t >= 0 && t !in s.att }

  function DoStart(s: State, t: TxNum): State {
    Append(s, Start(t)).(att := s.att[t := AttEntry(Running, NextLSN(s))])
  }

  /** A logged set needs a running transaction, the block pinned, and its X lock available. */
  predicate CanSet(s: State, t: TxNum, b: BlockId, f: Field, v: Value) {
    && s.mode.Up? && t in s.att && s.att[t].status == Running && t !in s.rollbacks
    && b in s.bufs && (b in s.xlocks ==> s.xlocks[b] == t)
    && v.Kind() == f.kind
  }

  function DoSet(s: State, t: TxNum, b: BlockId, f: Field, v: Value): State
    requires CanSet(s, t, b, f, v)
  {
    var lsn := NextLSN(s);
    s.(log := s.log + [Update(t, s.att[t].lastLSN, b, f, s.bufs[b].page.Get(f), v)],
       att := s.att[t := s.att[t].(lastLSN := lsn)],
       xlocks := s.xlocks[b := t],
       bufs := Touch(s.bufs, b, f, v, lsn, t),
       dpt := TouchDpt(s.bufs, s.dpt, b, lsn))
  }

  predicate CanCommit(s: State, t: TxNum) {
    s.mode.Up? && t in s.att && s.att[t].status == Running && t !in s.rollbacks
  }

  function DoCommit(s: State, t: TxNum): State
    requires CanCommit(s, t)
  {
    Append(s, Commit(t, s.att[t].lastLSN)).(att := s.att[t := AttEntry(Committed, NextLSN(s))])
  }

  /** END is written only after the COMMIT record has been forced. */
  predicate CanEndCommit(s: State, t: TxNum) {
    && s.mode.Up? && t in s.att && s.att[t].status == Committed && t !in s.rollbacks
    && s.att[t].lastLSN <= s.durable
  }

  function DoEndCommit(s: State, t: TxNum): State
    requires CanEndCommit(s, t)
  {
    Append(s, End(t, s.att[t].lastLSN)).(att := s.att - {t}, xlocks := ReleaseLocks(s.xlocks, t))
  }

  function DoAbort(s: State, t: TxNum): State
    requires CanCommit(s, t)
  {
    Append(s, Abort(t, s.att[t].lastLSN))
    .(rollbacks := s.rollbacks[t := Cursor(s.att[t].lastLSN, NextLSN(s))])
  }

  // ---------------------------------------------------------------- rolling back

  /** Undo has reached the START of the transaction. */
  predicate AtStart(log: Log, undo: LSN) {
    undo == NO_LSN || (1 <= undo <= |log| && log[undo - 1].Start?)
  }

  /** One step of undo: the record under the cursor must be on disk to be read, and so must the last
      record the rollback wrote. */
  predicate CanRollbackStep(s: State, t: TxNum) {
    && (s.mode.Up? || s.mode.Undoing?) && t in s.rollbacks
    && var c := s.rollbacks[t];
    && c.lastLSN <= s.durable && 1 <= c.undoLSN <= s.durable && c.undoLSN <= |s.log|
    && var r := s.log[c.undoLSN - 1];
    && r.OfTx(t) && !r.Start?
    && (r.Update? ==> r.blk in s.bufs)
  }

  function UndoNext(r: Record): LSN
    requires !r.Start? && !r.CheckpointBegin? && !r.CheckpointEnd?
  {
    if r.Compensation? then r.undoNextLSN else r.prevLSN
  }

  predicate CanCompensate(s: State, t: TxNum) {
    CanRollbackStep(s, t) && s.log[s.rollbacks[t].undoLSN - 1].Update?
  }

  /** The compensation record for the update under the cursor. */
  function ClrFor(s: State, t: TxNum): Record
    requires CanCompensate(s, t)
  {
    var c := s.rollbacks[t];
    var r := s.log[c.undoLSN - 1];
    Compensation(t, c.lastLSN, r.blk, r.fld, r.newVal, r.oldVal, r.prevLSN)
  }

  function DoCompensate(s: State, t: TxNum): State
    requires CanCompensate(s, t)
  {
    var clr := ClrFor(s, t);
    var lsn := NextLSN(s);
    s.(log := s.log + [clr],
       rollbacks := s.rollbacks[t := Cursor(clr.undoNextLSN, lsn)],
       bufs := Touch(s.bufs, clr.blk, clr.fld, clr.newVal, lsn, t),
       dpt := TouchDpt(s.bufs, s.dpt, clr.blk, lsn))
  }

  /** A record that needs no compensation is passed over. */
  function DoSkip(s: State, t: TxNum): State
    requires CanRollbackStep(s, t)
  {
    var c := s.rollbacks[t];
    s.(rollbacks := s.rollbacks[t := c.(undoLSN := UndoNext(s.log[c.undoLSN - 1]))])
  }

  function DoRollbackStep(s: State, t: TxNum): State
    requires CanRollbackStep(s, t)
  {
    if CanCompensate(s, t) then DoCompensate(s, t) else DoSkip(s, t)
  }

  predicate CanEndRollback(s: State, t: TxNum) {
    s.mode.Up? && t in s.att && t in s.rollbacks && AtStart(s.log, s.rollbacks[t].undoLSN)
  }

  function DoEndRollback(s: State, t: TxNum): State
    requires CanEndRollback(s, t)
  {
    Append(s, End(t, s.rollbacks[t].lastLSN))
    .(att := s.att - {t}, rollbacks := s.rollbacks - {t}, xlocks := ReleaseLocks(s.xlocks, t))
  }

  // ---------------------------------------------------------------- checkpoints

  /** The shared dirty page table lists every dirty buffer, no later than its first change. */
  predicate DptCovers(s: State) {
    forall b | b in s.bufs && Dirty(s.bufs[b]) :: b in s.dpt && s.dpt[b] <= s.bufs[b].recLSN
  }

  /** CHECKPOINT-END directly follows its BEGIN, with no rollback in progress. */
  predicate CanCheckpointEnd(s: State) {
    && s.mode.Up? && s.log != [] && Last(s.log).CheckpointBegin? && s.rollbacks == map[]
    && DptCovers(s)
  }

  function DoCheckpointEnd(s: State): State {
    Append(s, CheckpointEnd(|s.log|, s.att, s.dpt))
  }

  /** The header may name a checkpoint that is on disk completely. */
  predicate CanWriteCheckpointLSN(s: State, lsn: LSN) {
    && s.mode.Up? && 1 <= lsn < s.durable && lsn < |s.log|
    && s.log[lsn - 1].CheckpointBegin? && s.log[lsn].CheckpointEnd? && s.log[lsn].beginLSN == lsn
  }

  // ---------------------------------------------------------------- buffers

  /** A dirty page reaches disk only after the log up to its pageLSN. */
  predicate CanFlushPage(s: State, b: BlockId) {
    !s.mode.Down? && b in s.bufs && Dirty(s.bufs[b]) && s.bufs[b].pageLSN <= s.durable
  }

  function DoFlushPage(s: State, b: BlockId): State
    requires CanFlushPage(s, b)
  {
    var fr := s.bufs[b];
    s.(disk := s.disk[b := fr.page], bufs := s.bufs[b := fr.(txnum := -1, recLSN := NO_LSN)], dpt := s.dpt - {b})
  }

  /** A buffer reused for `b` keeps whatever pageLSN it had. */
  function DoLoad(s: State, b: BlockId, stale: LSN): State {
    s.(bufs := s.bufs[b := Frame(ReadPage(s.disk, b), -1, NO_LSN, stale)])
  }

  // ---------------------------------------------------------------- crash and recovery

  function DoCrash(s: State): State
    requires s.durable <= |s.log|
  {
    State(s.log[..s.durable], s.durable, s.ckptLSN, s.disk, map[], map[], map[], map[], map[], Down, false)
  }

  /** The smallest recLSN of a non-empty table. */
  function MinRecLSN(dpt: Dpt): (m: LSN)
    requires dpt != map[]
    ensures (exists b :: b in dpt && dpt[b] == m) && forall b | b in dpt :: m <= dpt[b]
  {
    MinIsThere(dpt, dpt.Keys);
    var b :| b in dpt && forall c | c in dpt :: dpt[b] <= dpt[c];
    dpt[b]
  }

  lemma {:induction false} MinIsThere(dpt: Dpt, keys: set<BlockId>)
    requires keys <= dpt.Keys && keys != {}
    ensures exists b :: b in keys && forall c | c in keys :: dpt[b] <= dpt[c]
    decreases |keys|
  {
    var b :| b in keys;
    var rest := keys - {b};
    if rest == {} {
      assert keys == {b};
    } else {
      MinIsThere(dpt, rest);
      var d :| d in rest && forall c | c in rest :: dpt[d] <= dpt[c];
      var m := if dpt[b] <= dpt[d] then b else d;
      forall c | c in keys ensures dpt[m] <= dpt[c] {
        assert c == b || c in rest;
      }
    }
  }

  /** Where redo starts: at the smallest recLSN, or nowhere if no page can be stale. */
  function RedoStart(log: Log, dpt: Dpt): int {
    if dpt == map[] then |log| else MinRecLSN(dpt) - 1
  }

  function DoAnalyze(s: State): State {
    var a := Analyze(s.log, if s.ckptLSN >= 1 then s.ckptLSN - 1 else 0);
    var from := RedoStart(s.log, a.dpt);
    s.(mode := Redoing(if from >= 0 then from else 0, a))
  }

  /** Redo applies the record unless the dirty page table or the LSN of the page on disk shows that
      the change cannot be missing. */
  predicate MustRedo(s: State, dpt: Dpt, i: nat)
    requires i < |s.log|
  {
    var r := s.log[i];
    r.Dirties() && r.blk in dpt && i + 1 >= dpt[r.blk] && i + 1 > ReadPage(s.disk, r.blk).lsn
  }

  predicate CanRedo(s: State) {
    && s.mode.Redoing? && s.mode.next < |s.log|
    && (MustRedo(s, s.mode.tables.dpt, s.mode.next) ==> s.log[s.mode.next].blk in s.bufs)
  }

  function DoRedo(s: State): State
    requires CanRedo(s)
  {
    var i := s.mode.next;
    var r := s.log[i];
    var mode' := Redoing(i + 1, s.mode.tables);
    if MustRedo(s, s.mode.tables.dpt, i) then
      s.(mode := mode',
         bufs := Touch(s.bufs, r.blk, r.fld, r.newVal, i + 1, r.txnum),
         dpt := TouchDpt(s.bufs, s.dpt, r.blk, i + 1))
    else
      s.(mode := mode')
  }

  predicate CanEndRedo(s: State) { s.mode.Redoing? && s.mode.next == |s.log| }

  function DoEndRedo(s: State): State
    requires CanEndRedo(s)
  {
    s.(mode := Undoing(s.mode.tables))
  }

  function DropAtt(s: State, t: TxNum): State
    requires s.mode.Undoing?
  {
    s.(mode := Undoing(s.mode.tables.(att := s.mode.tables.att - {t})))
  }

  /** A transaction whose COMMIT is in the log only lacks its END. */
  predicate CanEndWinner(s: State, t: TxNum) {
    s.mode.Undoing? && t in s.mode.tables.att && s.mode.tables.att[t].status == Committed && t !in s.rollbacks
  }

  function DoEndWinner(s: State, t: TxNum): State
    requires CanEndWinner(s, t)
  {
    DropAtt(Append(s, End(t, s.mode.tables.att[t].lastLSN)), t)
  }

  predicate CanUndo(s: State, t: TxNum) {
    s.mode.Undoing? && t in s.mode.tables.att && s.mode.tables.att[t].status != Committed && t !in s.rollbacks
  }

  /** A loser still running gets an ABORT first; one already aborting continues from its last record. */
  function DoUndo(s: State, t: TxNum): State
    requires CanUndo(s, t)
  {
    var e := s.mode.tables.att[t];
    if e.status == Running then
      Append(s, Abort(t, e.lastLSN)).(rollbacks := s.rollbacks[t := Cursor(e.lastLSN, NextLSN(s))])
    else
      s.(rollbacks := s.rollbacks[t := Cursor(e.lastLSN, e.lastLSN)])
  }

  predicate CanEndUndo(s: State, t: TxNum) {
    && s.mode.Undoing? && t in s.mode.tables.att && t in s.rollbacks
    && AtStart(s.log, s.rollbacks[t].undoLSN)
  }

  function DoEndUndo(s: State, t: TxNum): State
    requires CanEndUndo(s, t)
  {
    DropAtt(Append(s, End(t, s.rollbacks[t].lastLSN)).(rollbacks := s.rollbacks - {t}), t)
  }

  /** The rebuilt tables replace the shared ones. */
  function DoFinish(s: State): State
    requires s.mode.Undoing?
  {
    s.(att := s.mode.tables.att, dpt := s.mode.tables.dpt, mode := Up, recovered := true)
  }

  // ---------------------------------------------------------------- runs

  datatype Action =
    | AStart(t: TxNum)
    | ASet(t: TxNum, b: BlockId, f: Field, v: Value)
    | ACommit(t: TxNum)
    | AEndCommit(t: TxNum)
    | AAbort(t: TxNum)
    | ARollbackStep(t: TxNum)
    | AEndRollback(t: TxNum)
    | ACheckpointBegin
    | ACheckpointEnd
    | AWriteCheckpointLSN(lsn: LSN)
    | AFlushLog
    | AFlushPage(b: BlockId)
    | ALoad(b: BlockId, stale: LSN)
    | ADrop(b: BlockId)
    | ACrash
    | AAnalyze
    | ARedo
    | AEndRedo
    | AEndWinner(t: TxNum)
    | AUndo(t: TxNum)
    | AEndUndo(t: TxNum)
    | AFinish

  predicate Enabled(s: State, a: Action) {
    match a
    case AStart(t) => CanStart(s, t)
    case ASet(t, b, f, v) => CanSet(s, t, b, f, v)
    case ACommit(t) => CanCommit(s, t)
    case AEndCommit(t) => CanEndCommit(s, t)
    case AAbort(t) => CanCommit(s, t)
    case ARollbackStep(t) => CanRollbackStep(s, t)
    case AEndRollback(t) => CanEndRollback(s, t)
    case ACheckpointBegin => s.mode.Up?
    case ACheckpointEnd => CanCheckpointEnd(s)
    case AWriteCheckpointLSN(lsn) => CanWriteCheckpointLSN(s, lsn)
    case AFlushLog => !s.mode.Down?
    case AFlushPage(b) => CanFlushPage(s, b)
    case ALoad(b, _) => !s.mode.Down? && b !in s.bufs
    case ADrop(b) => !s.mode.Down? && b in s.bufs && !Dirty(s.bufs[b])
    case ACrash => s.durable <= |s.log|
    case AAnalyze => s.mode.Down?
    case ARedo => CanRedo(s)
    case AEndRedo => CanEndRedo(s)
    case AEndWinner(t) => CanEndWinner(s, t)
    case AUndo(t) => CanUndo(s, t)
    case AEndUndo(t) => CanEndUndo(s, t)
    case AFinish => s.mode.Undoing? && s.mode.tables.att == map[]
  }

  function Do(s: State, a: Action): State
    requires Enabled(s, a)
  {
    match a
    case AStart(t) => DoStart(s, t)
    case ASet(t, b, f, v) => DoSet(s, t, b, f, v)
    case ACommit(t) => DoCommit(s, t)
    case AEndCommit(t) => DoEndCommit(s, t)
    case AAbort(t) => DoAbort(s, t)
    case ARollbackStep(t) => DoRollbackStep(s, t)
    case AEndRollback(t) => DoEndRollback(s, t)
    case ACheckpointBegin => Append(s, CheckpointBegin)
    case ACheckpointEnd => DoCheckpointEnd(s)
    case AWriteCheckpointLSN(lsn) => s.(ckptLSN := lsn)
    case AFlushLog => s.(durable := |s.log|)
    case AFlushPage(b) => DoFlushPage(s, b)
    case ALoad(b, stale) => DoLoad(s, b, stale)
    case ADrop(b) => s.(bufs := s.bufs - {b})
    case ACrash => DoCrash(s)
    case AAnalyze => DoAnalyze(s)
    case ARedo => DoRedo(s)
    case AEndRedo => DoEndRedo(s)
    case AEndWinner(t) => DoEndWinner(s, t)
    case AUndo(t) => DoUndo(s, t)
    case AEndUndo(t) => DoEndUndo(s, t)
    case AFinish => DoFinish(s)
  }

  /** Every action of the sequence is enabled when its turn comes. */
  predicate CanRun(s: State, acts: seq<Action>)
    decreases |acts|
  {
    acts == [] || (Enabled(s, acts[0]) && CanRun(Do(s, acts[0]), acts[1..]))
  }

  function Run(s: State, acts: seq<Action>): State
    requires CanRun(s, acts)
    decreases |acts|
  {
    if acts == [] then s else Run(Do(s, acts[0]), acts[1..])
  }
}

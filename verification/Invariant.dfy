/** What every reachable state of the store satisfies. */
module Invariant {
  import opened Storage
  import opened LogModel
  import opened Analysis
  import opened UndoLemmas
  import opened Machine

  // ---------------------------------------------------------------- the durable part

  /** The page shows exactly the records up to its LSN, all of which are durable. */
  ghost predicate PageOk(log: Log, bound: nat, p: PageImage, b: BlockId) {
    0 <= p.lsn <= bound <= |log| && p == Replay(log[..p.lsn], b)
  }

  ghost predicate DiskOk(log: Log, durable: nat, disk: Disk) {
    forall b :: PageOk(log, durable, ReadPage(disk, b), b)
  }

  /** A transaction that ended by committing has its COMMIT record on disk. */
  ghost predicate CommitsForced(log: Log, durable: nat) {
    forall e | 0 <= e < |log| && log[e].End? ::
      1 <= log[e].prevLSN <= e && (log[log[e].prevLSN - 1].Commit? ==> log[e].prevLSN <= durable)
  }

  ghost predicate DurableOk(log: Log, durable: nat, ckptLSN: LSN, disk: Disk) {
    && WfLog(log) && durable <= |log|
    && DiskOk(log, durable, disk)
    && ScanStart(log, ckptLSN) && (ckptLSN == 1 || ckptLSN < durable)
    && CheckpointsSound(log, disk)
    && CommitsForced(log, durable)
  }

  ghost predicate Base(s: State) { DurableOk(s.log, s.durable, s.ckptLSN, s.disk) }

  // ---------------------------------------------------------------- buffers

  /** A clean buffer equals its page on disk; a dirty one shows a prefix of the log, its recLSN is
      that of a change to the block, and the page on disk is the replay of the records before its recLSN. */
  ghost predicate FrameOk(log: Log, disk: Disk, fr: Frame, b: BlockId) {
    && (!Dirty(fr) ==> fr.recLSN == NO_LSN && fr.page == ReadPage(disk, b))
    && (Dirty(fr) ==>
          && 1 <= fr.recLSN <= fr.page.lsn == fr.pageLSN
          && PageOk(log, |log|, fr.page, b)
          && log[fr.recLSN - 1].Writes(b)
          && ReadPage(disk, b) == Replay(log[..fr.recLSN - 1], b))
  }

  ghost predicate FramesOk(log: Log, disk: Disk, bufs: Buffers) {
    forall b | b in bufs :: FrameOk(log, disk, bufs[b], b)
  }

  /** Every block reads as the replay of the whole log. */
  ghost predicate Current(log: Log, disk: Disk, bufs: Buffers) {
    forall b :: Read(disk, bufs, b) == Replay(log, b)
  }

  // ---------------------------------------------------------------- transactions

  ghost predicate AttOk(log: Log, att: Att, rollbacks: map<TxNum, Cursor>) {
    var v := Views(log);
    && att.Keys == v.Keys
    && forall t | t in att && t !in rollbacks :: att[t] == AttEntry(v[t].status, v[t].last)
  }

  ghost predicate RollbacksOk(log: Log, rollbacks: map<TxNum, Cursor>) {
    var v := Views(log);
    forall t | t in rollbacks ::
      && t in v && v[t].status == Aborting && rollbacks[t].lastLSN == v[t].last
      && CursorOk(log, t, rollbacks[t].undoLSN)
  }

  /** Whoever has an outstanding update on a block holds its X lock. */
  ghost predicate LocksOk(log: Log, xlocks: map<BlockId, TxNum>) {
    var v := Views(log);
    forall t, p | t in v && p in v[t].pending && 1 <= p <= |log| && log[p - 1].Dirties() ::
      log[p - 1].blk in xlocks && xlocks[log[p - 1].blk] == t
  }

  ghost predicate DptBounded(log: Log, dpt: Dpt) {
    forall b | b in dpt :: 1 <= dpt[b] <= |log|
  }

  /** Before any Recover the dirty page table lists exactly the dirty buffers with their recLSNs. */
  ghost predicate DptExact(bufs: Buffers, dpt: Dpt) {
    && (forall b | b in dpt :: b in bufs && Dirty(bufs[b]))
    && (forall b | b in bufs && Dirty(bufs[b]) :: b in dpt && dpt[b] == bufs[b].recLSN)
  }

  ghost predicate DptOk(log: Log, bufs: Buffers, dpt: Dpt, recovered: bool) {
    DptBounded(log, dpt) && (!recovered ==> DptExact(bufs, dpt))
  }

  ghost predicate PagesOk(log: Log, disk: Disk, bufs: Buffers) {
    FramesOk(log, disk, bufs) && Current(log, disk, bufs)
  }

  ghost predicate TransactionsOk(log: Log, att: Att, rollbacks: map<TxNum, Cursor>) {
    AttOk(log, att, rollbacks) && RollbacksOk(log, rollbacks)
  }

  // ---------------------------------------------------------------- redo in progress

  /** The block shows everything up to redo position `i`, and perhaps later records that were on disk. */
  ghost predicate CaughtUp(log: Log, disk: Disk, bufs: Buffers, b: BlockId, i: nat) {
    && PageOk(log, |log|, Read(disk, bufs, b), b)
    && i <= |log|
    && Replay(log[..i], b).lsn <= Read(disk, bufs, b).lsn
    && (b in bufs && Dirty(bufs[b]) ==> bufs[b].page.lsn <= i)
  }

  ghost predicate RedoOk(log: Log, disk: Disk, bufs: Buffers, i: nat) {
    FramesOk(log, disk, bufs) && forall b :: CaughtUp(log, disk, bufs, b, i)
  }

  /** The COMMIT records that analysis found are on disk. */
  ghost predicate WinnersForced(att: Att, durable: nat) {
    forall t | t in att && att[t].status == Committed :: att[t].lastLSN <= durable
  }

  /** The state as a whole, by mode. */
  ghost predicate Inv(s: State) {
    && Base(s)
    && match s.mode
       case Up =>
         && PagesOk(s.log, s.disk, s.bufs)
         && TransactionsOk(s.log, s.att, s.rollbacks)
         && LocksOk(s.log, s.xlocks)
         && DptOk(s.log, s.bufs, s.dpt, s.recovered)
       case Down =>
         s.durable == |s.log| && s.bufs == map[] && s.rollbacks == map[]
       case Redoing(i, tables) =>
         && s.durable == |s.log| && s.rollbacks == map[]
         && tables.att == AttOf(Views(s.log))
         && DptSound(s.log, tables.dpt, s.disk, |s.log|)
         && RedoOk(s.log, s.disk, s.bufs, i)
       case Undoing(tables) =>
         && PagesOk(s.log, s.disk, s.bufs)
         && TransactionsOk(s.log, tables.att, s.rollbacks)
         && DptBounded(s.log, tables.dpt)
         && WinnersForced(tables.att, s.durable)
  }
}

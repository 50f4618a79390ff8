/** The invariant is kept by buffer traffic, crashes and every step of recovery. */
module InvariantRecovery {
  import opened Storage
  import opened LogModel
  import opened LogLemmas
  import opened ReplayLemmas
  import opened Analysis
  import opened Machine
  import opened Invariant
  import opened InvariantSteps
  import opened InvariantKept

  // ---------------------------------------------------------------- buffers

  /** The page in a buffer is never behind the page on disk. */
  lemma DiskNotAhead(log: Log, disk: Disk, bufs: Buffers, b: BlockId)
    requires FramesOk(log, disk, bufs) && DiskOk(log, |log|, disk)
    ensures ReadPage(disk, b).lsn <= Read(disk, bufs, b).lsn
  {
    if b in bufs {
      assert FrameOk(log, disk, bufs[b], b);
      if Dirty(bufs[b]) { LsnBounds(log, bufs[b].recLSN - 1, b); }
    }
  }

  lemma DiskOkWeaken(log: Log, m: nat, n: nat, disk: Disk)
    requires DiskOk(log, m, disk) && m <= n <= |log|
    ensures DiskOk(log, n, disk)
  {
    forall b ensures PageOk(log, n, ReadPage(disk, b), b) {
      assert PageOk(log, m, ReadPage(disk, b), b);
    }
  }

  function Cleaned(bufs: Buffers, b: BlockId): Buffers
    requires b in bufs
  {
    bufs[b := bufs[b].(txnum := -1, recLSN := NO_LSN)]
  }

  lemma FlushedFrames(log: Log, disk: Disk, bufs: Buffers, b: BlockId)
    requires FramesOk(log, disk, bufs) && b in bufs
    ensures FramesOk(log, disk[b := bufs[b].page], Cleaned(bufs, b))
    ensures forall c :: Read(disk[b := bufs[b].page], Cleaned(bufs, b), c) == Read(disk, bufs, c)
  {
    var disk', bufs' := disk[b := bufs[b].page], Cleaned(bufs, b);
    forall c | c in bufs' ensures FrameOk(log, disk', bufs'[c], c) {
      assert FrameOk(log, disk, bufs[c], c);
    }
  }

  lemma FlushBase(s: State, b: BlockId)
    requires Base(s) && FramesOk(s.log, s.disk, s.bufs) && CanFlushPage(s, b)
    ensures Base(DoFlushPage(s, b))
    ensures forall dpt :: DptSound(s.log, dpt, s.disk, |s.log|) ==>
                          DptSound(s.log, dpt, s.disk[b := s.bufs[b].page], |s.log|)
  {
    assert FrameOk(s.log, s.disk, s.bufs[b], b);
    DiskOkWeaken(s.log, s.durable, |s.log|, s.disk);
    DiskNotAhead(s.log, s.disk, s.bufs, b);
    BaseWritePage(s, b, s.bufs[b].page);
  }

  /** Reading the same pages, with no more dirty buffers than before. */
  lemma SameReads(log: Log, disk: Disk, bufs: Buffers, disk': Disk, bufs': Buffers, i: nat)
    requires forall c :: Read(disk', bufs', c) == Read(disk, bufs, c)
    requires forall c | c in bufs' && Dirty(bufs'[c]) :: c in bufs && bufs'[c] == bufs[c]
    ensures Current(log, disk, bufs) ==> Current(log, disk', bufs')
    ensures (forall c :: CaughtUp(log, disk, bufs, c, i)) ==> forall c :: CaughtUp(log, disk', bufs', c, i)
  {
    if forall c :: CaughtUp(log, disk, bufs, c, i) {
      forall c ensures CaughtUp(log, disk', bufs', c, i) {
        assert CaughtUp(log, disk, bufs, c, i);
      }
    }
  }

  function RedoPosition(s: State): nat { if s.mode.Redoing? then s.mode.next else 0 }

  lemma KeepFlushPage(s: State, b: BlockId)
    requires Inv(s) && CanFlushPage(s, b)
    ensures Inv(DoFlushPage(s, b))
  {
    var s' := DoFlushPage(s, b);
    FlushBase(s, b);
    FlushedFrames(s.log, s.disk, s.bufs, b);
    SameReads(s.log, s.disk, s.bufs, s'.disk, s'.bufs, RedoPosition(s));
  }

  /** Replacing the set of clean buffers changes nothing but what is resident. */
  lemma KeepResident(s: State, bufs': Buffers)
    requires Inv(s) && !s.mode.Down? && FramesOk(s.log, s.disk, bufs')
    requires forall c :: Read(s.disk, bufs', c) == Read(s.disk, s.bufs, c)
    requires forall c :: (c in bufs' && Dirty(bufs'[c])) <==> (c in s.bufs && Dirty(s.bufs[c]))
    requires forall c | c in s.bufs && Dirty(s.bufs[c]) :: bufs'[c] == s.bufs[c]
    ensures Inv(s.(bufs := bufs'))
  {
    SameReads(s.log, s.disk, s.bufs, s.disk, bufs', RedoPosition(s));
  }

  lemma KeepLoad(s: State, b: BlockId, stale: LSN)
    requires Inv(s) && !s.mode.Down? && b !in s.bufs
    ensures Inv(DoLoad(s, b, stale))
  {
    LoadFrames(s.log, s.disk, s.bufs, b, stale);
    KeepResident(s, DoLoad(s, b, stale).bufs);
  }

  lemma LoadFrames(log: Log, disk: Disk, bufs: Buffers, b: BlockId, stale: LSN)
    requires FramesOk(log, disk, bufs)
    ensures FramesOk(log, disk, bufs[b := Frame(ReadPage(disk, b), -1, NO_LSN, stale)])
  {
    var bufs' := bufs[b := Frame(ReadPage(disk, b), -1, NO_LSN, stale)];
    forall c | c in bufs' ensures FrameOk(log, disk, bufs'[c], c) {
      if c != b { assert FrameOk(log, disk, bufs[c], c); }
    }
  }

  lemma DropFrames(log: Log, disk: Disk, bufs: Buffers, b: BlockId)
    requires FramesOk(log, disk, bufs) && b in bufs && !Dirty(bufs[b])
    ensures FramesOk(log, disk, bufs - {b})
    ensures forall c :: Read(disk, bufs - {b}, c) == Read(disk, bufs, c)
  {
    assert FrameOk(log, disk, bufs[b], b);
    forall c | c in bufs - {b} ensures FrameOk(log, disk, (bufs - {b})[c], c) {
      assert FrameOk(log, disk, bufs[c], c);
    }
  }

  lemma KeepDrop(s: State, b: BlockId)
    requires Inv(s) && !s.mode.Down? && b in s.bufs && !Dirty(s.bufs[b])
    ensures Inv(s.(bufs := s.bufs - {b}))
  {
    DropFrames(s.log, s.disk, s.bufs, b);
    KeepResident(s, s.bufs - {b});
  }

  lemma KeepFlushLog(s: State)
    requires Inv(s) && !s.mode.Down?
    ensures Inv(s.(durable := |s.log|))
  {
    BaseFlushLog(s);
  }

  lemma KeepWriteCheckpointLSN(s: State, lsn: LSN)
    requires Inv(s) && CanWriteCheckpointLSN(s, lsn)
    ensures Inv(s.(ckptLSN := lsn))
  {
  }

  lemma KeepCrash(s: State)
    requires Inv(s) && s.durable <= |s.log|
    ensures Inv(DoCrash(s))
  {
    BaseCrash(s);
  }

  // ---------------------------------------------------------------- analysis and redo

  /** Records before the redo start are on disk already. */
  lemma RedoStartCovers(log: Log, disk: Disk, dpt: Dpt, b: BlockId)
    requires DptSound(log, dpt, disk, |log|) && DiskOk(log, |log|, disk)
    ensures 0 <= RedoStart(log, dpt) <= |log|
    ensures CaughtUp(log, disk, map[], b, RedoStart(log, dpt))
  {
    var i := RedoStart(log, dpt);
    if dpt != map[] {
      var c :| c in dpt && dpt[c] == MinRecLSN(dpt);
    }
    assert PageOk(log, |log|, ReadPage(disk, b), b);
    var m := Replay(log[..i], b).lsn;
    if m > ReadPage(disk, b).lsn {
      LsnIsRecord(log, i, b);
      assert Missing(log, disk, m - 1);
    }
  }

  lemma KeepAnalyze(s: State)
    requires Inv(s) && s.mode.Down?
    ensures Inv(DoAnalyze(s))
  {
    CheckpointAnalysisRefinesFullAnalysis(s.log, s.ckptLSN, s.disk);
    var dpt := Analyze(s.log, s.ckptLSN - 1).dpt;
    forall b ensures CaughtUp(s.log, s.disk, s.bufs, b, RedoStart(s.log, dpt)) {
      RedoStartCovers(s.log, s.disk, dpt, b);
    }
    RedoStartCovers(s.log, s.disk, dpt, BlockId([], 0));
  }

  /** A record of another block, or one that changes no page, needs nothing. */
  lemma CaughtUpOther(log: Log, disk: Disk, bufs: Buffers, b: BlockId, i: nat)
    requires i < |log| && CaughtUp(log, disk, bufs, b, i) && !log[i].Writes(b)
    ensures CaughtUp(log, disk, bufs, b, i + 1)
  {
    ReplayAt(log, i, b);
  }

  /** A record that redo passes over is already in the page. */
  lemma CaughtUpSkipped(s: State, dpt: Dpt, b: BlockId, i: nat)
    requires i < |s.log| && CaughtUp(s.log, s.disk, s.bufs, b, i) && s.log[i].Writes(b)
    requires FramesOk(s.log, s.disk, s.bufs) && DiskOk(s.log, |s.log|, s.disk)
    requires DptSound(s.log, dpt, s.disk, |s.log|) && !MustRedo(s, dpt, i)
    ensures CaughtUp(s.log, s.disk, s.bufs, b, i + 1)
  {
    DiskNotAhead(s.log, s.disk, s.bufs, b);
    assert !Missing(s.log, s.disk, i);
    ReplayAt(s.log, i, b);
  }

  /** A record that redo applies finds the page exactly as it was when the record was first written. */
  lemma RedoFindsPage(s: State, dpt: Dpt, b: BlockId, i: nat)
    requires i < |s.log| && CaughtUp(s.log, s.disk, s.bufs, b, i) && s.log[i].Writes(b)
    requires FramesOk(s.log, s.disk, s.bufs) && MustRedo(s, dpt, i) && b in s.bufs
    ensures s.bufs[b].page == Replay(s.log[..i], b)
    ensures FrameOk(s.log[..i], s.disk, s.bufs[b], b)
  {
    var fr := s.bufs[b];
    assert FrameOk(s.log, s.disk, fr, b);
    ReplayStable(s.log, fr.page.lsn, i, b);
    PrefixOfPrefix(s.log, fr.page.lsn, i);
    if Dirty(fr) { PrefixOfPrefix(s.log, fr.recLSN - 1, i); }
  }

  lemma FrameOkLonger(log: Log, n: nat, disk: Disk, fr: Frame, b: BlockId)
    requires n <= |log| && FrameOk(log[..n], disk, fr, b)
    ensures FrameOk(log, disk, fr, b)
  {
    if Dirty(fr) {
      PrefixOfPrefix(log, fr.page.lsn, n);
      PrefixOfPrefix(log, fr.recLSN - 1, n);
    }
  }

  lemma RedoApplied(s: State, dpt: Dpt, b: BlockId, i: nat, t: TxNum)
    requires i < |s.log| && CaughtUp(s.log, s.disk, s.bufs, b, i) && s.log[i].Writes(b)
    requires FramesOk(s.log, s.disk, s.bufs) && MustRedo(s, dpt, i) && b in s.bufs && t >= 0
    ensures var bufs' := Touch(s.bufs, b, s.log[i].fld, s.log[i].newVal, i + 1, t);
            && FrameOk(s.log, s.disk, bufs'[b], b)
            && CaughtUp(s.log, s.disk, bufs', b, i + 1)
  {
    var r := s.log[i];
    RedoFindsPage(s, dpt, b, i);
    ReplayAt(s.log, i, b);
    PrefixOfPrefix(s.log, i, i + 1);
    FrameTouched(s.log[..i], s.log[..i + 1], s.disk, s.bufs[b], b, r.fld, r.newVal, t);
    FrameOkLonger(s.log, i + 1, s.disk, Touch(s.bufs, b, r.fld, r.newVal, i + 1, t)[b], b);
  }

  lemma RedoSkipPages(s: State)
    requires s.mode.Redoing? && CanRedo(s) && !MustRedo(s, s.mode.tables.dpt, s.mode.next)
    requires RedoOk(s.log, s.disk, s.bufs, s.mode.next) && DiskOk(s.log, |s.log|, s.disk)
    requires DptSound(s.log, s.mode.tables.dpt, s.disk, |s.log|)
    ensures RedoOk(s.log, s.disk, s.bufs, s.mode.next + 1)
  {
    var i := s.mode.next;
    var j := i + 1;
    forall b ensures CaughtUp(s.log, s.disk, s.bufs, b, j) {
      assert CaughtUp(s.log, s.disk, s.bufs, b, i);
      if s.log[i].Writes(b) {
        CaughtUpSkipped(s, s.mode.tables.dpt, b, i);
      } else {
        CaughtUpOther(s.log, s.disk, s.bufs, b, i);
      }
    }
  }

  /** Logged page changes carry a transaction number. */
  lemma WriterKnown(log: Log, i: nat)
    requires WfLog(log) && i < |log| && log[i].Dirties()
    ensures log[i].txnum >= 0
  {
    WfAt(log, i);
    WfAllTxOk(log[..i]);
    TxFacts(log[..i], log[i].txnum);
  }

  lemma RedoPages(s: State)
    requires s.mode.Redoing? && CanRedo(s) && MustRedo(s, s.mode.tables.dpt, s.mode.next)
    requires RedoOk(s.log, s.disk, s.bufs, s.mode.next) && s.log[s.mode.next].txnum >= 0
    ensures RedoOk(s.log, s.disk, DoRedo(s).bufs, s.mode.next + 1)
  {
    var i, r := s.mode.next, s.log[s.mode.next];
    var j := i + 1;
    var bufs' := DoRedo(s).bufs;
    forall b ensures CaughtUp(s.log, s.disk, bufs', b, j) {
      assert CaughtUp(s.log, s.disk, s.bufs, b, i);
      if b == r.blk {
        RedoApplied(s, s.mode.tables.dpt, b, i, r.txnum);
      } else {
        CaughtUpOther(s.log, s.disk, s.bufs, b, i);
      }
    }
    forall b | b in bufs' ensures FrameOk(s.log, s.disk, bufs'[b], b) {
      assert CaughtUp(s.log, s.disk, s.bufs, b, i);
      if b == r.blk {
        RedoApplied(s, s.mode.tables.dpt, b, i, r.txnum);
      } else {
        assert FrameOk(s.log, s.disk, s.bufs[b], b);
      }
    }
  }

  lemma KeepRedo(s: State)
    requires Inv(s) && CanRedo(s)
    ensures Inv(DoRedo(s))
  {
    if MustRedo(s, s.mode.tables.dpt, s.mode.next) {
      WriterKnown(s.log, s.mode.next);
      RedoPages(s);
    } else {
      RedoSkipPages(s);
    }
  }

  /** Redo repeats history: when it is done every block reads as the replay of the whole durable log. */
  lemma RedoRepeatsHistory(s: State)
    requires Inv(s) && CanEndRedo(s)
    ensures forall b :: Content(s, b) == Replay(s.log, b)
  {
    assert s.log[..|s.log|] == s.log;
    forall b ensures Content(s, b) == Replay(s.log, b) {
      assert CaughtUp(s.log, s.disk, s.bufs, b, |s.log|);
      ReplayStable(s.log, Content(s, b).lsn, |s.log|, b);
    }
  }

  lemma LastWithinLog(log: Log)
    requires AllTxOk(log)
    ensures WinnersForced(AttOf(Views(log)), |log|)
  {
    var att := AttOf(Views(log));
    forall t | t in att ensures att[t].lastLSN <= |log| { TxFacts(log, t); }
  }

  lemma KeepEndRedo(s: State)
    requires Inv(s) && CanEndRedo(s)
    ensures Inv(DoEndRedo(s))
  {
    RedoRepeatsHistory(s);
    WfAllTxOk(s.log);
    LastWithinLog(s.log);
    forall b ensures Read(s.disk, s.bufs, b) == Replay(s.log, b) {
      assert Content(s, b) == Replay(s.log, b);
    }
  }

  // ---------------------------------------------------------------- undo

  /** A record that changes no page, written during the undo phase. */
  lemma UndoQuiet(s: State, r: Record)
    requires Base(s) && PagesOk(s.log, s.disk, s.bufs)
    requires WfLog(s.log + [r]) && EndAllowed(s.log, s.durable, r)
    requires !r.Dirties() && !r.CheckpointEnd?
    ensures Base(Append(s, r)) && PagesOk(s.log + [r], s.disk, s.bufs)
  {
    BaseAppend(s, r);
    PagesQuiet(s.log, r, s.disk, s.bufs);
  }

  lemma KeepEndWinner(s: State, t: TxNum)
    requires Inv(s) && CanEndWinner(s, t)
    ensures Inv(DoEndWinner(s, t))
  {
    var r := End(t, s.mode.tables.att[t].lastLSN);
    WfAllTxOk(s.log);
    CommitEndIsLegal(s.log, s.durable, s.mode.tables.att, s.rollbacks, t);
    UndoQuiet(s, r);
    TransactionsEnd(s.log, r, s.mode.tables.att, s.rollbacks);
    assert s.rollbacks - {t} == s.rollbacks;
  }

  /** A loser whose ABORT is in the log continues where its last record points. */
  lemma TransactionsResume(log: Log, att: Att, rollbacks: map<TxNum, Cursor>, t: TxNum)
    requires AllTxOk(log) && TransactionsOk(log, att, rollbacks)
    requires t in att && t !in rollbacks && att[t].status == Aborting
    ensures TransactionsOk(log, att, rollbacks[t := Cursor(att[t].lastLSN, att[t].lastLSN)])
  {
    TxFacts(log, t);
  }

  /** A loser without an ABORT gets one. */
  lemma UndoAborts(s: State, t: TxNum, att: Att)
    requires Base(s) && PagesOk(s.log, s.disk, s.bufs) && TransactionsOk(s.log, att, s.rollbacks)
    requires t in att && t !in s.rollbacks && att[t].status == Running
    ensures var r := Abort(t, att[t].lastLSN);
            && Base(Append(s, r)) && PagesOk(s.log + [r], s.disk, s.bufs)
            && TransactionsOk(s.log + [r], att, s.rollbacks[t := Cursor(att[t].lastLSN, |s.log| + 1)])
  {
    WfAllTxOk(s.log);
    RunningMayFinish(s.log, att, s.rollbacks, t);
    TransactionsAbort(s.log, att, s.rollbacks, t);
    UndoQuiet(s, Abort(t, att[t].lastLSN));
  }

  lemma KeepUndoRunning(s: State, t: TxNum)
    requires Inv(s) && CanUndo(s, t) && s.mode.tables.att[t].status == Running
    ensures Inv(DoUndo(s, t))
  {
    UndoAborts(s, t, s.mode.tables.att);
  }

  lemma KeepUndo(s: State, t: TxNum)
    requires Inv(s) && CanUndo(s, t)
    ensures Inv(DoUndo(s, t))
  {
    if s.mode.tables.att[t].status == Running {
      KeepUndoRunning(s, t);
    } else {
      WfAllTxOk(s.log);
      TransactionsResume(s.log, s.mode.tables.att, s.rollbacks, t);
    }
  }

  lemma KeepEndUndo(s: State, t: TxNum)
    requires Inv(s) && CanEndUndo(s, t)
    ensures Inv(DoEndUndo(s, t))
  {
    var r := End(t, s.rollbacks[t].lastLSN);
    RollbackEndIsLegal(s.log, s.durable, s.rollbacks, t);
    UndoQuiet(s, r);
    TransactionsEnd(s.log, r, s.mode.tables.att, s.rollbacks);
  }

  /** Nothing is outstanding once the rebuilt transaction table is empty. */
  lemma KeepFinish(s: State)
    requires Inv(s) && s.mode.Undoing? && s.mode.tables.att == map[]
    ensures Inv(DoFinish(s))
  {
    assert Views(s.log).Keys == {};
  }

  // ---------------------------------------------------------------- all of them

  predicate OfTransaction(a: Action) {
    a.AStart? || a.ASet? || a.ACommit? || a.AEndCommit? || a.AAbort? || a.ARollbackStep? || a.AEndRollback?
  }

  predicate OfRecovery(a: Action) {
    a.AAnalyze? || a.ARedo? || a.AEndRedo? || a.AEndWinner? || a.AUndo? || a.AEndUndo? || a.AFinish?
  }

  lemma TransactionsKeepInv(s: State, a: Action)
    requires Inv(s) && Enabled(s, a) && OfTransaction(a)
    ensures Inv(Do(s, a))
  {
    match a
    case AStart(t) => KeepStart(s, t);
    case ASet(t, b, f, v) => KeepSet(s, t, b, f, v);
    case ACommit(t) => KeepCommit(s, t);
    case AEndCommit(t) => KeepEndCommit(s, t);
    case AAbort(t) => KeepAbort(s, t);
    case ARollbackStep(t) => KeepRollbackStep(s, t);
    case AEndRollback(t) => KeepEndRollback(s, t);
    case _ =>
  }

  lemma RecoveryKeepsInv(s: State, a: Action)
    requires Inv(s) && Enabled(s, a) && OfRecovery(a)
    ensures Inv(Do(s, a))
  {
    match a
    case AAnalyze => KeepAnalyze(s);
    case ARedo => KeepRedo(s);
    case AEndRedo => KeepEndRedo(s);
    case AEndWinner(t) => KeepEndWinner(s, t);
    case AUndo(t) => KeepUndo(s, t);
    case AEndUndo(t) => KeepEndUndo(s, t);
    case AFinish => KeepFinish(s);
    case _ =>
  }

  lemma OthersKeepInv(s: State, a: Action)
    requires Inv(s) && Enabled(s, a) && !OfTransaction(a) && !OfRecovery(a)
    ensures Inv(Do(s, a))
  {
    match a
    case ACheckpointBegin => KeepCheckpointBegin(s);
    case ACheckpointEnd => KeepCheckpointEnd(s);
    case AWriteCheckpointLSN(lsn) => KeepWriteCheckpointLSN(s, lsn);
    case AFlushLog => KeepFlushLog(s);
    case AFlushPage(b) => KeepFlushPage(s, b);
    case ALoad(b, stale) => KeepLoad(s, b, stale);
    case ADrop(b) => KeepDrop(s, b);
    case ACrash => KeepCrash(s);
    case _ =>
  }

  lemma KeepsInv(s: State, a: Action)
    requires Inv(s) && Enabled(s, a)
    ensures Inv(Do(s, a))
  {
    if OfTransaction(a) { TransactionsKeepInv(s, a); }
    else if OfRecovery(a) { RecoveryKeepsInv(s, a); }
    else { OthersKeepInv(s, a); }
  }

  /** The invariant holds along every run. */
  lemma {:induction false} RunKeepsInv(s: State, acts: seq<Action>)
    requires Inv(s) && CanRun(s, acts)
    ensures Inv(Run(s, acts))
    decreases |acts|
  {
    if acts != [] {
      KeepsInv(s, acts[0]);
      RunKeepsInv(Do(s, acts[0]), acts[1..]);
    }
  }
}

/** Recover replaces the shared dirty page table by the one analysis built, which does not list pages that
    only undo made dirty.  A checkpoint taken then names a table that does not cover them, and the next
    crash loses the undo: one run showing it. */
module CheckpointCounterexample {
  import opened Storage
  import opened LogModel
  import opened Analysis
  import opened Machine
  import opened Runs
  import opened RunPieces

  const B := BlockId([], 0)
  const F := Field(0, Int32Kind)
  const WRITTEN := PageImage(2, map[F := Int32(7)])

  /** Transaction 1 wrote 7 over the zero of a field; the page went to disk, then a checkpoint. */
  const LOSER_LOG: Log := [
    Start(1),
    Update(1, 1, B, F, Int32(0), Int32(7)),
    CheckpointBegin,
    CheckpointEnd(3, map[1 := AttEntry(Running, 2)], map[])]

  const CRASHED := State(LOSER_LOG, 4, 3, map[B := WRITTEN], map[], map[], map[], map[], map[], Down, false)

  const UNDONE_LOG: Log :=
    LOSER_LOG + [Abort(1, 2)] + [Compensation(1, 5, B, F, Int32(7), Int32(0), 1)] + [End(1, 6)]

  /** After Recover: the undone page is dirty, the dirty page table empty. */
  const RECOVERED := State(UNDONE_LOG, 6, 3, map[B := WRITTEN],
                           map[B := Frame(PageImage(6, map[F := Int32(0)]), 1, 6, 6)],
                           map[], map[], map[], map[], Up, true)

  const LOST := DoCrash(Checkpointed(RECOVERED)).(mode := Up, recovered := true)

  const LOSER_ATT: Att := map[1 := AttEntry(Running, 2)]

  const DIRTIED := State([Start(1), Update(1, 1, B, F, Int32(0), Int32(7))], 0, 1, map[],
                         map[B := Frame(WRITTEN, 1, 2, 2)], LOSER_ATT, map[B := 2], map[], map[B := 1], Up, false)

  const FLUSHED := State(DIRTIED.log, 2, 1, map[B := WRITTEN], map[B := Frame(WRITTEN, -1, -1, 2)],
                         LOSER_ATT, map[], map[], map[B := 1], Up, false)

  lemma DirtiedReach()
    ensures Reaches(FRESH, DIRTIED)
  {
    var s := DoStart(FRESH, 1);
    ReachesStep(FRESH, AStart(1));
    ReachesThen(FRESH, s, ALoad(B, -1));
    s := DoLoad(s, B, -1);
    ReachesThen(FRESH, s, ASet(1, B, F, Int32(7)));
    s := DoSet(s, 1, B, F, Int32(7));
    assert s.bufs == DIRTIED.bufs && s.att == DIRTIED.att;
    assert s == DIRTIED;
  }

  lemma FlushedReach()
    ensures Reaches(FRESH, FLUSHED)
  {
    DirtiedReach();
    ReachesThen(FRESH, DIRTIED, AFlushLog);
    var s := DIRTIED.(durable := 2);
    ReachesThen(FRESH, s, AFlushPage(B));
    s := DoFlushPage(s, B);
    assert s.bufs == FLUSHED.bufs;
    assert s == FLUSHED;
  }

  lemma CrashedReach()
    ensures Reaches(FRESH, CRASHED)
  {
    FlushedReach();
    CheckpointReaches(FLUSHED, 2, 2);
    var s1 := Checkpointed(FLUSHED);
    ReachesTrans(FRESH, FLUSHED, s1);
    assert s1.log == LOSER_LOG;
    ReachesThen(FRESH, s1, ACrash);
    assert s1.log[..4] == LOSER_LOG;
  }

  lemma AnalyzedLoser()
    ensures Analyze(LOSER_LOG, 2) == Tables(map[1 := AttEntry(Running, 2)], map[])
  {
    AnalyzeSnoc(LOSER_LOG, 3, 2);
    AnalyzeSnoc(LOSER_LOG, 2, 2);
    assert LOSER_LOG[..4] == LOSER_LOG;
  }

  const UNDOING := State(LOSER_LOG + [Abort(1, 2)], 5, 3, map[B := WRITTEN],
                         map[B := Frame(WRITTEN, -1, -1, -1)], map[], map[],
                         map[1 := Cursor(2, 5)], map[], Undoing(Tables(map[1 := AttEntry(Running, 2)], map[])), false)

  lemma UndoingReach()
    ensures Reaches(CRASHED, UNDOING)
  {
    AnalyzedLoser();
    var s := DoAnalyze(CRASHED);
    ReachesStep(CRASHED, AAnalyze);
    ReachesThen(CRASHED, s, AEndRedo);
    s := DoEndRedo(s);
    ReachesThen(CRASHED, s, AUndo(1));
    s := DoUndo(s, 1);
    ReachesThen(CRASHED, s, AFlushLog);
    s := s.(durable := 5);
    ReachesThen(CRASHED, s, ALoad(B, -1));
    assert DoLoad(s, B, -1) == UNDOING;
  }

  const COMPENSATED := State(LOSER_LOG + [Abort(1, 2)] + [Compensation(1, 5, B, F, Int32(7), Int32(0), 1)], 6, 3,
                             map[B := WRITTEN], RECOVERED.bufs, map[], map[B := 6],
                             map[1 := Cursor(1, 6)], map[], UNDOING.mode, false)

  lemma CompensatedReach()
    ensures Reaches(UNDOING, COMPENSATED)
  {
    ReachesStep(UNDOING, ARollbackStep(1));
    var s := DoCompensate(UNDOING, 1);
    ReachesThen(UNDOING, s, AFlushLog);
    assert WRITTEN.fields[F := Int32(0)] == map[F := Int32(0)];
    assert s.bufs == COMPENSATED.bufs && s.rollbacks == COMPENSATED.rollbacks;
  }

  lemma RecoveredReach()
    ensures Reaches(CRASHED, RECOVERED)
  {
    UndoingReach();
    CompensatedReach();
    ReachesTrans(CRASHED, UNDOING, COMPENSATED);
    ReachesThen(CRASHED, COMPENSATED, AEndUndo(1));
    var s := DoEndUndo(COMPENSATED, 1);
    assert s.mode.tables.att == map[];
    ReachesThen(CRASHED, s, AFinish);
    assert DoFinish(s) == RECOVERED;
  }

  lemma LostReach()
    ensures Reaches(DoCrash(Checkpointed(RECOVERED)), LOST)
  {
    var c := DoCrash(Checkpointed(RECOVERED));
    assert c.log == UNDONE_LOG + [CheckpointBegin] + [CheckpointEnd(8, map[], map[])];
    AnalyzeSnoc(c.log, 8, 7);
    AnalyzeSnoc(c.log, 7, 7);
    assert c.log[..9] == c.log;
    assert Analyze(c.log, 7) == Tables(map[], map[]);
    var s := DoAnalyze(c);
    ReachesStep(c, AAnalyze);
    ReachesThen(c, s, AEndRedo);
    s := DoEndRedo(s);
    ReachesThen(c, s, AFinish);
    assert DoFinish(s) == LOST;
  }

  lemma {:induction false} NobodyCommitted(log: Log, i: nat, t: TxNum)
    requires i <= |log| && forall k | 0 <= k < |log| :: !log[k].Commit?
    ensures !CommitsFrom(log, i, t)
    decreases |log| - i
  {
    if i < |log| { NobodyCommitted(log, i + 1, t); }
  }

  lemma {:induction false} NothingCommitted(log: Log, n: nat, b: BlockId, f: Field)
    requires n <= |log| && forall k | 0 <= k < |log| :: !log[k].Commit?
    ensures CommittedVal(log, n, b, f) == ZeroOf(f.kind)
  {
    if n > 0 {
      if log[n - 1].Update? { NobodyCommitted(log, n, log[n - 1].txnum); }
      NothingCommitted(log, n - 1, b, f);
    }
  }

  /** A reachable store, a checkpoint that was not covered, a crash, a completed recovery: the field
      reads 7 although nobody ever committed. */
  lemma CheckpointAfterRecoverLosesUndo()
    ensures Reaches(FRESH, RECOVERED) && RECOVERED.mode.Up? && RECOVERED.rollbacks == map[]
    ensures !DptCovers(RECOVERED)
    ensures Reaches(DoCrash(Checkpointed(RECOVERED)), LOST) && LOST.mode.Up? && LOST.att == map[]
    ensures Content(LOST, B).Get(F) == Int32(7) && CommittedValue(Checkpointed(RECOVERED).log, B, F) == Int32(0)
  {
    CrashedReach();
    RecoveredReach();
    ReachesTrans(FRESH, CRASHED, RECOVERED);
    LostReach();
    assert B in RECOVERED.bufs && Dirty(RECOVERED.bufs[B]);
    NothingCommitted(Checkpointed(RECOVERED).log, 9, B, F);
  }
}

/** What a checkpoint is worth: redo from it restores every page exactly if the table it records covers every
    dirty buffer. */
module CheckpointNecessity {
  import opened Storage
  import opened LogModel
  import opened LogLemmas
  import opened ReplayLemmas
  import opened Analysis
  import opened Machine
  import opened Invariant
  import opened InvariantRecovery
  import opened Runs
  import opened RunPieces

  // ---------------------------------------------------------------- listed too late never happens

  /** The dirty page table that counts: the shared one, or the one recovery is rebuilding. */
  function TableOf(s: State): Dpt {
    match s.mode
    case Up => s.dpt
    case Down => map[]
    case Redoing(_, tables) => tables.dpt
    case Undoing(tables) => tables.dpt
  }

  /** A dirty buffer that is listed is listed no later than its first change. */
  ghost predicate Early(bufs: Buffers, dpt: Dpt) {
    forall b | b in bufs && Dirty(bufs[b]) && b in dpt :: dpt[b] <= bufs[b].recLSN
  }

  ghost predicate CleanFrames(bufs: Buffers) {
    forall b | b in bufs && !Dirty(bufs[b]) :: bufs[b].recLSN == NO_LSN
  }

  lemma CleanFramesOf(log: Log, disk: Disk, bufs: Buffers)
    requires FramesOk(log, disk, bufs)
    ensures CleanFrames(bufs)
  {
    forall b | b in bufs && !Dirty(bufs[b]) ensures bufs[b].recLSN == NO_LSN { assert FrameOk(log, disk, bufs[b], b); }
  }

  lemma EarlyTouched(bufs: Buffers, dpt: Dpt, b: BlockId, f: Field, v: Value, lsn: LSN, t: TxNum)
    requires Early(bufs, dpt) && CleanFrames(bufs) && b in bufs && (b in dpt ==> dpt[b] <= lsn)
    ensures Early(Touch(bufs, b, f, v, lsn, t), dpt)
    ensures Early(Touch(bufs, b, f, v, lsn, t), TouchDpt(bufs, dpt, b, lsn))
  {
  }

  /** What is known of a state when the next action is taken. */
  ghost predicate EarlyOk(s: State) {
    && Early(s.bufs, TableOf(s)) && CleanFrames(s.bufs)
    && (s.mode.Up? || s.mode.Undoing? ==> DptBounded(s.log, TableOf(s)))
    && (s.mode.Down? ==> s.bufs == map[])
  }

  lemma EarlyOkOf(s: State)
    requires Inv(s) && Early(s.bufs, TableOf(s))
    ensures EarlyOk(s)
  {
    if !s.mode.Down? { CleanFramesOf(s.log, s.disk, s.bufs); }
  }

  lemma EarlySet(s: State, t: TxNum, b: BlockId, f: Field, v: Value)
    requires EarlyOk(s) && CanSet(s, t, b, f, v)
    ensures Early(DoSet(s, t, b, f, v).bufs, DoSet(s, t, b, f, v).dpt)
  {
    EarlyTouched(s.bufs, s.dpt, b, f, v, NextLSN(s), t);
  }

  lemma EarlyCompensate(s: State, t: TxNum)
    requires EarlyOk(s) && CanCompensate(s, t)
    ensures Early(DoCompensate(s, t).bufs, TableOf(DoCompensate(s, t)))
  {
    var r := ClrFor(s, t);
    EarlyTouched(s.bufs, TableOf(s), r.blk, r.fld, r.newVal, NextLSN(s), t);
  }

  lemma EarlyRedo(s: State)
    requires EarlyOk(s) && CanRedo(s) && MustRedo(s, s.mode.tables.dpt, s.mode.next)
    ensures Early(DoRedo(s).bufs, TableOf(DoRedo(s)))
  {
    var r := s.log[s.mode.next];
    EarlyTouched(s.bufs, TableOf(s), r.blk, r.fld, r.newVal, s.mode.next + 1, r.txnum);
  }

  lemma EarlyRollbackStep(s: State, t: TxNum)
    requires EarlyOk(s) && CanRollbackStep(s, t)
    ensures Early(DoRollbackStep(s, t).bufs, TableOf(DoRollbackStep(s, t)))
  {
    if CanCompensate(s, t) { EarlyCompensate(s, t); }
  }

  lemma TransactionsKeepEarly(s: State, a: Action)
    requires EarlyOk(s) && Enabled(s, a) && OfTransaction(a)
    ensures Early(Do(s, a).bufs, TableOf(Do(s, a)))
  {
    match a
    case ASet(t, b, f, v) => EarlySet(s, t, b, f, v);
    case ARollbackStep(t) => EarlyRollbackStep(s, t);
    case _ =>
  }

  lemma EarlyRedoStep(s: State)
    requires EarlyOk(s) && CanRedo(s)
    ensures Early(DoRedo(s).bufs, TableOf(DoRedo(s)))
  {
    if MustRedo(s, s.mode.tables.dpt, s.mode.next) { EarlyRedo(s); }
  }

  lemma EarlyUndoStart(s: State, t: TxNum)
    requires EarlyOk(s) && CanUndo(s, t)
    ensures Early(DoUndo(s, t).bufs, TableOf(DoUndo(s, t)))
  {
  }

  lemma RecoveryKeepsEarly(s: State, a: Action)
    requires EarlyOk(s) && Enabled(s, a) && OfRecovery(a)
    ensures Early(Do(s, a).bufs, TableOf(Do(s, a)))
  {
    match a
    case ARedo => EarlyRedoStep(s);
    case AUndo(t) => EarlyUndoStart(s, t);
    case _ =>
  }

  lemma OthersKeepEarly(s: State, a: Action)
    requires EarlyOk(s) && Enabled(s, a) && !OfTransaction(a) && !OfRecovery(a)
    ensures Early(Do(s, a).bufs, TableOf(Do(s, a)))
  {
  }

  lemma KeepsEarly(s: State, a: Action)
    requires EarlyOk(s) && Enabled(s, a)
    ensures Early(Do(s, a).bufs, TableOf(Do(s, a)))
  {
    if OfTransaction(a) { TransactionsKeepEarly(s, a); }
    else if OfRecovery(a) { RecoveryKeepsEarly(s, a); }
    else { OthersKeepEarly(s, a); }
  }

  lemma ReachedEarly(s: State)
    requires Reaches(FRESH, s)
    ensures Inv(s) && Early(s.bufs, TableOf(s))
  {
    ReachedInv(s);
    ReachedInv(FRESH);
    var p: State -> bool := x => Inv(x) && Early(x.bufs, TableOf(x));
    assert p(FRESH);
    forall x, a | p(x) && Enabled(x, a) ensures p(Do(x, a)) {
      KeepsInv(x, a);
      EarlyOkOf(x);
      KeepsEarly(x, a);
    }
    assert p(s);
  }

  /** So what is not covered is not listed at all, and on disk it is behind. */
  lemma UncoveredIsUnlisted(s: State) returns (b: BlockId)
    requires Reaches(FRESH, s) && s.mode.Up? && !DptCovers(s)
    ensures b in s.bufs && Dirty(s.bufs[b]) && b !in s.dpt
    ensures ReadPage(s.disk, b).lsn < Replay(s.log, b).lsn
  {
    ReachedEarly(s);
    b :| b in s.bufs && Dirty(s.bufs[b]) && !(b in s.dpt && s.dpt[b] <= s.bufs[b].recLSN);
    assert FrameOk(s.log, s.disk, s.bufs[b], b);
    DiskBehind(s.log, s.disk, s.bufs[b], b);
  }

  lemma DiskBehind(log: Log, disk: Disk, fr: Frame, b: BlockId)
    requires FrameOk(log, disk, fr, b) && Dirty(fr)
    ensures ReadPage(disk, b).lsn < Replay(log, b).lsn
  {
    LsnBounds(log, fr.recLSN - 1, b);
    assert log[..|log|] == log;
    LsnCoversRecord(log, fr.recLSN - 1, |log|, b);
  }

  // ---------------------------------------------------------------- the way to the end of redo

  /** Analysis and redo after a crash, and again after further crashes, until redo is at its end. */
  predicate RedoRun(s: State, acts: seq<Action>)
    decreases |acts|
  {
    && (s.mode.Down? || s.mode.Redoing?)
    && if acts == [] then CanEndRedo(s) else Enabled(s, acts[0]) && RedoRun(Do(s, acts[0]), acts[1..])
  }

  lemma {:induction false} RedoRunIsRun(s: State, acts: seq<Action>)
    requires RedoRun(s, acts)
    ensures CanRun(s, acts) && CanEndRedo(Run(s, acts))
    decreases |acts|
  {
    if acts != [] { RedoRunIsRun(Do(s, acts[0]), acts[1..]); }
  }

  /** Block `b` is at its page on disk, and analysis does not list it. */
  ghost predicate Stuck(log: Log, lsn: LSN, b: BlockId, d: PageImage, s: State) {
    && s.log == log && s.ckptLSN == lsn && s.durable == |log| && ReadPage(s.disk, b) == d
    && match s.mode
       case Down => s.bufs == map[]
       case Redoing(i, tables) => b !in tables.dpt && (b in s.bufs ==> !Dirty(s.bufs[b]) && s.bufs[b].page == d)
       case _ => false
  }

  lemma StuckRedo(log: Log, lsn: LSN, b: BlockId, d: PageImage, s: State)
    requires Stuck(log, lsn, b, d, s) && CanRedo(s)
    ensures Stuck(log, lsn, b, d, DoRedo(s))
  {
  }

  lemma StuckAnalyze(log: Log, lsn: LSN, b: BlockId, d: PageImage, s: State)
    requires Stuck(log, lsn, b, d, s) && s.mode.Down? && lsn >= 1 && b !in Analyze(log, lsn - 1).dpt
    ensures Stuck(log, lsn, b, d, DoAnalyze(s))
  {
  }

  lemma StuckPages(log: Log, lsn: LSN, b: BlockId, d: PageImage, s: State, a: Action)
    requires Stuck(log, lsn, b, d, s) && Enabled(s, a)
    requires a.AFlushPage? || a.ALoad? || a.ADrop? || a.AFlushLog? || a.ACrash?
    ensures Stuck(log, lsn, b, d, Do(s, a))
  {
    assert s.log[..|log|] == s.log;
  }

  lemma StaysStuck(log: Log, lsn: LSN, b: BlockId, d: PageImage, s: State, a: Action)
    requires Stuck(log, lsn, b, d, s) && Enabled(s, a) && lsn >= 1 && b !in Analyze(log, lsn - 1).dpt
    requires Do(s, a).mode.Down? || Do(s, a).mode.Redoing?
    ensures Stuck(log, lsn, b, d, Do(s, a))
  {
    match a
    case ARedo => StuckRedo(log, lsn, b, d, s);
    case AAnalyze => StuckAnalyze(log, lsn, b, d, s);
    case AFlushPage(_) => StuckPages(log, lsn, b, d, s, a);
    case ALoad(_, _) => StuckPages(log, lsn, b, d, s, a);
    case ADrop(_) => StuckPages(log, lsn, b, d, s, a);
    case AFlushLog => StuckPages(log, lsn, b, d, s, a);
    case ACrash => StuckPages(log, lsn, b, d, s, a);
    case _ =>
  }

  lemma {:induction false} StuckToTheEnd(log: Log, lsn: LSN, b: BlockId, d: PageImage, s: State, acts: seq<Action>)
    requires Stuck(log, lsn, b, d, s) && lsn >= 1 && b !in Analyze(log, lsn - 1).dpt && RedoRun(s, acts)
    ensures CanRun(s, acts) && Run(s, acts).log == log && Content(Run(s, acts), b) == d
    decreases |acts|
  {
    if acts != [] {
      StaysStuck(log, lsn, b, d, s, acts[0]);
      StuckToTheEnd(log, lsn, b, d, Do(s, acts[0]), acts[1..]);
    }
  }

  // ---------------------------------------------------------------- the exact condition

  /** Analysis starting at the checkpoint finds the table the checkpoint recorded. */
  lemma CheckpointedTable(s: State)
    ensures var c := Checkpointed(s);
            && 1 <= c.ckptLSN < |c.log| && Analyze(c.log, c.ckptLSN - 1).dpt == s.dpt
            && forall b :: Replay(c.log, b) == Replay(s.log, b)
  {
    var log, n := Checkpointed(s).log, |s.log| + 1;
    Snoc(s.log, CheckpointBegin);
    Snoc(s.log + [CheckpointBegin], CheckpointEnd(n, s.att, s.dpt));
    assert log[n - 1] == CheckpointBegin && log[n] == CheckpointEnd(n, s.att, s.dpt);
    AnalyzeSnoc(log, n, n - 1);
    AnalyzeSnoc(log, n - 1, n - 1);
    assert log[..n + 1] == log;
  }

  /** Take a checkpoint in any reachable state without a rollback in progress, crash, and recover up to the end of
      redo, with further crashes on the way: every block then shows the whole log if and only if the shared
      dirty page table covered every dirty buffer at the checkpoint. */
  lemma CheckpointServesRedoIffCovered(before: seq<Action>, after: seq<Action>)
    requires CanRun(FRESH, before) && Run(FRESH, before).mode.Up? && Run(FRESH, before).rollbacks == map[]
    requires RedoRun(DoCrash(Checkpointed(Run(FRESH, before))), after)
    ensures var s := Run(FRESH, before);
            var c := DoCrash(Checkpointed(s));
            && CanRun(c, after)
            && (DptCovers(s) <==> forall b :: Content(Run(c, after), b) == Replay(Run(c, after).log, b))
  {
    var s := Run(FRESH, before);
    RunReaches(FRESH, before);
    RedoRunIsRun(DoCrash(Checkpointed(s)), after);
    if DptCovers(s) { CoveredServes(s, after); } else { UncoveredFails(s, after); }
  }

  lemma CoveredServes(s: State, after: seq<Action>)
    requires Reaches(FRESH, s) && s.mode.Up? && s.rollbacks == map[] && DptCovers(s)
    requires RedoRun(DoCrash(Checkpointed(s)), after)
    ensures var c := DoCrash(Checkpointed(s));
            CanRun(c, after) && forall b :: Content(Run(c, after), b) == Replay(Run(c, after).log, b)
  {
    var c := DoCrash(Checkpointed(s));
    CheckpointReaches(s, s.durable, s.durable);
    ReachesTrans(FRESH, s, Checkpointed(s));
    ReachesThen(FRESH, Checkpointed(s), ACrash);
    RedoRunIsRun(c, after);
    RunReaches(c, after);
    ReachesTrans(FRESH, c, Run(c, after));
    ReachedInv(Run(c, after));
    RedoRepeatsHistory(Run(c, after));
  }

  lemma UncoveredFails(s: State, after: seq<Action>)
    requires Reaches(FRESH, s) && s.mode.Up? && !DptCovers(s)
    requires RedoRun(DoCrash(Checkpointed(s)), after)
    ensures var c := DoCrash(Checkpointed(s));
            CanRun(c, after) && exists b :: Content(Run(c, after), b) != Replay(Run(c, after).log, b)
  {
    var c := DoCrash(Checkpointed(s));
    var b := UncoveredIsUnlisted(s);
    CheckpointedTable(s);
    assert c.log == Checkpointed(s).log;
    StuckToTheEnd(c.log, c.ckptLSN, b, ReadPage(s.disk, b), c, after);
    assert Content(Run(c, after), b) != Replay(Run(c, after).log, b);
  }
}

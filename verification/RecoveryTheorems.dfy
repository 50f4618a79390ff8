/** What recovery promises, for every run of the store. */
module RecoveryTheorems {
  import opened Storage
  import opened LogModel
  import opened LogLemmas
  import opened ReplayLemmas
  import opened CommittedLemmas
  import opened Analysis
  import opened UndoLemmas
  import opened Machine
  import opened Invariant
  import opened InvariantKept
  import opened InvariantRecovery

  // ---------------------------------------------------------------- crash recovery

  /** `acts` takes a crashed store back into service: it is down or recovering all the way (further
      crashes may interrupt it) and up at the end. */
  predicate Restarts(s: State, acts: seq<Action>)
    decreases |acts|
  {
    && acts != [] && !s.mode.Up? && Enabled(s, acts[0])
    && var s' := Do(s, acts[0]);
    if |acts| == 1 then s'.mode.Up? else Restarts(s', acts[1..])
  }

  function Restarted(s: State, acts: seq<Action>): State
    requires Restarts(s, acts)
    decreases |acts|
  {
    var s' := Do(s, acts[0]);
    if |acts| == 1 then s' else Restarted(s', acts[1..])
  }

  /** Since the log was `base` nothing of it was lost and nobody committed. */
  ghost predicate OnlyUndone(base: Log, s: State) {
    && |base| <= s.durable <= |s.log| && s.log[..|base|] == base
    && forall i | |base| <= i < |s.log| :: !s.log[i].Commit?
  }

  lemma {:induction false} CommittedUnchanged(base: Log, log: Log, b: BlockId, f: Field)
    requires |base| <= |log| && log[..|base|] == base
    requires forall i | |base| <= i < |log| :: !log[i].Commit?
    ensures CommittedValue(log, b, f) == CommittedValue(base, b, f)
    decreases |log|
  {
    if |log| == |base| {
      assert log == base;
    } else {
      SplitLast(log);
      assert Init(log)[..|base|] == base;
      CommittedUnchanged(base, Init(log), b, f);
      CommittedUnlessCommit(Init(log), Last(log), b, f);
    }
  }

  /** What an action outside normal operation can do to the log: nothing, cut it to its durable part, or
      append a record that is not a COMMIT. */
  ghost predicate LogStep(s: State, s': State) {
    || (s'.log == s.log && s.durable <= s'.durable <= |s.log|)
    || (s.durable <= |s.log| && s'.log == s.log[..s.durable] && s'.durable == s.durable)
    || (s'.durable == s.durable && exists r :: s'.log == s.log + [r] && !r.Commit?)
  }

  lemma AppendIsLogStep(s: State, s': State, r: Record)
    requires s'.log == s.log + [r] && !r.Commit? && s'.durable == s.durable
    ensures LogStep(s, s')
  {
  }

  lemma RollbackLogStep(s: State, t: TxNum)
    requires CanRollbackStep(s, t) && s.durable <= |s.log|
    ensures LogStep(s, DoRollbackStep(s, t))
  {
    if CanCompensate(s, t) { AppendIsLogStep(s, DoCompensate(s, t), ClrFor(s, t)); }
  }

  lemma UndoLogStep(s: State, t: TxNum)
    requires CanUndo(s, t) && s.durable <= |s.log|
    ensures LogStep(s, DoUndo(s, t))
  {
    if s.mode.tables.att[t].status == Running {
      AppendIsLogStep(s, DoUndo(s, t), Abort(t, s.mode.tables.att[t].lastLSN));
    }
  }

  lemma RecoveryLogStep(s: State, a: Action)
    requires !s.mode.Up? && Enabled(s, a) && s.durable <= |s.log|
    ensures LogStep(s, Do(s, a))
  {
    match a
    case ARollbackStep(t) => RollbackLogStep(s, t);
    case AEndWinner(t) => AppendIsLogStep(s, DoEndWinner(s, t), End(t, s.mode.tables.att[t].lastLSN));
    case AUndo(t) => UndoLogStep(s, t);
    case AEndUndo(t) => AppendIsLogStep(s, DoEndUndo(s, t), End(t, s.rollbacks[t].lastLSN));
    case _ =>
  }

  lemma RecoveryOnlyUndoes(base: Log, s: State, s': State)
    requires LogStep(s, s') && OnlyUndone(base, s)
    ensures OnlyUndone(base, s')
  {
    assert s'.log[..|base|] == s.log[..|base|];
  }

  /** With no unfinished transaction every field reads as its committed value. */
  lemma QuietReadsCommitted(s: State, b: BlockId, f: Field)
    requires Inv(s) && s.mode.Up? && s.att == map[]
    ensures Content(s, b).Get(f) == CommittedValue(s.log, b, f)
  {
    WfSettled(s.log, b, f);
    assert Views(s.log).Keys == {};
    assert NonePending(s.log, b, f);
    assert Read(s.disk, s.bufs, b) == Replay(s.log, b);
  }

  lemma FinishReadsCommitted(base: Log, s: State)
    requires Inv(s) && OnlyUndone(base, s) && s.mode.Up? && s.att == map[]
    ensures forall b, f :: Content(s, b).Get(f) == CommittedValue(base, b, f)
  {
    forall b, f ensures Content(s, b).Get(f) == CommittedValue(base, b, f) {
      QuietReadsCommitted(s, b, f);
      CommittedUnchanged(base, s.log, b, f);
    }
  }

  lemma RollbackStepKeepsMode(s: State, t: TxNum)
    requires CanRollbackStep(s, t)
    ensures DoRollbackStep(s, t).mode == s.mode
  {
  }

  lemma RedoStaysDown(s: State)
    requires CanRedo(s)
    ensures DoRedo(s).mode.Redoing?
  {
  }

  lemma RecoveryActionsStayDown(s: State, a: Action)
    requires !s.mode.Up? && Enabled(s, a) && OfRecovery(a) && !a.AFinish?
    ensures !Do(s, a).mode.Up?
  {
    if a.ARedo? { RedoStaysDown(s); }
  }

  lemma OtherActionsStayDown(s: State, a: Action)
    requires !s.mode.Up? && Enabled(s, a) && !OfRecovery(a) && !a.AFinish?
    ensures !Do(s, a).mode.Up?
  {
    if a.ARollbackStep? { RollbackStepKeepsMode(s, a.t); }
  }

  /** Only finishing recovery brings the store up, with an empty transaction table. */
  lemma UpAfterFinish(s: State, a: Action)
    requires !s.mode.Up? && Enabled(s, a) && Do(s, a).mode.Up?
    ensures a.AFinish? && Do(s, a).att == map[]
  {
    if !a.AFinish? {
      if OfRecovery(a) { RecoveryActionsStayDown(s, a); } else { OtherActionsStayDown(s, a); }
    }
  }

  lemma {:induction false} RestartReadsCommitted(base: Log, s: State, acts: seq<Action>)
    requires Inv(s) && OnlyUndone(base, s) && Restarts(s, acts)
    ensures Restarted(s, acts).att == map[]
    ensures forall b, f :: Content(Restarted(s, acts), b).Get(f) == CommittedValue(base, b, f)
    decreases |acts|
  {
    var s' := Do(s, acts[0]);
    KeepsInv(s, acts[0]);
    RecoveryLogStep(s, acts[0]);
    RecoveryOnlyUndoes(base, s, s');
    if |acts| == 1 {
      UpAfterFinish(s, acts[0]);
      FinishReadsCommitted(base, s');
    } else {
      RestartReadsCommitted(base, s', acts[1..]);
    }
  }

  /** Crash recovery.  Run a fresh store in any way, crash it at any point, and recover it, crashing
      again any number of times on the way: every field then reads as the replay, in log order, of
      exactly the updates whose transaction's COMMIT was on disk at the first crash. */
  lemma CrashRecovery(before: seq<Action>, after: seq<Action>)
    requires CanRun(FRESH, before)
    requires Run(FRESH, before).durable <= |Run(FRESH, before).log|
    requires Restarts(DoCrash(Run(FRESH, before)), after)
    ensures var s := Run(FRESH, before);
            var u := Restarted(DoCrash(s), after);
            && u.att == map[]
            && forall b, f :: Content(u, b).Get(f) == CommittedValue(s.log[..s.durable], b, f)
  {
    var s := Run(FRESH, before);
    FreshOk();
    RunKeepsInv(FRESH, before);
    KeepCrash(s);
    var c := DoCrash(s);
    assert c.log[..|c.log|] == c.log;
    RestartReadsCommitted(c.log, c, after);
  }

  // ---------------------------------------------------------------- the phases of recovery

  /** After any crash, scanning from the checkpoint the header names gives the transaction table of a scan of
      the whole log, and a dirty page table from which redo reaches every change missing on disk. */
  lemma AnalysisAfterCrash(acts: seq<Action>)
    requires CanRun(FRESH, acts) && Run(FRESH, acts).mode.Down?
    ensures var s := Run(FRESH, acts);
            && ScanStart(s.log, s.ckptLSN)
            && Analyze(s.log, s.ckptLSN - 1).att == Analyze(s.log, 0).att == AttOf(Views(s.log))
            && DptSound(s.log, Analyze(s.log, s.ckptLSN - 1).dpt, s.disk, |s.log|)
  {
    FreshOk();
    RunKeepsInv(FRESH, acts);
    var s := Run(FRESH, acts);
    CheckpointAnalysisRefinesFullAnalysis(s.log, s.ckptLSN, s.disk);
  }

  /** Whatever redo skipped because of the dirty page table, a recLSN or the LSN of a page on disk, and
      whatever was evicted meanwhile: at its end every block reads as the replay of the whole log. */
  lemma RedoneIsReplayed(acts: seq<Action>)
    requires CanRun(FRESH, acts) && CanEndRedo(Run(FRESH, acts))
    ensures var s := Run(FRESH, acts); forall b :: Content(s, b) == Replay(s.log, b)
  {
    FreshOk();
    RunKeepsInv(FRESH, acts);
    RedoRepeatsHistory(Run(FRESH, acts));
  }

  // ---------------------------------------------------------------- undo exactly once

  /** However often recovery or a rollback is interrupted: once a transaction that did not commit has
      ended, each of its updates has been compensated by exactly one record. */
  lemma LoserUpdatesCompensatedOnce(acts: seq<Action>, u: nat, e: nat)
    requires CanRun(FRESH, acts)
    requires var log := Run(FRESH, acts).log;
             && u < e < |log| && log[u].Update? && log[e].End? && log[e].txnum == log[u].txnum
             && forall k | u < k < e && log[k].OfTx(log[u].txnum) :: !log[k].Start? && !log[k].Commit?
    ensures CompensationCount(Run(FRESH, acts).log[..e], u) == 1
  {
    FreshOk();
    RunKeepsInv(FRESH, acts);
    OneCompensationPerLoserUpdate(Run(FRESH, acts).log, u, e);
  }

  // ---------------------------------------------------------------- write-ahead rule

  /** In every reachable state a page on disk shows exactly the log up to its pageLSN, which is on disk,
      and a transaction that left the table by committing has its COMMIT on disk. */
  lemma WriteAheadRule(acts: seq<Action>)
    requires CanRun(FRESH, acts)
    ensures var s := Run(FRESH, acts);
            && s.durable <= |s.log|
            && (forall b :: PageOk(s.log, s.durable, ReadPage(s.disk, b), b))
            && CommitsForced(s.log, s.durable)
  {
    FreshOk();
    RunKeepsInv(FRESH, acts);
  }

  // ---------------------------------------------------------------- dirty tracking

  /** In a process that never ran Recover, a block is in the dirty page table exactly when its buffer
      holds changes not yet on disk, with the buffer's recLSN, and the page on disk is the replay of the
      records before that LSN. */
  lemma DirtyTracking(acts: seq<Action>, b: BlockId)
    requires CanRun(FRESH, acts) && Run(FRESH, acts).mode.Up? && !Run(FRESH, acts).recovered
    ensures var s := Run(FRESH, acts);
            && (b in s.dpt <==> ReadPage(s.disk, b) != Content(s, b))
            && (b in s.dpt ==>
                  && b in s.bufs && s.dpt[b] == s.bufs[b].recLSN && 1 <= s.dpt[b] <= |s.log|
                  && s.log[s.dpt[b] - 1].Writes(b)
                  && ReadPage(s.disk, b) == Replay(s.log[..s.dpt[b] - 1], b))
  {
    FreshOk();
    RunKeepsInv(FRESH, acts);
    var s := Run(FRESH, acts);
    DirtyIsListed(s.log, s.disk, s.bufs, s.dpt, b);
  }

  lemma DirtyIsListed(log: Log, disk: Disk, bufs: Buffers, dpt: Dpt, b: BlockId)
    requires PagesOk(log, disk, bufs) && DptOk(log, bufs, dpt, false)
    ensures b in dpt <==> ReadPage(disk, b) != Read(disk, bufs, b)
    ensures b in dpt ==>
              && b in bufs && dpt[b] == bufs[b].recLSN && 1 <= dpt[b] <= |log|
              && log[dpt[b] - 1].Writes(b)
              && ReadPage(disk, b) == Replay(log[..dpt[b] - 1], b)
  {
    if b in bufs {
      assert FrameOk(log, disk, bufs[b], b);
      if Dirty(bufs[b]) { LsnBounds(log, bufs[b].recLSN - 1, b); }
    }
  }

  // ---------------------------------------------------------------- what the dirty page table lists

  /** Before any Recover in the process the shared table covers every dirty buffer. */
  lemma CoversBeforeRecover(acts: seq<Action>)
    requires CanRun(FRESH, acts) && Run(FRESH, acts).mode.Up? && !Run(FRESH, acts).recovered
    ensures DptCovers(Run(FRESH, acts))
  {
    FreshOk();
    RunKeepsInv(FRESH, acts);
  }

  /** The table lists every page change that is missing on disk, no later than the change. */
  ghost predicate ListsMissing(s: State) {
    forall i | 0 <= i < |s.log| && Missing(s.log, s.disk, i) ::
      s.log[i].blk in s.dpt && s.dpt[s.log[i].blk] <= i + 1
  }

  lemma CoveredListsMissing(s: State)
    requires PagesOk(s.log, s.disk, s.bufs) && DptCovers(s)
    ensures ListsMissing(s)
  {
    forall i | 0 <= i < |s.log| && Missing(s.log, s.disk, i)
      ensures s.log[i].blk in s.dpt && s.dpt[s.log[i].blk] <= i + 1
    {
      MissingIsBuffered(s.log, s.disk, s.bufs, i);
    }
  }

  /** The first change of a dirty buffer is missing on disk. */
  lemma FirstChangeMissing(log: Log, disk: Disk, fr: Frame, b: BlockId)
    requires FrameOk(log, disk, fr, b) && Dirty(fr)
    ensures 1 <= fr.recLSN <= |log| && Missing(log, disk, fr.recLSN - 1) && log[fr.recLSN - 1].blk == b
  {
    LsnBounds(log, fr.recLSN - 1, b);
  }

  lemma ListingCovers(s: State)
    requires PagesOk(s.log, s.disk, s.bufs) && ListsMissing(s)
    ensures DptCovers(s)
  {
    forall b | b in s.bufs && Dirty(s.bufs[b]) ensures b in s.dpt && s.dpt[b] <= s.bufs[b].recLSN {
      assert FrameOk(s.log, s.disk, s.bufs[b], b);
      FirstChangeMissing(s.log, s.disk, s.bufs[b], b);
    }
  }

  /** The shared dirty page table lists every page change missing on disk, early enough, exactly when it covers
      every dirty buffer. */
  lemma CheckpointSoundIffCovered(acts: seq<Action>)
    requires CanRun(FRESH, acts) && Run(FRESH, acts).mode.Up?
    ensures var s := Run(FRESH, acts); DptCovers(s) <==> ListsMissing(s)
  {
    FreshOk();
    RunKeepsInv(FRESH, acts);
    var s := Run(FRESH, acts);
    if DptCovers(s) { CoveredListsMissing(s); }
    if ListsMissing(s) { ListingCovers(s); }
  }
}

/** The steps restart recovery takes, and the bookkeeping of what it appends to the log. */
module RestartPieces {
  import opened Storage
  import opened LogModel
  import opened LogLemmas
  import opened Analysis
  import opened Machine
  import opened Invariant
  import opened InvariantRecovery
  import opened RecoveryTheorems
  import opened Runs
  import opened RecoveryObjects
  import opened RollbackLemmas
  import opened RunPieces

  // ---------------------------------------------------------------- analysis

  /** What analysis of a crashed store finds. */
  function Found(s: State): Tables { Analyze(s.log, if s.ckptLSN >= 1 then s.ckptLSN - 1 else 0) }

  lemma CrashedFacts(s: State)
    requires Reaches(FRESH, s) && s.mode.Down?
    ensures s.durable == |s.log| && s.bufs == map[] && s.rollbacks == map[]
    ensures 1 <= s.ckptLSN <= |s.log| + 1
    ensures Found(s).att == AttOf(Views(s.log))
    ensures forall t | t in Found(s).att :: Found(s).att[t].lastLSN <= |s.log|
    ensures 0 <= RedoStart(s.log, Found(s).dpt) <= |s.log|
  {
    ReachedInv(s);
    CheckpointAnalysisRefinesFullAnalysis(s.log, s.ckptLSN, s.disk);
    RedoStartCovers(s.log, s.disk, Found(s).dpt, BlockId([], 0));
    WfAllTxOk(s.log);
    LastWithinLog(s.log);
    forall t | t in Found(s).att ensures Found(s).att[t].lastLSN <= |s.log| { TxFacts(s.log, t); }
  }

  // ---------------------------------------------------------------- redo

  lemma PassSteadily(s: State)
    requires s.mode.Redoing? && s.mode.next < |s.log| && !MustRedo(s, s.mode.tables.dpt, s.mode.next)
    ensures Steadily(s, s.(mode := Redoing(s.mode.next + 1, s.mode.tables)))
  {
    SteadilyStep(s, ARedo);
  }

  /** Redoing the record `r` at the redo position: pin its block, apply it. */
  function Redone(s: State, r: Record, v: Option<BlockId>, stale: LSN): State
    requires s.mode.Redoing? && r.Dirties() && CanPin(s.bufs, r.blk, v)
  {
    var lsn := s.mode.next + 1;
    var bufs := PinBufs(s.disk, s.bufs, r.blk, v, stale);
    State(s.log, s.durable, s.ckptLSN,
          PinDisk(s.disk, s.bufs, r.blk, v),
          Touch(bufs, r.blk, r.fld, r.newVal, lsn, r.txnum),
          s.att,
          TouchDpt(bufs, PinDpt(s.bufs, s.dpt, r.blk, v), r.blk, lsn),
          s.rollbacks, s.xlocks, Redoing(lsn, s.mode.tables), s.recovered)
  }

  lemma RedoneIsRedo(s: State, r: Record, v: Option<BlockId>, stale: LSN)
    requires s.mode.Redoing? && s.mode.next < |s.log| && r == s.log[s.mode.next]
    requires MustRedo(s, s.mode.tables.dpt, s.mode.next) && CanPin(s.bufs, r.blk, v)
    ensures var s1 := Pinned(s, r.blk, v, stale); CanRedo(s1) && DoRedo(s1) == Redone(s, r, v, stale)
  {
  }

  lemma RedoneSteadily(s: State, r: Record, v: Option<BlockId>, stale: LSN)
    requires s.mode.Redoing? && s.mode.next < |s.log| && r == s.log[s.mode.next]
    requires MustRedo(s, s.mode.tables.dpt, s.mode.next) && CanPin(s.bufs, r.blk, v)
    requires v.Some? && Dirty(s.bufs[v.value]) ==> s.bufs[v.value].pageLSN <= s.durable
    ensures Steadily(s, Redone(s, r, v, stale))
  {
    PinSteadily(s, r.blk, v, stale);
    RedoneIsRedo(s, r, v, stale);
    SteadilyThen(s, Pinned(s, r.blk, v, stale), ARedo);
  }

  lemma RedonePagesInLog(s: State, r: Record, v: Option<BlockId>, stale: LSN)
    requires s.mode.Redoing? && s.mode.next < |s.log| && r.Dirties() && CanPin(s.bufs, r.blk, v)
    requires PagesInLog(s.bufs, s.log)
    ensures PagesInLog(Redone(s, r, v, stale).bufs, s.log)
  {
  }

  lemma EndRedoSteadily(s: State)
    requires CanEndRedo(s)
    ensures Steadily(s, s.(mode := Undoing(s.mode.tables)))
  {
    SteadilyStep(s, AEndRedo);
  }

  // ---------------------------------------------------------------- undo

  lemma FlushReaches(s: State)
    requires !s.mode.Down?
    ensures Reaches(s, s.(durable := |s.log|))
  {
    ReachesStep(s, AFlushLog);
  }

  lemma EndWinnerReaches(s: State, d: nat, t: TxNum)
    requires (d == s.durable || d == |s.log|) && CanEndWinner(s, t)
    ensures Reaches(s, DoEndWinner(s.(durable := d), t))
  {
    AppendReaches(s, d, AEndWinner(t));
  }

  lemma UndoRunningReaches(s: State, d: nat, t: TxNum)
    requires (d == s.durable || d == |s.log|) && CanUndo(s, t) && s.mode.tables.att[t].status == Running
    ensures Reaches(s, DoUndo(s, t).(durable := |s.log| + 1))
  {
    ForcedReaches(s, d, AUndo(t));
  }

  lemma UndoAbortingReaches(s: State, t: TxNum)
    requires CanUndo(s, t) && s.mode.tables.att[t].status == Aborting
    ensures Reaches(s, DoUndo(s, t))
  {
    ReachesStep(s, AUndo(t));
  }

  lemma EndUndoReaches(s: State, d: nat, t: TxNum)
    requires (d == s.durable || d == |s.log|) && CanEndUndo(s, t)
    ensures Reaches(s, DoEndUndo(s.(durable := d), t))
  {
    AppendReaches(s, d, AEndUndo(t));
  }

  lemma FinishReaches(s: State)
    requires s.mode.Undoing? && s.mode.tables.att == map[]
    ensures Reaches(s, DoFinish(s))
  {
    ReachesStep(s, AFinish);
  }

  // ---------------------------------------------------------------- what recovery appends

  /** How many END records of `t` lie at position `from` or later. */
  function Ends(log: Log, from: nat, t: TxNum): nat {
    if |log| <= from then 0
    else Ends(Init(log), from, t) + (if Last(log).End? && Last(log).txnum == t then 1 else 0)
  }

  lemma EndsSnoc(log: Log, r: Record, from: nat, t: TxNum)
    requires from <= |log|
    ensures Ends(log + [r], from, t) == Ends(log, from, t) + (if r.End? && r.txnum == t then 1 else 0)
  {
    assert Init(log + [r]) == log;
  }

  /** Recovery so far, having found `found` in `base`: nothing of `base` is lost, nobody committed, every
      transaction no longer in `table` got exactly one END, and without a removal nothing was written. */
  ghost predicate Progress(base: Log, found: Att, log: Log, table: Att) {
    && |base| <= |log| && log[..|base|] == base
    && (forall i | |base| <= i < |log| :: !log[i].Commit?)
    && (forall t :: Ends(log, |base|, t) == if t in found && t !in table then 1 else 0)
    && (table.Keys == found.Keys ==> log == base)
  }

  lemma ProgressBegins(base: Log, found: Att)
    ensures Progress(base, found, base, found)
  {
  }

  /** Log records that neither commit nor end a transaction. */
  ghost predicate QuietTail(log: Log, log': Log) {
    && |log| <= |log'| && log'[..|log|] == log
    && forall i | |log| <= i < |log'| :: !log'[i].Commit? && !log'[i].End?
  }

  lemma {:induction false} EndsQuiet(log: Log, log': Log, from: nat, t: TxNum)
    requires QuietTail(log, log') && from <= |log|
    ensures Ends(log', from, t) == Ends(log, from, t)
    decreases |log'|
  {
    if |log'| == |log| {
      assert log' == log;
    } else {
      assert Init(log')[..|log|] == log'[..|log|];
      EndsQuiet(log, Init(log'), from, t);
    }
  }

  /** The END of `t` after records of its undo. */
  lemma ProgressEnd(base: Log, found: Att, log: Log, mid: Log, table: Att, t: TxNum, prev: LSN)
    requires Progress(base, found, log, table) && t in table && table.Keys <= found.Keys
    requires QuietTail(log, mid)
    ensures Progress(base, found, mid + [End(t, prev)], table - {t})
  {
    var log' := mid + [End(t, prev)];
    assert log'[..|base|] == log[..|base|] by { assert log'[..|log|] == mid[..|log|]; }
    forall i | |base| <= i < |log'| ensures !log'[i].Commit? {
      if i < |log| { assert log'[i] == mid[..|log|][i]; }
    }
    forall u ensures Ends(log', |base|, u) == if u in found && u !in table - {t} then 1 else 0 {
      EndsQuiet(log, mid, |base|, u);
      EndsSnoc(mid, End(t, prev), |base|, u);
    }
    assert t in found && t !in table - {t};
  }

  /** What undoing a loser with table entry `e` appends before its END. */
  ghost predicate LoserLog(log: Log, log': Log, t: TxNum, e: AttEntry) {
    if e.status == Running then OnlyCompensated(log + [Abort(t, e.lastLSN)], log', t, |log| + 1)
    else OnlyCompensated(log, log', t, e.lastLSN)
  }

  lemma LoserLogQuiet(log: Log, log': Log, t: TxNum, e: AttEntry)
    requires LoserLog(log, log', t, e)
    ensures QuietTail(log, log')
  {
    if e.status == Running {
      var log1 := log + [Abort(t, e.lastLSN)];
      assert log'[..|log|] == log1[..|log|];
      assert log'[|log|] == log'[..|log1|][|log|];
    }
  }

  lemma LoserProgress(base: Log, found: Att, log: Log, log': Log, table: Att, t: TxNum)
    requires Progress(base, found, log, table) && t in table && table.Keys <= found.Keys
    requires log' != [] && LoserLog(log, Init(log'), t, table[t]) && Last(log').End? && Last(log').txnum == t
    ensures Progress(base, found, log', table - {t})
  {
    LoserLogQuiet(log, Init(log'), t, table[t]);
    ProgressEnd(base, found, log, Init(log'), table, t, Last(log').prevLSN);
    SplitLast(log');
  }

  // ---------------------------------------------------------------- working through the table

  /** Those of the listed transactions that were found committed (or not). */
  function Listed(found: Att, ts: seq<TxNum>, committed: bool): set<TxNum> {
    set t | t in ts && t in found && (found[t].status == Committed) == committed
  }

  lemma ListedNext(found: Att, ts: seq<TxNum>, i: nat, committed: bool)
    requires i < |ts| && Distinct(ts) && ts[i] in found
    ensures ts[i] in found - Listed(found, ts[..i], committed)
    ensures found - Listed(found, ts[..i + 1], committed) ==
            if (found[ts[i]].status == Committed) == committed
            then found - Listed(found, ts[..i], committed) - {ts[i]}
            else found - Listed(found, ts[..i], committed)
  {
    assert ts[..i + 1] == ts[..i] + [ts[i]];
    forall j | 0 <= j < i ensures ts[j] != ts[i] {
    }
    assert ts[i] !in ts[..i];
  }

  lemma AllListed(found: Att, ts: seq<TxNum>)
    requires (forall t | t in found :: t in ts) && forall t | t in found :: found[t].status != Committed
    ensures found - Listed(found, ts, false) == map[]
  {
    assert forall t :: t !in found - Listed(found, ts, false);
  }

  // ---------------------------------------------------------------- the outcome

  /** Recovery of a store crashed with log `base` is complete. */
  ghost predicate Recovered(base: Log, s: State) {
    && s.mode.Up? && s.att == map[] && s.durable == |s.log|
    && OnlyUndone(base, s)
    && (forall b, f :: Content(s, b).Get(f) == CommittedValue(base, b, f))
    && (forall t :: Ends(s.log, |base|, t) == if t in Views(base) then 1 else 0)
    && (Views(base) == map[] ==> s.log == base)
    && Views(s.log) == map[]
  }

  lemma EmptyTableEmptyViews(s: State)
    requires Inv(s) && s.mode.Up? && s.att == map[]
    ensures Views(s.log) == map[]
  {
    assert Views(s.log).Keys == {};
  }

  lemma RecoveredFacts(base: Log, found: Att, s: State)
    requires Reaches(FRESH, s) && s.mode.Up? && s.att == map[] && s.durable == |s.log|
    requires Progress(base, found, s.log, map[]) && found == AttOf(Views(base))
    ensures Recovered(base, s)
  {
    ReachedInv(s);
    FinishReadsCommitted(base, s);
    EmptyTableEmptyViews(s);
  }
}

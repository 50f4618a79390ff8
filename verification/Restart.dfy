/** Restart recovery: analysis, redo, undo. */
module Restart {
  import opened Storage
  import opened LogModel
  import A = Analysis
  import opened Machine
  import opened Runs
  import opened RecoveryObjects
  import opened RunPieces
  import opened RestartPieces
  import opened Effects
  import opened RecoveryManager
  import opened SecondRecovery

  class RestartMgr {
    const rt: Runtime
    const recovAt: ActiveTrxTable
    const recovDpt: DirtyPageTable
    const mgr: RecoveryMgr

    ghost predicate Valid()
      reads rt.lm
    {
      rt.lm.Valid() && mgr.rt == rt && recovAt != rt.att && recovDpt != rt.dpt
    }

    /** The tables being rebuilt. */
    ghost function Tables(): A.Tables
      reads recovAt, recovDpt
    {
      A.Tables(recovAt.table, recovDpt.table)
    }

    constructor (rt: Runtime)
      requires rt.lm.Valid()
      ensures this.rt == rt && Valid() && Tables() == A.Tables(map[], map[])
      ensures fresh(recovAt) && fresh(recovDpt)
    {
      this.rt := rt;
      recovAt := new ActiveTrxTable();
      recovDpt := new DirtyPageTable();
      mgr := new RecoveryMgr.ForRecover(rt);
    }

    // -------------------------------------------------------------- analysis

    /** Entries already in a table win over those of a checkpoint. */
    method MergeAtt(snapshot: Att)
      modifies recovAt
      ensures recovAt.table == snapshot + old(recovAt.table)
    {
      var rest := snapshot.Keys;
      while rest != {}
        invariant rest <= snapshot.Keys
        invariant recovAt.table == (map t | t in snapshot && t !in rest :: snapshot[t]) + old(recovAt.table)
        decreases |rest|
      {
        SomeMember(rest);
        var t :| t in rest;
        if t !in recovAt.table { recovAt.SetTrx(t, snapshot[t].status, snapshot[t].lastLSN); }
        rest := rest - {t};
      }
    }

    method MergeDpt(snapshot: Dpt)
      modifies recovDpt
      ensures recovDpt.table == snapshot + old(recovDpt.table)
    {
      var rest := snapshot.Keys;
      while rest != {}
        invariant rest <= snapshot.Keys
        invariant recovDpt.table == (map b | b in snapshot && b !in rest :: snapshot[b]) + old(recovDpt.table)
        decreases |rest|
      {
        var b :| b in rest;
        TakeOver(b, snapshot[b]);
        rest := rest - {b};
      }
    }

    method TakeOver(b: BlockId, lsn: LSN)
      modifies recovDpt
      ensures recovDpt.table == map[b := lsn] + old(recovDpt.table)
    {
      if b !in recovDpt.table { recovDpt.MarkDirty(b, lsn); }
    }

    method AnalyzeOne(lsn: LSN, r: Record)
      modifies recovAt, recovDpt
      ensures Tables() == A.AnalyzeRecord(old(Tables()), r, lsn)
    {
      match r
      case CheckpointEnd(_, att, dpt) =>
        MergeAtt(att);
        MergeDpt(dpt);
      case Start(t) => recovAt.SetTrx(t, Running, lsn);
      case End(t, _) => recovAt.RemoveTrx(t);
      case Commit(t, _) => recovAt.SetTrx(t, Committed, lsn);
      case Abort(t, _) => recovAt.SetTrx(t, Aborting, lsn);
      case Update(t, _, b, _, _, _) =>
        recovAt.SetLastLSN(t, lsn);
        recovDpt.MarkDirty(b, lsn);
      case Compensation(t, _, b, _, _, _, _) =>
        recovAt.SetLastLSN(t, lsn);
        recovDpt.MarkDirty(b, lsn);
      case CheckpointBegin =>
    }

    /** Scan the log on disk from the last checkpoint. */
    method DoAnalyzePhase()
      requires Valid() && Tables() == A.Tables(map[], map[])
      requires 1 <= rt.lm.checkpointLSN <= |rt.lm.records| + 1 && rt.lm.durable == |rt.lm.records|
      modifies recovAt, recovDpt
      ensures Tables() == A.Analyze(rt.lm.records, rt.lm.checkpointLSN - 1)
    {
      ghost var log := rt.lm.records;
      var start := rt.lm.checkpointLSN;
      var iter := new LogIterator(rt.lm, start);
      var more := iter.HasNext();
      while more
        invariant iter.lm == rt.lm && start <= iter.next <= |log| + 1 && more == (iter.next <= |log|)
        invariant Tables() == A.Analyze(log[..iter.next - 1], start - 1)
        decreases |log| + 1 - iter.next
      {
        A.AnalyzeSnoc(log, iter.next - 1, start - 1);
        var lsn, r := iter.Next();
        AnalyzeOne(lsn, r);
        more := iter.HasNext();
      }
      assert log[..|log|] == log;
    }

    // -------------------------------------------------------------- redo

    /** Redo one record unless the dirty page table or the page on disk shows that nothing is missing. */
    method RedoOne(lsn: LSN, r: Record)
      requires Valid() && PagesInLog(rt.bm.bufs, rt.lm.records) && rt.lm.durable == |rt.lm.records|
      requires 1 <= lsn <= |rt.lm.records| && r == rt.lm.records[lsn - 1]
      requires rt.mode == Redoing(lsn - 1, Tables())
      modifies rt, rt.lm, rt.bm, rt.dpt
      ensures Valid() && PagesInLog(rt.bm.bufs, rt.lm.records) && Steadily(old(rt.View()), rt.View())
      ensures rt.lm.records == old(rt.lm.records) && rt.lm.durable == |rt.lm.records|
      ensures rt.mode == Redoing(lsn, Tables()) && rt.rollbacks == old(rt.rollbacks)
      ensures RedoneOrPassed(old(rt.View()), rt.View(), recovDpt.table, r, lsn)
    {
      if !r.Dirties() || r.blk !in recovDpt.table || lsn < recovDpt.table[r.blk]
         || lsn <= ReadPage(rt.bm.disk, r.blk).lsn
      {
        ghost var s := rt.View();
        rt.mode := Redoing(lsn, Tables());
        PassSteadily(s);
      } else {
        RedoPage(lsn, r);
      }
    }

    /** Apply the record to its page under the record's own LSN. */
    method RedoPage(lsn: LSN, r: Record)
      requires Valid() && PagesInLog(rt.bm.bufs, rt.lm.records) && rt.lm.durable == |rt.lm.records|
      requires 1 <= lsn <= |rt.lm.records| && r == rt.lm.records[lsn - 1]
      requires rt.mode == Redoing(lsn - 1, Tables()) && MustRedo(rt.View(), recovDpt.table, lsn - 1)
      modifies rt, rt.lm, rt.bm, rt.dpt
      ensures Valid() && PagesInLog(rt.bm.bufs, rt.lm.records) && Steadily(old(rt.View()), rt.View())
      ensures rt.lm.records == old(rt.lm.records) && rt.lm.durable == |rt.lm.records|
      ensures rt.mode == Redoing(lsn, Tables()) && rt.rollbacks == old(rt.rollbacks)
      ensures Rewritten(old(rt.View()), rt.View(), r.blk, r.fld, r.newVal, lsn)
    {
      ghost var s := rt.View();
      ghost var victim, stale := ApplyAgain(lsn, r);
      RedoneIsRewritten(s, r, victim, stale);
      RedoneSteadily(s, r, victim, stale);
      RedonePagesInLog(s, r, victim, stale);
    }

    method ApplyAgain(lsn: LSN, r: Record) returns (ghost victim: Option<BlockId>, ghost stale: LSN)
      requires Valid() && PagesInLog(rt.bm.bufs, rt.lm.records) && rt.lm.durable == |rt.lm.records|
      requires lsn >= 1 && rt.mode == Redoing(lsn - 1, Tables()) && r.Dirties()
      modifies rt, rt.lm, rt.bm, rt.dpt
      ensures Valid() && CanPin(old(rt.bm.bufs), r.blk, victim)
      ensures victim.Some? && Dirty(old(rt.bm.bufs)[victim.value]) ==>
                old(rt.bm.bufs)[victim.value].pageLSN <= old(rt.lm.durable)
      ensures rt.View() == Redone(old(rt.View()), r, victim, stale)
    {
      victim, stale := rt.bm.Pin(r.blk, rt.lm, rt.dpt);
      rt.bm.Apply(lsn, r.txnum, r.blk, r.fld, r.newVal, rt.dpt);
      rt.mode := Redoing(lsn, Tables());
    }

    /** Redo from the smallest recLSN to the end of the log. */
    method RedoPages()
      requires Valid() && PagesInLog(rt.bm.bufs, rt.lm.records) && rt.lm.durable == |rt.lm.records|
      requires 0 <= RedoStart(rt.lm.records, recovDpt.table) <= |rt.lm.records|
      requires rt.mode == Redoing(RedoStart(rt.lm.records, recovDpt.table), Tables())
      modifies rt, rt.lm, rt.bm, rt.dpt
      ensures Valid() && Steadily(old(rt.View()), rt.View())
      ensures rt.lm.records == old(rt.lm.records) && rt.lm.durable == |rt.lm.records|
      ensures rt.mode == Undoing(Tables()) && rt.rollbacks == old(rt.rollbacks)
    {
      ghost var s := rt.View();
      SteadilySelf(s);
      var minRecLSN := recovDpt.GetMinRecLSN();
      if minRecLSN.Some? {
        var iter := new LogIterator(rt.lm, minRecLSN.value);
        var more := iter.HasNext();
        while more
          invariant Valid() && PagesInLog(rt.bm.bufs, rt.lm.records) && Steadily(s, rt.View())
          invariant rt.lm.records == s.log && rt.lm.durable == |s.log| && rt.rollbacks == s.rollbacks
          invariant iter.lm == rt.lm && 1 <= iter.next <= |s.log| + 1 && more == (iter.next <= |s.log|)
          invariant rt.mode == Redoing(iter.next - 1, Tables())
          decreases |s.log| + 1 - iter.next
        {
          ghost var s1 := rt.View();
          RedoNext(iter);
          SteadilyTrans(s, s1, rt.View());
          more := iter.HasNext();
        }
      }
      ghost var s2 := rt.View();
      EndRedo();
      SteadilyTrans(s, s2, rt.View());
    }

    /** The next record of the log. */
    method RedoNext(iter: LogIterator)
      requires Valid() && PagesInLog(rt.bm.bufs, rt.lm.records) && rt.lm.durable == |rt.lm.records|
      requires iter.lm == rt.lm && 1 <= iter.next <= |rt.lm.records| && rt.mode == Redoing(iter.next - 1, Tables())
      modifies rt, rt.lm, rt.bm, rt.dpt, iter
      ensures Valid() && PagesInLog(rt.bm.bufs, rt.lm.records) && Steadily(old(rt.View()), rt.View())
      ensures rt.lm.records == old(rt.lm.records) && rt.lm.durable == |rt.lm.records|
      ensures iter.next == old(iter.next) + 1 && rt.mode == Redoing(iter.next - 1, Tables())
      ensures rt.rollbacks == old(rt.rollbacks)
    {
      var lsn, r := iter.Next();
      RedoOne(lsn, r);
    }

    ghost method EndRedo()
      requires Valid() && rt.mode == Redoing(|rt.lm.records|, Tables())
      modifies rt
      ensures Steadily(old(rt.View()), rt.View())
      ensures rt.View() == old(rt.View()).(mode := Undoing(Tables()))
    {
      ghost var s := rt.View();
      EndRedoSteadily(s);
      rt.mode := Undoing(Tables());
    }

    // -------------------------------------------------------------- winners

    /** END for a transaction whose COMMIT was found. */
    method EndWinner(t: TxNum) returns (endLSN: LSN)
      requires Valid() && rt.Ok() && rt.mode == Undoing(Tables()) && rt.rollbacks == map[]
      requires t in recovAt.table && recovAt.table[t].status == Committed
      modifies rt, rt.lm, recovAt
      ensures Valid() && rt.Ok() && Reaches(old(rt.View()), rt.View())
      ensures rt.mode == Undoing(Tables()) && rt.rollbacks == map[]
      ensures recovAt.table == old(recovAt.table) - {t}
      ensures rt.lm.records == old(rt.lm.records) + [End(t, old(recovAt.table)[t].lastLSN)]
      ensures endLSN == |rt.lm.records| && old(rt.lm.durable) <= rt.lm.durable
    {
      ghost var s := rt.View();
      endLSN := rt.lm.Append(End(t, recovAt.table[t].lastLSN));
      recovAt.RemoveTrx(t);
      rt.mode := Undoing(Tables());
      EndWinnerReaches(s, rt.lm.durable, t);
      ReachesTrans(FRESH, s, rt.View());
    }

    /** Force the log up to the last END written, if any was. */
    method ForceEnds(maxEndLSN: LSN)
      requires Valid() && rt.mode.Undoing?
      requires maxEndLSN == NO_LSN || maxEndLSN == |rt.lm.records|
      requires maxEndLSN == NO_LSN ==> rt.lm.durable == |rt.lm.records|
      modifies rt.lm
      ensures Valid() && Reaches(old(rt.View()), rt.View())
      ensures maxEndLSN == NO_LSN ==> rt.View() == old(rt.View())
      ensures rt.lm.records == old(rt.lm.records) && rt.lm.durable == |rt.lm.records|
    {
      ghost var s := rt.View();
      if maxEndLSN != NO_LSN { rt.lm.Flush(maxEndLSN); }
      FlushReaches(s);
    }

    /** END every transaction found committed. */
    method EndWinners(ghost base: Log, ghost found: Att)
      requires Valid() && (found != map[] ==> rt.Ok()) && rt.mode == Undoing(Tables()) && rt.rollbacks == map[]
      requires recovAt.table == found && rt.lm.records == base && rt.lm.durable == |base|
      modifies rt, rt.lm, recovAt
      ensures Valid() && Reaches(old(rt.View()), rt.View()) && (found == map[] ==> rt.View() == old(rt.View()))
      ensures rt.mode == Undoing(Tables()) && rt.rollbacks == map[]
      ensures Progress(base, found, rt.lm.records, recovAt.table) && rt.lm.durable == |rt.lm.records|
      ensures recovAt.table.Keys <= found.Keys
      ensures forall t | t in recovAt.table :: recovAt.table[t] == found[t] && found[t].status != Committed
    {
      ReachesSelf(rt.View());
      ProgressBegins(base, found);
      var ts := recovAt.GetTable();
      NothingListed(found, ts);
      if |ts| > 0 { EndCommitted(ts, base, found); }
    }

    method EndCommitted(ts: seq<TxNum>, ghost base: Log, ghost found: Att)
      requires Valid() && rt.Ok() && rt.mode == Undoing(Tables()) && rt.rollbacks == map[]
      requires recovAt.table == found && rt.lm.records == base && rt.lm.durable == |base|
      requires Distinct(ts) && forall t :: t in ts <==> t in found
      modifies rt, rt.lm, recovAt
      ensures Valid() && Reaches(old(rt.View()), rt.View())
      ensures rt.mode == Undoing(Tables()) && rt.rollbacks == map[]
      ensures Progress(base, found, rt.lm.records, recovAt.table) && rt.lm.durable == |rt.lm.records|
      ensures recovAt.table == found - Listed(found, ts, true)
    {
      ghost var s := rt.View();
      ReachesSelf(s);
      ProgressBegins(base, found);
      var maxEndLSN := NO_LSN;
      for i := 0 to |ts|
        invariant Valid() && rt.Ok() && Reaches(s, rt.View())
        invariant rt.mode == Undoing(Tables()) && rt.rollbacks == map[]
        invariant recovAt.table == found - Listed(found, ts[..i], true)
        invariant Progress(base, found, rt.lm.records, recovAt.table)
        invariant maxEndLSN == NO_LSN ==> rt.lm.records == base && rt.lm.durable == |base|
        invariant maxEndLSN == NO_LSN || maxEndLSN == |rt.lm.records|
      {
        assert ts[i] in ts;
        ListedNext(found, ts, i, true);
        if recovAt.table[ts[i]].status == Committed {
          ghost var s1, table := rt.View(), recovAt.table;
          maxEndLSN := EndWinner(ts[i]);
          ProgressEnd(base, found, s1.log, s1.log, table, ts[i], table[ts[i]].lastLSN);
          ReachesTrans(s, s1, rt.View());
        }
      }
      assert ts[..|ts|] == ts;
      ghost var s2 := rt.View();
      ForceEnds(maxEndLSN);
      ReachesTrans(s, s2, rt.View());
    }

    /** The redo phase: pages first, then END for the winners. */
    method DoRedoPhase(ghost base: Log, ghost found: Att)
      requires Valid() && recovAt.table == found && rt.lm.records == base && rt.lm.durable == |base|
      requires PagesInLog(rt.bm.bufs, base) && (found != map[] ==> rt.Ok())
      requires 0 <= RedoStart(base, recovDpt.table) <= |base| && rt.rollbacks == map[]
      requires rt.mode == Redoing(RedoStart(base, recovDpt.table), Tables())
      modifies rt, rt.lm, rt.bm, rt.dpt, recovAt
      ensures Valid() && Reaches(old(rt.View()), rt.View())
      ensures found == map[] ==> Steadily(old(rt.View()), rt.View())
      ensures rt.mode == Undoing(Tables()) && rt.rollbacks == map[]
      ensures Progress(base, found, rt.lm.records, recovAt.table) && rt.lm.durable == |rt.lm.records|
      ensures recovAt.table.Keys <= found.Keys
      ensures forall t | t in recovAt.table :: recovAt.table[t] == found[t] && found[t].status != Committed
    {
      ghost var s := rt.View();
      RedoPages();
      ghost var s1 := rt.View();
      SteadilyReaches(s, s1);
      if found != map[] { ReachesTrans(FRESH, s, s1); }
      EndWinners(base, found);
      ReachesTrans(s, s1, rt.View());
    }

    // -------------------------------------------------------------- losers

    /** A loser still running gets an ABORT, forced; undo then starts at its last record. */
    method BeginUndo(t: TxNum) returns (prevLastLSN: LSN)
      requires Valid() && rt.Ok() && rt.mode == Undoing(Tables()) && rt.rollbacks == map[]
      requires t in recovAt.table && recovAt.table[t].status != Committed
      requires recovAt.table[t].lastLSN <= rt.lm.durable
      modifies rt, rt.lm
      ensures Valid() && rt.Ok() && Reaches(old(rt.View()), rt.View())
      ensures rt.mode == old(rt.mode) && rt.rollbacks == map[t := Cursor(recovAt.table[t].lastLSN, prevLastLSN)]
      ensures prevLastLSN <= rt.lm.durable && old(rt.lm.durable) <= rt.lm.durable
      ensures if recovAt.table[t].status == Running
              then rt.lm.records == old(rt.lm.records) + [Abort(t, recovAt.table[t].lastLSN)]
                   && prevLastLSN == |rt.lm.records|
              else rt.lm.records == old(rt.lm.records) && prevLastLSN == recovAt.table[t].lastLSN
    {
      ghost var s := rt.View();
      prevLastLSN := recovAt.table[t].lastLSN;
      if recovAt.table[t].status == Running {
        prevLastLSN := rt.lm.Append(Abort(t, recovAt.table[t].lastLSN));
        ghost var d := rt.lm.durable;
        rt.lm.Flush(prevLastLSN);
        UndoRunningReaches(s, d, t);
      } else {
        UndoAbortingReaches(s, t);
      }
      rt.rollbacks := rt.rollbacks[t := Cursor(recovAt.table[t].lastLSN, prevLastLSN)];
      ReachesTrans(FRESH, s, rt.View());
    }

    method EndUndo(t: TxNum, clrLastLSN: LSN) returns (endLSN: LSN)
      requires Valid() && rt.Ok() && rt.mode == Undoing(Tables())
      requires t in recovAt.table && t in rt.rollbacks && rt.rollbacks == map[t := rt.rollbacks[t]]
      requires AtStart(rt.lm.records, rt.rollbacks[t].undoLSN) && rt.rollbacks[t].lastLSN == clrLastLSN
      modifies rt, rt.lm, recovAt
      ensures Valid() && rt.Ok() && Reaches(old(rt.View()), rt.View())
      ensures rt.mode == Undoing(Tables()) && rt.rollbacks == map[]
      ensures recovAt.table == old(recovAt.table) - {t}
      ensures rt.lm.records == old(rt.lm.records) + [End(t, clrLastLSN)]
      ensures endLSN == |rt.lm.records| && old(rt.lm.durable) <= rt.lm.durable
    {
      ghost var s := rt.View();
      recovAt.SetTrx(t, Aborting, clrLastLSN);
      endLSN := rt.lm.Append(End(t, clrLastLSN));
      recovAt.RemoveTrx(t);
      assert recovAt.table == old(recovAt.table) - {t};
      rt.mode := Undoing(Tables());
      rt.rollbacks := rt.rollbacks - {t};
      EndUndoReaches(s, rt.lm.durable, t);
      ReachesTrans(FRESH, s, rt.View());
    }

    /** Undo one loser completely. */
    method UndoLoser(t: TxNum) returns (endLSN: LSN)
      requires Valid() && rt.Ok() && rt.mode == Undoing(Tables()) && rt.rollbacks == map[]
      requires t in recovAt.table && recovAt.table[t].status != Committed
      requires recovAt.table[t].lastLSN <= rt.lm.durable
      modifies rt, rt.lm, rt.bm, rt.dpt, recovAt
      ensures Valid() && rt.Ok() && Reaches(old(rt.View()), rt.View())
      ensures rt.mode == Undoing(Tables()) && rt.rollbacks == map[]
      ensures recovAt.table == old(recovAt.table) - {t}
      ensures endLSN == |rt.lm.records| > 0 && old(rt.lm.durable) <= rt.lm.durable
      ensures LoserLog(old(rt.lm.records), Init(rt.lm.records), t, old(recovAt.table)[t])
      ensures Last(rt.lm.records).End? && Last(rt.lm.records).txnum == t
    {
      ghost var s, e := rt.View(), recovAt.table[t];
      var lsn := recovAt.table[t].lastLSN;
      var prevLastLSN := BeginUndo(t);
      ghost var s1 := rt.View();
      var clrLastLSN := mgr.DoRollback(t, lsn, prevLastLSN);
      ghost var s2 := rt.View();
      ReachesTrans(s, s1, s2);
      ReachesTrans(FRESH, s, s2);
      endLSN := EndUndo(t, clrLastLSN);
      ReachesTrans(s, s2, rt.View());
      assert Init(rt.lm.records) == s2.log;
    }

    /** Undo every transaction left in the table. */
    method DoUndoPhase(ghost base: Log, ghost found: Att, ghost losers: Att)
      requires Valid() && (losers != map[] ==> rt.Ok()) && rt.mode == Undoing(Tables()) && rt.rollbacks == map[]
      requires recovAt.table == losers && losers.Keys <= found.Keys
      requires forall t | t in losers :: losers[t].status != Committed && losers[t].lastLSN <= rt.lm.durable
      requires Progress(base, found, rt.lm.records, losers) && rt.lm.durable == |rt.lm.records|
      modifies rt, rt.lm, rt.bm, rt.dpt, recovAt
      ensures Valid() && Reaches(old(rt.View()), rt.View()) && (losers == map[] ==> rt.View() == old(rt.View()))
      ensures rt.mode == Undoing(Tables()) && rt.rollbacks == map[] && recovAt.table == map[]
      ensures Progress(base, found, rt.lm.records, recovAt.table) && rt.lm.durable == |rt.lm.records|
    {
      ReachesSelf(rt.View());
      var ts := recovAt.GetTable();
      NothingListed(losers, ts);
      if |ts| > 0 { UndoLosers(ts, base, found, losers); }
    }

    method UndoLosers(ts: seq<TxNum>, ghost base: Log, ghost found: Att, ghost losers: Att)
      requires Valid() && rt.Ok() && rt.mode == Undoing(Tables()) && rt.rollbacks == map[]
      requires recovAt.table == losers && losers.Keys <= found.Keys
      requires forall t | t in losers :: losers[t].status != Committed && losers[t].lastLSN <= rt.lm.durable
      requires Progress(base, found, rt.lm.records, losers) && rt.lm.durable == |rt.lm.records|
      requires Distinct(ts) && forall t :: t in ts <==> t in losers
      modifies rt, rt.lm, rt.bm, rt.dpt, recovAt
      ensures Valid() && Reaches(old(rt.View()), rt.View())
      ensures rt.mode == Undoing(Tables()) && rt.rollbacks == map[] && recovAt.table == map[]
      ensures Progress(base, found, rt.lm.records, recovAt.table) && rt.lm.durable == |rt.lm.records|
    {
      ghost var s := rt.View();
      ReachesSelf(s);
      var maxEndLSN := NO_LSN;
      for i := 0 to |ts|
        invariant Valid() && rt.Ok() && Reaches(s, rt.View())
        invariant rt.mode == Undoing(Tables()) && rt.rollbacks == map[] && s.durable <= rt.lm.durable
        invariant recovAt.table == losers - Listed(losers, ts[..i], false)
        invariant Progress(base, found, rt.lm.records, recovAt.table)
        invariant maxEndLSN == NO_LSN ==> rt.lm.durable == |rt.lm.records|
        invariant maxEndLSN == NO_LSN || maxEndLSN == |rt.lm.records|
      {
        assert ts[i] in ts;
        ListedNext(losers, ts, i, false);
        ghost var s1, table := rt.View(), recovAt.table;
        maxEndLSN := UndoLoser(ts[i]);
        LoserProgress(base, found, s1.log, rt.lm.records, table, ts[i]);
        ReachesTrans(s, s1, rt.View());
      }
      assert ts[..|ts|] == ts;
      AllListed(losers, ts);
      ghost var s2 := rt.View();
      ForceEnds(maxEndLSN);
      ReachesTrans(s, s2, rt.View());
    }

    // -------------------------------------------------------------- all phases

    /** The rebuilt tables replace the shared ones. */
    method ReflectTables()
      requires Valid() && rt.mode == Undoing(Tables()) && recovAt.table == map[]
      modifies rt, rt.att, rt.dpt
      ensures rt.lm.Valid() && Reaches(old(rt.View()), rt.View())
      ensures rt.View() == DoFinish(old(rt.View()))
      ensures rt.att.table == map[] && rt.dpt.table == recovDpt.table && rt.mode.Up?
      ensures rt.View() == old(rt.View()).(dpt := recovDpt.table, att := map[], mode := Up, recovered := true)
    {
      FinishReaches(rt.View());
      rt.att.ReplaceSnapshot(recovAt.table);
      rt.dpt.ReplaceSnapshot(recovDpt.table);
      rt.mode, rt.recovered := Up, true;
    }

    /** Analysis can start: after a crash, or in a process where nothing is left to do. */
    ghost predicate CanRecover()
      reads rt, rt.lm, rt.bm, rt.att, rt.dpt, recovAt, recovDpt
    {
      && Valid() && rt.Ok() && Tables() == A.Tables(map[], map[])
      && (rt.mode.Down? || CanRecoverAgain(rt.View()))
    }

    /** The three phases. */
    method RunPhases()
      requires Valid() && Tables() == A.Tables(map[], map[]) && CanBegin(rt.View())
      requires Found(rt.View()).att != map[] ==> Reaches(FRESH, DoAnalyze(rt.View()))
      modifies rt, rt.lm, rt.bm, rt.dpt, recovAt, recovDpt
      ensures Valid() && rt.mode == Undoing(Tables()) && recovAt.table == map[] && rt.lm.durable == |rt.lm.records|
      ensures Reaches(DoAnalyze(old(rt.View())), rt.View())
      ensures Found(old(rt.View())).att == map[] ==> Steadily(DoAnalyze(old(rt.View())), rt.View())
      ensures Progress(old(rt.lm.records), Found(old(rt.View())).att, rt.lm.records, map[])
      ensures recovDpt.table == Found(old(rt.View())).dpt
    {
      ghost var s := rt.View();
      DoAnalyzePhase();
      rt.mode := Redoing(RedoStart(rt.lm.records, recovDpt.table), Tables());
      ghost var s1 := rt.View();
      assert s1 == DoAnalyze(s);
      ghost var found := recovAt.table;
      DoRedoPhase(s.log, found);
      ghost var s3 := rt.View();
      if found != map[] { ReachesTrans(FRESH, s1, s3); }
      DoUndoPhase(s.log, found, recovAt.table);
      ReachesTrans(s1, s3, rt.View());
    }

    /** Restart recovery.  After a crash: every field reads as its committed value, the log has exactly one
        new END for every unfinished transaction, and all of it is on disk.  Called again in a process where no
        transaction is active: nothing is appended and every page stays as it was. */
    method Recover()
      requires CanRecover()
      modifies rt, rt.lm, rt.bm, rt.att, rt.dpt, recovAt, recovDpt
      ensures rt.lm.Valid() && rt.att.table == map[]
      ensures old(rt.lm.checkpointLSN) >= 1
      ensures rt.dpt.table == A.Analyze(old(rt.lm.records), old(rt.lm.checkpointLSN) - 1).dpt
      ensures old(rt.mode.Down?) ==> Reaches(old(rt.View()), rt.View()) && Recovered(old(rt.lm.records), rt.View())
      ensures old(rt.mode.Up?) ==> SameStore(old(rt.View()), rt.View())
    {
      ghost var s := rt.View();
      BeginFacts(s);
      RunPhases();
      ghost var s4 := rt.View();
      ReflectTables();
      if s.mode.Down? { RecoveredAfterCrash(s, s4); } else { RecoveredAgain(s, s4); }
    }
  }

  /** Recover after a crash, then Recover again: the second call adds nothing to what the first one did. */
  method RecoverTwice(rt: Runtime) returns (ghost first: State)
    requires rt.lm.Valid() && rt.Ok() && rt.mode.Down?
    modifies rt, rt.lm, rt.bm, rt.att, rt.dpt
    ensures rt.lm.Valid() && Recovered(old(rt.lm.records), first) && SameStore(first, rt.View())
  {
    ghost var s := rt.View();
    var once := new RestartMgr(rt);
    once.Recover();
    first := rt.View();
    ReachesTrans(FRESH, s, first);
    var again := new RestartMgr(rt);
    again.Recover();
  }

  lemma RecoveredAfterCrash(s: State, s': State)
    requires Reaches(FRESH, s) && s.mode.Down? && Reaches(DoAnalyze(s), s') && s'.mode.Undoing?
    requires s'.mode.tables.att == map[] && s'.durable == |s'.log| && Progress(s.log, Found(s).att, s'.log, map[])
    ensures Reaches(s, DoFinish(s')) && Recovered(s.log, DoFinish(s'))
  {
    CrashedFacts(s);
    ReachesStep(s, AAnalyze);
    assert Do(s, AAnalyze) == DoAnalyze(s);
    ReachesTrans(s, DoAnalyze(s), s');
    FinishReaches(s');
    ReachesTrans(s, s', DoFinish(s'));
    ReachesTrans(FRESH, s, DoFinish(s'));
    RecoveredFacts(s.log, Found(s).att, DoFinish(s'));
  }

  lemma NothingListed(found: Att, ts: seq<TxNum>)
    requires forall t :: t in ts <==> t in found
    ensures found == map[] ==> |ts| == 0
  {
    if |ts| > 0 {
      var t := ts[0];
      assert t in ts && t in found;
    }
  }

  /** What both ways to begin have in common. */
  ghost predicate CanBegin(s: State) {
    && s.durable == |s.log| && s.rollbacks == map[] && PagesInLog(s.bufs, s.log)
    && 1 <= s.ckptLSN <= |s.log| + 1
    && (forall t | t in Found(s).att :: Found(s).att[t].lastLSN <= |s.log|)
    && 0 <= RedoStart(s.log, Found(s).dpt) <= |s.log|
  }

  lemma BeginFacts(s: State)
    requires Reaches(FRESH, s) && (s.mode.Down? || CanRecoverAgain(s))
    ensures CanBegin(s) && (s.mode.Up? ==> Found(s).att == map[])
    ensures Found(s).att != map[] ==> Reaches(FRESH, DoAnalyze(s))
  {
    if s.mode.Down? {
      CrashedFacts(s);
      ReachesThen(FRESH, s, AAnalyze);
      assert Do(s, AAnalyze) == DoAnalyze(s);
    } else {
      AgainBegins(s);
    }
  }
}

/** Undoing: where the undo cursor goes, and that every undone update is compensated exactly once. */
module UndoLemmas {
  import opened LogModel
  import opened LogLemmas
  import opened CommittedLemmas

  /** `r` is a compensation record for the update at position `u`. */
  predicate Compensates(log: Log, r: Record, u: nat)
    requires u < |log|
  {
    log[u].Update? && r.Compensation? && r.txnum == log[u].txnum && r.undoNextLSN == log[u].prevLSN
  }

  /** How many records of the log compensate the update at position `u`. */
  function CompensationCount(log: Log, u: nat): nat {
    if |log| <= u + 1 then 0
    else CompensationCount(Init(log), u) + (if Compensates(log, Last(log), u) then 1 else 0)
  }

  /** Records since the START are chained upwards by prevLSN. */
  ghost predicate LedgerChain(log: Log, t: TxNum, x: TxInfo) {
    && (forall i | 0 <= x.start <= i < |log| && log[i].OfTx(t) && !log[i].Start? :: x.start <= log[i].prevLSN <= i)
    && (forall i, j | 0 <= x.start <= i < j < |log| && log[i].OfTx(t) && log[j].OfTx(t) && !log[j].Start? ::
          i + 1 <= log[j].prevLSN)
  }

  /** Bookkeeping of one unfinished, uncommitted transaction: records since its START are chained
      upwards, and an update is outstanding exactly when no record compensates it. */
  ghost predicate Ledger(log: Log, t: TxNum, x: TxInfo) {
    && LedgerChain(log, t, x)
    && (x.status != Committed ==>
          forall u | 0 <= x.start <= u < |log| && log[u].Update? && log[u].txnum == t ::
            CompensationCount(log, u) == (if u + 1 in x.pending then 0 else 1))
  }

  ghost predicate AllLedgers(log: Log) {
    var v := Views(log);
    forall t | t in v :: Ledger(log, t, v[t])
  }

  lemma LedgerFacts(log: Log, t: TxNum)
    requires AllLedgers(log) && t in Views(log)
    ensures Ledger(log, t, Views(log)[t])
  {
  }

  lemma CountSnoc(log: Log, r: Record, u: nat)
    requires u < |log|
    ensures CompensationCount(log + [r], u) == CompensationCount(log, u) + (if Compensates(log, r, u) then 1 else 0)
  {
    assert Init(log + [r]) == log;
  }

  lemma LedgerOther(log: Log, r: Record, t: TxNum)
    requires AllTxOk(log) && AllLedgers(log) && OkAppend(log, r)
    requires t in Views(log) && !r.OfTx(t)
    ensures t in Views(log + [r]) && Ledger(log + [r], t, Views(log + [r])[t])
  {
    TxOkOther(log, r, t);
    LedgerFacts(log, t);
    var x := Views(log)[t];
    var log' := log + [r];
    if x.status != Committed {
      forall u | 0 <= x.start <= u < |log'| && log'[u].Update? && log'[u].txnum == t
        ensures CompensationCount(log', u) == (if u + 1 in x.pending then 0 else 1)
      {
        CountSnoc(log, r, u);
      }
    }
  }

  lemma LedgerChainSelf(log: Log, r: Record, t: TxNum, x: TxInfo)
    requires LedgerChain(log, t, x) && r.OfTx(t) && !r.Start? && r.prevLSN == x.last && x.start <= x.last <= |log|
    requires OwnOk(log, t, x)
    ensures LedgerChain(log + [r], t, x)
  {
    var log' := log + [r];
    forall i, j | 0 <= x.start <= i < j < |log'| && log'[i].OfTx(t) && log'[j].OfTx(t) && !log'[j].Start?
      ensures i + 1 <= log'[j].prevLSN
    {
      assert OwnAt(log, t, x, i);
    }
  }

  lemma LedgerCounts(log: Log, r: Record, t: TxNum, u: nat)
    requires AllTxOk(log) && AllLedgers(log) && OkAppend(log, r) && r.OfTx(t) && !r.Start?
    requires t in Views(log) && t in Views(log + [r]) && Views(log + [r])[t].status != Committed
    requires 0 <= Views(log)[t].start <= u <= |log| && (log + [r])[u].Update? && (log + [r])[u].txnum == t
    ensures CompensationCount(log + [r], u) == (if u + 1 in Views(log + [r])[t].pending then 0 else 1)
  {
    Snoc(log, r);
    LedgerFacts(log, t);
    var x, x' := Views(log)[t], Views(log + [r])[t];
    if u == |log| {
      assert x'.pending[|x.pending|] == u + 1;
    } else if r.Compensation? {
      LedgerCompensation(log, r, u);
    } else {
      CountSnoc(log, r, u);
      assert r.Update? ==> x'.pending == x.pending + [|log| + 1];
    }
  }

  lemma LedgerSelf(log: Log, r: Record, t: TxNum)
    requires AllTxOk(log) && AllLedgers(log) && OkAppend(log, r) && r.OfTx(t)
    requires t in Views(log + [r])
    ensures Ledger(log + [r], t, Views(log + [r])[t])
  {
    Snoc(log, r);
    if !r.Start? {
      TxFacts(log, t);
      LedgerFacts(log, t);
      var x, x' := Views(log)[t], Views(log + [r])[t];
      LedgerChainSelf(log, r, t, x);
      var log' := log + [r];
      if x'.status != Committed {
        forall u | 0 <= x'.start <= u < |log'| && log'[u].Update? && log'[u].txnum == t
          ensures CompensationCount(log', u) == (if u + 1 in x'.pending then 0 else 1)
        {
          LedgerCounts(log, r, t, u);
        }
      }
    }
  }

  /** Updates of one transaction have different prevLSNs, so a compensation record names exactly one. */
  lemma CompensatesOne(log: Log, t: TxNum, x: TxInfo, r: Record, top: LSN, u: nat)
    requires LedgerChain(log, t, x) && r.Compensation? && r.txnum == t
    requires 0 <= x.start <= u < |log| && log[u].Update? && log[u].txnum == t
    requires x.start < top <= |log| && log[top - 1].Update? && log[top - 1].txnum == t
    requires r.undoNextLSN == log[top - 1].prevLSN
    ensures Compensates(log, r, u) <==> u + 1 == top
  {
    assert log[top - 1].OfTx(t) && log[u].OfTx(t);
  }

  lemma LedgerCompensation(log: Log, r: Record, u: nat)
    requires AllTxOk(log) && AllLedgers(log) && OkAppend(log, r) && r.Compensation?
    requires Views(log)[r.txnum].start <= u < |log| && log[u].Update? && log[u].txnum == r.txnum
    ensures r.txnum in Views(log + [r])
    ensures CompensationCount(log + [r], u) == (if u + 1 in Views(log + [r])[r.txnum].pending then 0 else 1)
  {
    Snoc(log, r);
    var t := r.txnum;
    LedgerFacts(log, t);
    TopIsPending(Views(log)[t]);
    PendingIsUpdate(log, t, Views(log)[t].Top());
    PopPending(log, r);
    CompensatesOne(log, t, Views(log)[t], r, Views(log)[t].Top(), u);
    CountSnoc(log, r, u);
  }

  /** Bookkeeping is kept by every legal record, hence holds of every well-formed log. */
  lemma {:induction false} WfAllLedgers(log: Log)
    requires WfLog(log)
    ensures AllLedgers(log)
  {
    if log != [] {
      var h, r := Init(log), Last(log);
      WfAllLedgers(h);
      WfAllTxOk(h);
      SplitLast(log);
      Snoc(h, r);
      var v := Views(log);
      forall t | t in v ensures Ledger(log, t, v[t]) {
        if r.OfTx(t) { LedgerSelf(h, r, t); } else { LedgerOther(h, r, t); }
      }
    }
  }

  /** When a transaction ends without having committed, each of its updates has been compensated by
      exactly one record. */
  lemma OneCompensationPerLoserUpdate(log: Log, u: nat, e: nat)
    requires WfLog(log) && u < e < |log|
    requires log[u].Update? && log[e].End? && log[e].txnum == log[u].txnum
    requires forall k | u < k < e && log[k].OfTx(log[u].txnum) :: !log[k].Start? && !log[k].Commit?
    ensures CompensationCount(log[..e], u) == 1
  {
    var h := log[..e];
    var t := log[u].txnum;
    WfAt(log, e);
    WfAllTxOk(h);
    WfAllLedgers(h);
    TxFacts(h, t);
    LedgerFacts(h, t);
    var x := Views(h)[t];
    OwnRecord(h, t, u);
    assert h[x.start - 1].Start? && h[x.start - 1] == log[x.start - 1];
    assert h[x.last - 1] == log[x.last - 1];
  }

  // ---------------------------------------------------------------- the undo cursor

  /** Undoing `t` may continue at `undo`: it is the newest outstanding update (the START if there is
      none), or the ABORT or compensation record that leads there. */
  ghost predicate CursorOk(log: Log, t: TxNum, undo: LSN) {
    && t in Views(log)
    && var x := Views(log)[t];
    (undo == x.Top() || PointsToTop(log, t, x, undo))
  }

  lemma CursorFactsOf(log: Log, t: TxNum, x: TxInfo, undo: LSN)
    requires ChainOk(log, t, x) && (undo == x.Top() || PointsToTop(log, t, x, undo)) && undo <= x.last
    ensures 1 <= undo <= |log| && log[undo - 1].OfTx(t)
    ensures log[undo - 1].Update? ==> undo in x.pending && undo == x.Top()
    ensures log[undo - 1].Start? ==> x.pending == []
    ensures log[undo - 1].Update? || log[undo - 1].Start? || log[undo - 1].Abort? || log[undo - 1].Compensation?
    ensures log[undo - 1].Abort? ==> log[undo - 1].prevLSN == x.Top() < undo
    ensures log[undo - 1].Compensation? ==> log[undo - 1].undoNextLSN == x.Top() < undo
    ensures log[undo - 1].Update? ==> log[undo - 1].prevLSN < undo
  {
    if undo == x.Top() && x.pending != [] { assert PendingOk(log, t, x, |x.pending| - 1); }
  }

  lemma CursorBound(log: Log, t: TxNum, x: TxInfo, undo: LSN)
    requires ChainOk(log, t, x) && OwnAt(log, t, x, undo - 1) && (undo == x.Top() || PointsToTop(log, t, x, undo))
    ensures undo <= x.last
  {
    if undo == x.Top() && x.pending != [] { assert PendingOk(log, t, x, |x.pending| - 1); }
  }

  /** What lies under the cursor. */
  lemma CursorFacts(log: Log, t: TxNum, undo: LSN)
    requires AllTxOk(log) && CursorOk(log, t, undo)
    ensures 1 <= undo <= Views(log)[t].last <= |log| && log[undo - 1].OfTx(t)
    ensures log[undo - 1].Update? ==> undo in Views(log)[t].pending && undo == Views(log)[t].Top()
    ensures log[undo - 1].Start? ==> Views(log)[t].pending == []
    ensures log[undo - 1].Update? || log[undo - 1].Start? || log[undo - 1].Abort? || log[undo - 1].Compensation?
    ensures log[undo - 1].Abort? ==> log[undo - 1].prevLSN == Views(log)[t].Top() < undo
    ensures log[undo - 1].Compensation? ==> log[undo - 1].undoNextLSN == Views(log)[t].Top() < undo
    ensures log[undo - 1].Update? ==> log[undo - 1].prevLSN < undo
  {
    TxFacts(log, t);
    assert OwnAt(log, t, Views(log)[t], undo - 1);
    CursorBound(log, t, Views(log)[t], undo);
    CursorFactsOf(log, t, Views(log)[t], undo);
  }
}

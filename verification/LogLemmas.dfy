/** Facts that hold of every well-formed log. */
module LogLemmas {
  import opened LogModel

  lemma Snoc(log: Log, r: Record)
    ensures Init(log + [r]) == log && Last(log + [r]) == r
    ensures Views(log + [r]) == ViewStep(Views(log), r, |log| + 1)
    ensures forall b :: Replay(log + [r], b) == ApplyRecord(Replay(log, b), r, |log| + 1, b)
    ensures WfLog(log + [r]) <==> WfLog(log) && OkAppend(log, r)
  {
    assert Init(log + [r]) == log;
  }

  lemma SplitLast(log: Log)
    requires log != []
    ensures log == Init(log) + [Last(log)]
  {
  }

  lemma {:induction false} WfPrefix(log: Log, n: nat)
    requires WfLog(log) && n <= |log|
    ensures WfLog(log[..n])
  {
    if n == |log| {
      assert log[..n] == log;
    } else {
      WfPrefix(Init(log), n);
      assert Init(log)[..n] == log[..n];
    }
  }

  /** A record of a well-formed log was a legal continuation of the records before it. */
  lemma {:induction false} WfAt(log: Log, i: nat)
    requires WfLog(log) && i < |log|
    ensures WfLog(log[..i]) && OkAppend(log[..i], log[i])
  {
    WfPrefix(log, i + 1);
    assert Init(log[..i + 1]) == log[..i];
  }

  // ---------------------------------------------------------------- transaction chains

  ghost predicate PendingOk(log: Log, t: TxNum, x: TxInfo, i: nat)
    requires i < |x.pending|
  {
    var p := x.pending[i];
    var before := if i == 0 then x.start else x.pending[i - 1];
    && x.start <= before < p <= x.last <= |log|
    && 1 <= p
    && log[p - 1].Update? && log[p - 1].txnum == t && log[p - 1].prevLSN == before
  }

  /** `lsn` is the ABORT or a compensation record of `t`, and undoing continues at `x.Top()`. */
  ghost predicate PointsToTop(log: Log, t: TxNum, x: TxInfo, lsn: LSN) {
    && 1 <= lsn <= |log|
    && x.Top() < lsn
    && var r := log[lsn - 1];
    && r.OfTx(t)
    && ((r.Abort? && r.prevLSN == x.Top()) || (r.Compensation? && r.undoNextLSN == x.Top()))
  }

  ghost predicate ChainOk(log: Log, t: TxNum, x: TxInfo) {
    && t >= 0
    && 1 <= x.start <= x.last <= |log|
    && log[x.start - 1] == Start(t)
    && log[x.last - 1].OfTx(t)
    && (forall i | 0 <= i < |x.pending| :: PendingOk(log, t, x, i))
    && (x.status == Running ==> x.last == x.Top())
    && (x.status == Committed ==> x.pending == [] && log[x.last - 1].Commit?)
    && (x.status == Aborting ==> PointsToTop(log, t, x, x.last))
  }

  /** Record `i` is not of `t`, or not after `x.last`; and while `t` runs, if it follows its START it is a
      pending update. */
  ghost predicate OwnAt(log: Log, t: TxNum, x: TxInfo, i: int) {
    0 <= i < |log| && log[i].OfTx(t) ==>
      && i + 1 <= x.last
      && (x.status == Running && 0 <= x.start <= i ==> log[i].Update? && i + 1 in x.pending)
  }

  ghost predicate OwnOk(log: Log, t: TxNum, x: TxInfo) {
    forall i :: OwnAt(log, t, x, i)
  }

  /** Record `i` is of `t` if it writes the block of its outstanding update at LSN `p`. */
  ghost predicate OwnsAt(log: Log, t: TxNum, x: TxInfo, p: LSN, i: int) {
    p in x.pending && 1 <= p <= i < |log| && log[p - 1].Dirties() && log[i].Writes(log[p - 1].blk) ==> log[i].txnum == t
  }

  /** Once `t` has an outstanding update on a block, nobody else writes that block. */
  ghost predicate OwnsBlocks(log: Log, t: TxNum, x: TxInfo) {
    forall p, i :: OwnsAt(log, t, x, p, i)
  }

  ghost predicate TxOk(log: Log, t: TxNum, x: TxInfo) {
    ChainOk(log, t, x) && OwnOk(log, t, x) && OwnsBlocks(log, t, x)
  }

  ghost predicate AllTxOk(log: Log) {
    var v := Views(log);
    forall t | t in v :: TxOk(log, t, v[t])
  }

  lemma TxFacts(log: Log, t: TxNum)
    requires AllTxOk(log) && t in Views(log)
    ensures TxOk(log, t, Views(log)[t])
  {
  }

  /** A record of `t` is not after its last one. */
  lemma OwnRecord(log: Log, t: TxNum, i: nat)
    requires AllTxOk(log) && t in Views(log) && i < |log| && log[i].OfTx(t)
    ensures i + 1 <= Views(log)[t].last
    ensures Views(log)[t].status == Running && Views(log)[t].start <= i ==>
              log[i].Update? && i + 1 in Views(log)[t].pending
  {
    TxFacts(log, t);
    assert OwnAt(log, t, Views(log)[t], i);
  }

  lemma PendingIsUpdate(log: Log, t: TxNum, p: LSN)
    requires AllTxOk(log) && t in Views(log) && p in Views(log)[t].pending
    ensures 1 <= Views(log)[t].start < p <= Views(log)[t].last <= |log|
    ensures log[p - 1].Update? && log[p - 1].txnum == t
  {
    TxFacts(log, t);
    var x := Views(log)[t];
    var i :| 0 <= i < |x.pending| && x.pending[i] == p;
    assert PendingOk(log, t, x, i);
  }

  /** Whoever writes a block on which `t` has an outstanding update is `t`. */
  lemma OwnedBy(log: Log, t: TxNum, p: LSN, i: int)
    requires AllTxOk(log) && t in Views(log)
    ensures OwnsAt(log, t, Views(log)[t], p, i)
  {
    TxFacts(log, t);
  }

  lemma OwnersApart(log: Log, t: TxNum, x: TxInfo, p: LSN, u: TxNum, y: TxInfo, q: LSN)
    requires OwnsAt(log, t, x, p, q - 1) && OwnsAt(log, u, y, q, p - 1) && t != u
    requires p in x.pending && q in y.pending && 1 <= p <= |log| && 1 <= q <= |log|
    requires log[p - 1].Update? && log[p - 1].txnum == t && log[q - 1].Update? && log[q - 1].txnum == u
    ensures log[p - 1].blk != log[q - 1].blk
  {
  }

  /** Two transactions never have outstanding updates on one block. */
  lemma PendingApart(log: Log, t: TxNum, p: LSN, u: TxNum, q: LSN)
    requires AllTxOk(log) && t in Views(log) && u in Views(log) && t != u
    requires p in Views(log)[t].pending && q in Views(log)[u].pending
    ensures 1 <= p <= |log| && log[p - 1].Dirties() && 1 <= q <= |log| && log[q - 1].Dirties()
    ensures log[p - 1].blk != log[q - 1].blk
  {
    PendingIsUpdate(log, t, p);
    PendingIsUpdate(log, u, q);
    OwnedBy(log, t, p, q - 1);
    OwnedBy(log, u, q, p - 1);
    OwnersApart(log, t, Views(log)[t], p, u, Views(log)[u], q);
  }

  lemma TopIsPending(x: TxInfo)
    requires x.pending != []
    ensures x.Top() in x.pending
  {
  }

  /** A legal compensation record is for an outstanding update of its transaction. */
  lemma CompensationTarget(log: Log, r: Record) returns (q: LSN)
    requires OkAppend(log, r) && r.Compensation?
    ensures r.txnum in Views(log) && q in Views(log)[r.txnum].pending
    ensures 1 <= q <= |log| && log[q - 1].Update? && log[q - 1].blk == r.blk
  {
    q := Views(log)[r.txnum].Top();
    TopIsPending(Views(log)[r.txnum]);
  }

  /** A page-changing record of another transaction is for a block `t` has no outstanding update on. */
  lemma WritesElsewhere(log: Log, r: Record, t: TxNum, p: LSN)
    requires AllTxOk(log) && OkAppend(log, r)
    requires t in Views(log) && !r.OfTx(t) && r.Dirties()
    requires p in Views(log)[t].pending
    ensures 1 <= p <= |log| && log[p - 1].Dirties() && !r.Writes(log[p - 1].blk)
  {
    PendingIsUpdate(log, t, p);
    if r.Compensation? {
      var q := CompensationTarget(log, r);
      PendingApart(log, t, p, r.txnum, q);
    }
  }

  /** A record of another transaction leaves what is known about `t` in place. */
  lemma TxOkOther(log: Log, r: Record, t: TxNum)
    requires AllTxOk(log) && OkAppend(log, r)
    requires t in Views(log) && !r.OfTx(t)
    ensures t in Views(log + [r]) && Views(log + [r])[t] == Views(log)[t]
    ensures TxOk(log + [r], t, Views(log)[t])
  {
    Snoc(log, r);
    var x := Views(log)[t];
    TxFacts(log, t);
    var log' := log + [r];
    forall i | 0 <= i < |x.pending| ensures PendingOk(log', t, x, i) {
      assert PendingOk(log, t, x, i);
    }
    forall i ensures OwnAt(log', t, x, i) {
      assert OwnAt(log, t, x, i);
    }
    forall p, i ensures OwnsAt(log', t, x, p, i) {
      assert OwnsAt(log, t, x, p, i);
      if p in x.pending && i == |log| && r.Dirties() { WritesElsewhere(log, r, t, p); }
    }
  }

  lemma ChainOkSelf(log: Log, r: Record, t: TxNum)
    requires OkAppend(log, r) && r.OfTx(t) && !r.Start? && t in Views(log)
    requires t in Views(log + [r])
    requires ChainOk(log, t, Views(log)[t])
    ensures ChainOk(log + [r], t, Views(log + [r])[t])
  {
    Snoc(log, r);
    var log' := log + [r];
    var x, x' := Views(log)[t], Views(log')[t];
    forall i | 0 <= i < |x'.pending| ensures PendingOk(log', t, x', i) {
      if i < |x.pending| { assert PendingOk(log, t, x, i); }
      if r.Update? && i == |x.pending| && i > 0 { assert PendingOk(log, t, x, i - 1); }
    }
    if |x.pending| > 0 { assert PendingOk(log, t, x, |x.pending| - 1); }
    if |x'.pending| > 0 { assert PendingOk(log', t, x', |x'.pending| - 1); }
  }

  lemma OwnOkSelf(log: Log, r: Record, t: TxNum)
    requires OkAppend(log, r) && r.OfTx(t) && !r.Start? && t in Views(log)
    requires t in Views(log + [r])
    requires ChainOk(log, t, Views(log)[t]) && OwnOk(log, t, Views(log)[t])
    ensures OwnOk(log + [r], t, Views(log + [r])[t])
  {
    Snoc(log, r);
    var log' := log + [r];
    var x, x' := Views(log)[t], Views(log')[t];
    forall i ensures OwnAt(log', t, x', i) {
      assert OwnAt(log, t, x, i);
      if i == |log| && r.Update? { assert x'.pending[|x.pending|] == i + 1; }
    }
  }

  lemma OwnsBlocksSelf(log: Log, r: Record, t: TxNum)
    requires OkAppend(log, r) && r.OfTx(t) && !r.Start? && t in Views(log)
    requires t in Views(log + [r])
    requires OwnsBlocks(log, t, Views(log)[t])
    ensures OwnsBlocks(log + [r], t, Views(log + [r])[t])
  {
    Snoc(log, r);
    var log' := log + [r];
    var x, x' := Views(log)[t], Views(log')[t];
    forall p, i ensures OwnsAt(log', t, x', p, i) {
      assert OwnsAt(log, t, x, p, i);
    }
  }

  /** The transaction that wrote the record stays well formed. */
  lemma TxOkSelf(log: Log, r: Record, t: TxNum)
    requires AllTxOk(log) && OkAppend(log, r) && r.OfTx(t)
    requires t in Views(log + [r])
    ensures TxOk(log + [r], t, Views(log + [r])[t])
  {
    Snoc(log, r);
    if !r.Start? {
      TxFacts(log, t);
      ChainOkSelf(log, r, t);
      OwnOkSelf(log, r, t);
      OwnsBlocksSelf(log, r, t);
    }
  }

  lemma AllTxOkSnoc(log: Log, r: Record)
    requires AllTxOk(log) && OkAppend(log, r)
    ensures AllTxOk(log + [r])
  {
    Snoc(log, r);
    var v' := Views(log + [r]);
    forall t | t in v' ensures TxOk(log + [r], t, v'[t]) {
      if r.OfTx(t) { TxOkSelf(log, r, t); } else { TxOkOther(log, r, t); }
    }
  }

  /** Every transaction a well-formed log leaves unfinished is well chained. */
  lemma {:induction false} WfAllTxOk(log: Log)
    requires WfLog(log)
    ensures AllTxOk(log)
  {
    if log != [] {
      WfAllTxOk(Init(log));
      SplitLast(log);
      AllTxOkSnoc(Init(log), Last(log));
    }
  }
}

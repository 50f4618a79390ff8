/** A log's replay, with every outstanding update undone, is the replay of its committed updates. */
module CommittedLemmas {
  import opened Storage
  import opened LogModel
  import opened LogLemmas

  // ---------------------------------------------------------------- who commits

  ghost predicate NotRestarted(log: Log, i: nat, t: TxNum) {
    forall k | i <= k < |log| :: !(log[k].Start? && log[k].txnum == t)
  }

  lemma {:induction false} CommitsFromSnoc(log: Log, r: Record, i: nat, t: TxNum)
    requires i <= |log|
    ensures CommitsFrom(log + [r], i, t) ==
            (CommitsFrom(log, i, t) || (r.Commit? && r.txnum == t && NotRestarted(log, i, t)))
    decreases |log| - i
  {
    if i == |log| {
      assert (log + [r])[i] == r;
      assert !CommitsFrom(log + [r], i + 1, t);
    } else {
      assert (log + [r])[i] == log[i];
      CommitsFromSnoc(log, r, i + 1, t);
    }
  }

  lemma {:induction false} CommittedSnocOther(log: Log, r: Record, n: nat, b: BlockId, f: Field)
    requires n <= |log|
    requires forall i | 0 <= i < n && log[i].Writes(b) && log[i].fld == f :: Winner(log + [r], i) == Winner(log, i)
    ensures CommittedVal(log + [r], n, b, f) == CommittedVal(log, n, b, f)
  {
    if n > 0 { CommittedSnocOther(log, r, n - 1, b, f); }
  }

  /** Only a COMMIT record changes the committed values. */
  lemma CommittedUnlessCommit(log: Log, r: Record, b: BlockId, f: Field)
    requires !r.Commit?
    ensures CommittedValue(log + [r], b, f) == CommittedValue(log, b, f)
  {
    forall i | 0 <= i < |log| && log[i].Writes(b) && log[i].fld == f
      ensures Winner(log + [r], i) == Winner(log, i)
    {
      if log[i].Update? { CommitsFromSnoc(log, r, i + 1, log[i].txnum); }
    }
    CommittedSnocOther(log, r, |log|, b, f);
    assert !Winner(log + [r], |log|);
  }

  /** The last committed write to a field gives its committed value. */
  lemma {:induction false} LastWinner(log: Log, n: nat, i: nat, b: BlockId, f: Field)
    requires i < n <= |log|
    requires log[i].Writes(b) && log[i].fld == f && Winner(log, i)
    requires forall k | i < k < n :: !(log[k].Writes(b) && log[k].fld == f)
    ensures CommittedVal(log, n, b, f) == log[i].newVal
  {
    if n > i + 1 { LastWinner(log, n - 1, i, b, f); }
  }

  /** The last write to a field gives its replayed value. */
  lemma {:induction false} LastWrite(log: Log, i: nat, b: BlockId, f: Field)
    requires i < |log|
    requires log[i].Writes(b) && log[i].fld == f
    requires forall k | i < k < |log| :: !(log[k].Writes(b) && log[k].fld == f)
    ensures Replay(log, b).Get(f) == log[i].newVal
  {
    if i < |log| - 1 { LastWrite(Init(log), i, b, f); }
  }

  // ---------------------------------------------------------------- outstanding updates of a field

  ghost predicate PendingOn(log: Log, t: TxNum, p: LSN, b: BlockId, f: Field) {
    && t in Views(log) && p in Views(log)[t].pending
    && 1 <= p <= |log| && log[p - 1].Update? && log[p - 1].blk == b && log[p - 1].fld == f
  }

  ghost predicate FirstOn(log: Log, t: TxNum, p: LSN, b: BlockId, f: Field) {
    PendingOn(log, t, p, b, f) && forall q | PendingOn(log, t, q, b, f) :: p <= q
  }

  ghost predicate NonePending(log: Log, b: BlockId, f: Field) {
    forall t, p :: !PendingOn(log, t, p, b, f)
  }

  /** With nothing outstanding on the field its replayed value is the committed one; otherwise the
      oldest outstanding update of the field overwrote the committed value. */
  ghost predicate Settled(log: Log, b: BlockId, f: Field) {
    && (NonePending(log, b, f) ==> Replay(log, b).Get(f) == CommittedValue(log, b, f))
    && (forall t, p | FirstOn(log, t, p, b, f) :: log[p - 1].oldVal == CommittedValue(log, b, f))
  }

  lemma PendingIncreasing(log: Log, t: TxNum, i: nat, j: nat)
    requires AllTxOk(log) && t in Views(log)
    requires i < j < |Views(log)[t].pending|
    ensures Views(log)[t].pending[i] < Views(log)[t].pending[j]
    decreases j
  {
    TxFacts(log, t);
    assert PendingOk(log, t, Views(log)[t], j);
    if i < j - 1 { PendingIncreasing(log, t, i, j - 1); }
  }

  lemma {:induction false} LastMatch(log: Log, t: TxNum, b: BlockId, f: Field, n: nat) returns (i: int)
    requires t in Views(log) && n <= |Views(log)[t].pending|
    ensures -1 <= i < n
    ensures i >= 0 ==> PendingOn(log, t, Views(log)[t].pending[i], b, f)
    ensures forall j | i < j < n :: !PendingOn(log, t, Views(log)[t].pending[j], b, f)
  {
    if n == 0 { i := -1; }
    else if PendingOn(log, t, Views(log)[t].pending[n - 1], b, f) { i := n - 1; }
    else { i := LastMatch(log, t, b, f, n - 1); }
  }

  lemma LastPendingOn(log: Log, t: TxNum, b: BlockId, f: Field) returns (q: LSN)
    requires AllTxOk(log) && exists p :: PendingOn(log, t, p, b, f)
    ensures PendingOn(log, t, q, b, f) && forall p | PendingOn(log, t, p, b, f) :: p <= q
  {
    var pending := Views(log)[t].pending;
    var i := LastMatch(log, t, b, f, |pending|);
    var p :| PendingOn(log, t, p, b, f);
    q := pending[i];
    forall p | PendingOn(log, t, p, b, f) ensures p <= q {
      var j :| 0 <= j < |pending| && pending[j] == p;
      if j < i { PendingIncreasing(log, t, j, i); }
    }
  }

  lemma OthersNotPending(log: Log, t: TxNum, p: LSN, b: BlockId, f: Field)
    requires AllTxOk(log) && PendingOn(log, t, p, b, f)
    ensures forall u, q | PendingOn(log, u, q, b, f) :: u == t
  {
    forall u, q | PendingOn(log, u, q, b, f) ensures u == t {
      if u != t { PendingApart(log, t, p, u, q); }
    }
  }

  /** While `t` runs, its last outstanding update of a field is the field's last write. */
  lemma RunningOwnsField(log: Log, t: TxNum, q: LSN, b: BlockId, f: Field)
    requires AllTxOk(log) && t in Views(log) && Views(log)[t].status == Running
    requires PendingOn(log, t, q, b, f) && forall p | PendingOn(log, t, p, b, f) :: p <= q
    ensures forall k | q <= k < |log| :: !(log[k].Writes(b) && log[k].fld == f)
  {
    PendingIsUpdate(log, t, q);
    forall k | q - 1 <= k < |log| && log[k].Writes(b) && log[k].fld == f ensures PendingOn(log, t, k + 1, b, f) {
      RunningWrites(log, t, q, k);
    }
    forall k | q <= k < |log| ensures !(log[k].Writes(b) && log[k].fld == f) {
      var p := k + 1;
      assert PendingOn(log, t, p, b, f) ==> p <= q;
    }
  }

  /** While `t` runs, a write to a block it has an outstanding update on is outstanding as well. */
  lemma RunningWrites(log: Log, t: TxNum, q: LSN, k: nat)
    requires AllTxOk(log) && t in Views(log) && Views(log)[t].status == Running && q in Views(log)[t].pending
    requires 1 <= q <= k + 1 <= |log| && log[q - 1].Update? && log[q - 1].txnum == t && log[k].Writes(log[q - 1].blk)
    requires Views(log)[t].start < q
    ensures log[k].Update? && k + 1 in Views(log)[t].pending
  {
    OwnedBy(log, t, q, k);
    OwnRecord(log, t, k);
  }

  // ---------------------------------------------------------------- one record more

  /** The outstanding updates of a field after one more record. */
  lemma PendingSnoc(log: Log, r: Record, b: BlockId, f: Field)
    requires AllTxOk(log) && OkAppend(log, r)
    ensures !r.Dirties() && !r.Commit? ==>
              forall t, p :: PendingOn(log + [r], t, p, b, f) <==> PendingOn(log, t, p, b, f)
    ensures r.Commit? ==>
              forall t, p :: PendingOn(log + [r], t, p, b, f) <==> t != r.txnum && PendingOn(log, t, p, b, f)
    ensures r.Update? ==>
              forall t, p :: PendingOn(log + [r], t, p, b, f) <==>
                             (PendingOn(log, t, p, b, f) ||
                              (t == r.txnum && p == |log| + 1 && r.blk == b && r.fld == f))
  {
    Snoc(log, r);
    forall t, p ensures t in Views(log) && p in Views(log)[t].pending ==> 1 <= p <= |log| {
      if t in Views(log) && p in Views(log)[t].pending { PendingIsUpdate(log, t, p); }
    }
    if r.End? { TxFacts(log, r.txnum); }
  }

  /** Compensation removes the transaction's newest outstanding update. */
  lemma PopPending(log: Log, r: Record)
    requires AllTxOk(log) && OkAppend(log, r) && r.Compensation?
    ensures r.txnum in Views(log + [r])
    ensures var x := Views(log)[r.txnum];
            && (forall p :: p in Views(log + [r])[r.txnum].pending <==> p in x.pending && p != x.Top())
            && (forall p | p in x.pending :: p <= x.Top())
  {
    Snoc(log, r);
    var x, x' := Views(log)[r.txnum], Views(log + [r])[r.txnum];
    var k := |x.pending| - 1;
    forall i | 0 <= i < k ensures x.pending[i] in x'.pending && x.pending[i] < x.Top() {
      assert x'.pending[i] == x.pending[i];
      PendingIncreasing(log, r.txnum, i, k);
    }
    forall p | p in x'.pending ensures p in x.pending && p != x.Top() {
      var i :| 0 <= i < k && x'.pending[i] == p;
      assert p == x.pending[i];
    }
  }

  lemma PendingSnocCompensation(log: Log, r: Record, b: BlockId, f: Field)
    requires AllTxOk(log) && OkAppend(log, r) && r.Compensation?
    ensures var top := Views(log)[r.txnum].Top();
            forall t, p :: PendingOn(log + [r], t, p, b, f) <==>
                           (PendingOn(log, t, p, b, f) && !(t == r.txnum && p == top))
  {
    Snoc(log, r);
    PopPending(log, r);
    var v := Views(log);
    forall t, p ensures t in v && p in v[t].pending ==> 1 <= p <= |log| {
      if t in v && p in v[t].pending { PendingIsUpdate(log, t, p); }
    }
  }

  /** Nothing changes for a field whose outstanding updates, replayed value and committed value stay. */
  lemma SettledSame(log: Log, r: Record, b: BlockId, f: Field)
    requires Settled(log, b, f)
    requires forall t, p :: PendingOn(log + [r], t, p, b, f) <==> PendingOn(log, t, p, b, f)
    requires Replay(log + [r], b).Get(f) == Replay(log, b).Get(f)
    requires CommittedValue(log + [r], b, f) == CommittedValue(log, b, f)
    ensures Settled(log + [r], b, f)
  {
    var log' := log + [r];
    forall t, p | FirstOn(log', t, p, b, f) ensures log'[p - 1].oldVal == CommittedValue(log', b, f) {
      assert FirstOn(log, t, p, b, f);
      assert log'[p - 1] == log[p - 1];
    }
  }

  lemma SettledQuiet(log: Log, r: Record, b: BlockId, f: Field)
    requires AllTxOk(log) && OkAppend(log, r) && Settled(log, b, f)
    requires !r.Dirties() && !r.Commit?
    ensures Settled(log + [r], b, f)
  {
    Snoc(log, r);
    CommittedUnlessCommit(log, r, b, f);
    PendingSnoc(log, r, b, f);
    SettledSame(log, r, b, f);
  }

  lemma SettledUpdate(log: Log, r: Record, b: BlockId, f: Field)
    requires AllTxOk(log) && OkAppend(log, r) && Settled(log, b, f)
    requires r.Update?
    ensures Settled(log + [r], b, f)
  {
    Snoc(log, r);
    CommittedUnlessCommit(log, r, b, f);
    PendingSnoc(log, r, b, f);
    var log' := log + [r];
    var lsn := |log| + 1;
    if r.blk == b && r.fld == f {
      assert PendingOn(log', r.txnum, lsn, b, f);
      forall t, p | FirstOn(log', t, p, b, f) ensures log'[p - 1].oldVal == CommittedValue(log', b, f) {
        if PendingOn(log, t, p, b, f) {
          forall q | PendingOn(log, t, q, b, f) ensures p <= q { assert PendingOn(log', t, q, b, f); }
          assert FirstOn(log, t, p, b, f);
        } else {
          forall u, q ensures !PendingOn(log, u, q, b, f) {
            if PendingOn(log, u, q, b, f) {
              if u != r.txnum { WritesElsewhere(log, r, u, q); }
            }
          }
          assert NonePending(log, b, f);
        }
      }
    } else {
      SettledSame(log, r, b, f);
    }
  }

  lemma SettledCompensation(log: Log, r: Record, b: BlockId, f: Field)
    requires AllTxOk(log) && OkAppend(log, r) && Settled(log, b, f)
    requires r.Compensation?
    ensures Settled(log + [r], b, f)
  {
    Snoc(log, r);
    CommittedUnlessCommit(log, r, b, f);
    PendingSnocCompensation(log, r, b, f);
    PopPending(log, r);
    var log' := log + [r];
    var u, top := r.txnum, Views(log)[r.txnum].Top();
    assert top in Views(log)[u].pending;
    if r.blk == b && r.fld == f {
      assert PendingOn(log, u, top, b, f);
      if NonePending(log', b, f) {
        forall q | PendingOn(log, u, q, b, f) ensures top <= q {
          assert !PendingOn(log', u, q, b, f);
        }
        assert FirstOn(log, u, top, b, f);
      }
    } else if NonePending(log', b, f) {
      forall t, p ensures !PendingOn(log, t, p, b, f) { assert !PendingOn(log', t, p, b, f); }
    }
    forall t, p | FirstOn(log', t, p, b, f) ensures FirstOn(log, t, p, b, f) {
      forall q | PendingOn(log, t, q, b, f) ensures p <= q {
        if t == u && q == top { assert p in Views(log)[u].pending; }
        else { assert PendingOn(log', t, q, b, f); }
      }
    }
  }

  lemma StartFollowsOf(log: Log, t: TxNum, x: TxInfo, i: nat)
    requires ChainOk(log, t, x) && OwnOk(log, t, x) && x.status == Running
    requires i < |log| && log[i].Update? && log[i].txnum == t
    requires i + 1 in x.pending ==> x.start <= i
    ensures NotRestarted(log, i + 1, t) <==> i + 1 in x.pending
  {
    assert log[x.start - 1].Start? && log[x.start - 1].txnum == t;
    assert OwnAt(log, t, x, i);
    forall k | i + 1 <= k < |log| && x.start <= k ensures !(log[k].Start? && log[k].txnum == t) {
      assert OwnAt(log, t, x, k);
    }
  }

  /** `t` starts its current run after position `i` exactly when a START of `t` follows `i`. */
  lemma StartFollows(log: Log, t: TxNum, i: nat)
    requires AllTxOk(log) && t in Views(log) && Views(log)[t].status == Running
    requires i < |log| && log[i].Update? && log[i].txnum == t
    ensures NotRestarted(log, i + 1, t) <==> i + 1 in Views(log)[t].pending
  {
    TxFacts(log, t);
    if i + 1 in Views(log)[t].pending { PendingIsUpdate(log, t, i + 1); }
    StartFollowsOf(log, t, Views(log)[t], i);
  }

  /** COMMIT turns exactly the transaction's outstanding updates into committed ones. */
  lemma CommitWinners(log: Log, r: Record, i: nat)
    requires AllTxOk(log) && OkAppend(log, r) && r.Commit?
    requires i < |log| && log[i].Update?
    ensures Winner(log + [r], i) == (Winner(log, i) || (log[i].txnum == r.txnum && i + 1 in Views(log)[r.txnum].pending))
  {
    CommitsFromSnoc(log, r, i + 1, log[i].txnum);
    if log[i].txnum == r.txnum { StartFollows(log, r.txnum, i); }
  }

  /** COMMIT of a transaction that wrote the field: its last value becomes the committed one. */
  lemma CommitOwnField(log: Log, r: Record, b: BlockId, f: Field)
    requires AllTxOk(log) && OkAppend(log, r) && r.Commit?
    requires exists p :: PendingOn(log, r.txnum, p, b, f)
    ensures NonePending(log + [r], b, f)
    ensures Replay(log + [r], b).Get(f) == CommittedValue(log + [r], b, f)
  {
    Snoc(log, r);
    PendingSnoc(log, r, b, f);
    var t := r.txnum;
    var q := LastPendingOn(log, t, b, f);
    PendingIsUpdate(log, t, q);
    RunningOwnsField(log, t, q, b, f);
    LastWrite(log, q - 1, b, f);
    CommitWinners(log, r, q - 1);
    LastWinner(log + [r], |log| + 1, q - 1, b, f);
    OthersNotPending(log, t, q, b, f);
  }

  /** COMMIT of a transaction that did not write the field leaves its committed value alone. */
  lemma CommitOtherField(log: Log, r: Record, b: BlockId, f: Field)
    requires AllTxOk(log) && OkAppend(log, r) && r.Commit?
    requires forall p :: !PendingOn(log, r.txnum, p, b, f)
    ensures CommittedValue(log + [r], b, f) == CommittedValue(log, b, f)
  {
    forall i | 0 <= i < |log| && log[i].Writes(b) && log[i].fld == f
      ensures Winner(log + [r], i) == Winner(log, i)
    {
      if log[i].Update? {
        CommitWinners(log, r, i);
        assert !PendingOn(log, r.txnum, i + 1, b, f);
      }
    }
    CommittedSnocOther(log, r, |log|, b, f);
  }

  lemma SettledCommit(log: Log, r: Record, b: BlockId, f: Field)
    requires AllTxOk(log) && OkAppend(log, r) && Settled(log, b, f)
    requires r.Commit?
    ensures Settled(log + [r], b, f)
  {
    if exists p :: PendingOn(log, r.txnum, p, b, f) {
      CommitOwnField(log, r, b, f);
    } else {
      CommitOtherField(log, r, b, f);
      Snoc(log, r);
      PendingSnoc(log, r, b, f);
      SettledSame(log, r, b, f);
    }
  }

  /** Every well-formed log is settled at every field. */
  lemma {:induction false} WfSettled(log: Log, b: BlockId, f: Field)
    requires WfLog(log)
    ensures Settled(log, b, f)
  {
    if log == [] {
      assert forall t, p :: !PendingOn(log, t, p, b, f);
    } else {
      var h, r := Init(log), Last(log);
      SplitLast(log);
      WfSettled(h, b, f);
      WfAllTxOk(h);
      if r.Update? { SettledUpdate(h, r, b, f); }
      else if r.Compensation? { SettledCompensation(h, r, b, f); }
      else if r.Commit? { SettledCommit(h, r, b, f); }
      else { SettledQuiet(h, r, b, f); }
    }
  }
}

/** What undoing one transaction does to every field. */
module RollbackLemmas {
  import opened Storage
  import opened LogModel
  import opened LogLemmas
  import opened CommittedLemmas
  import opened Machine
  import opened Invariant

  /** `v` after taking back, newest first, those of the updates `pending` that hit the field. */
  function Restored(log: Log, pending: seq<LSN>, b: BlockId, f: Field, v: Value): Value {
    if pending == [] then v
    else
      var p := pending[|pending| - 1];
      Restored(log, pending[..|pending| - 1], b, f,
               if 1 <= p <= |log| && log[p - 1].Update? && log[p - 1].blk == b && log[p - 1].fld == f
               then log[p - 1].oldVal else v)
  }

  /** The value the field will have once `t` is rolled back. */
  function Reverted(log: Log, t: TxNum, b: BlockId, f: Field): Value {
    var v := Replay(log, b).Get(f);
    if t in Views(log) then Restored(log, Views(log)[t].pending, b, f, v) else v
  }

  lemma {:induction false} RestoredLonger(log: Log, r: Record, pending: seq<LSN>, b: BlockId, f: Field, v: Value)
    requires forall p | p in pending :: p <= |log|
    ensures Restored(log + [r], pending, b, f, v) == Restored(log, pending, b, f, v)
  {
    if pending != [] {
      var p := pending[|pending| - 1];
      var rest := pending[..|pending| - 1];
      forall q | q in rest ensures q <= |log| { assert q in pending; }
      assert p in pending;
      RestoredLonger(log, r, rest, b, f,
                     if 1 <= p <= |log| && log[p - 1].Update? && log[p - 1].blk == b && log[p - 1].fld == f
                     then log[p - 1].oldVal else v);
    }
  }

  /** A compensation record of `t` takes back its newest outstanding update and nothing else. */
  lemma RevertedCompensation(log: Log, r: Record, b: BlockId, f: Field)
    requires AllTxOk(log) && OkAppend(log, r) && r.Compensation?
    ensures Reverted(log + [r], r.txnum, b, f) == Reverted(log, r.txnum, b, f)
  {
    Snoc(log, r);
    var pending := Views(log)[r.txnum].pending;
    var rest := pending[..|pending| - 1];
    forall p | p in rest ensures p <= |log| {
      assert p in pending;
      PendingIsUpdate(log, r.txnum, p);
    }
    RestoredLonger(log, r, rest, b, f, Replay(log + [r], b).Get(f));
  }

  /** An ABORT record changes neither the outstanding updates nor any page. */
  lemma RevertedAbort(log: Log, r: Record, b: BlockId, f: Field)
    requires AllTxOk(log) && OkAppend(log, r) && r.Abort?
    ensures Reverted(log + [r], r.txnum, b, f) == Reverted(log, r.txnum, b, f)
  {
    Snoc(log, r);
    var pending := Views(log)[r.txnum].pending;
    forall p | p in pending ensures p <= |log| { PendingIsUpdate(log, r.txnum, p); }
    RestoredLonger(log, r, pending, b, f, Replay(log, b).Get(f));
  }

  // ---------------------------------------------------------------- a completed undo

  /** From `log` on only compensation records of `t` were written, chained by prevLSN starting at `last`. */
  ghost predicate OnlyCompensated(log: Log, log': Log, t: TxNum, last: LSN) {
    && |log| <= |log'| && log'[..|log|] == log
    && forall i | |log| <= i < |log'| ::
         log'[i].Compensation? && log'[i].txnum == t && log'[i].prevLSN == (if i == |log| then last else i)
  }

  lemma OnlyCompensatedStep(log: Log, r: Record, log': Log, t: TxNum, last: LSN)
    requires r.Compensation? && r.txnum == t && r.prevLSN == last
    requires OnlyCompensated(log + [r], log', t, |log| + 1)
    ensures OnlyCompensated(log, log', t, last)
  {
    assert log'[..|log|] == (log + [r])[..|log|];
    assert log'[|log|] == log'[..|log| + 1][|log|];
  }

  lemma {:induction false} RevertedByUndo(log: Log, log': Log, t: TxNum, last: LSN, b: BlockId, f: Field)
    requires WfLog(log') && OnlyCompensated(log, log', t, last)
    ensures Reverted(log', t, b, f) == Reverted(log, t, b, f)
    decreases |log'|
  {
    if |log'| == |log| {
      assert log' == log;
    } else {
      var h, r := Init(log'), Last(log');
      assert h[..|log|] == log'[..|log|];
      RevertedByUndo(log, h, t, last, b, f);
      WfAllTxOk(h);
      SplitLast(log');
      RevertedCompensation(h, r, b, f);
    }
  }

  // ---------------------------------------------------------------- against the first write

  /** Position `i` holds the first write of the current run of `t` to the field. */
  ghost predicate FirstWrite(log: Log, t: TxNum, i: int, b: BlockId, f: Field) {
    && t in Views(log) && 0 <= Views(log)[t].start <= i < |log|
    && log[i].OfTx(t) && log[i].Writes(b) && log[i].fld == f
    && forall k | Views(log)[t].start <= k < i :: !(log[k].OfTx(t) && log[k].Writes(b) && log[k].fld == f)
  }

  ghost predicate NeverWrote(log: Log, t: TxNum, b: BlockId, f: Field) {
    t in Views(log) &&
    forall k | 0 <= Views(log)[t].start <= k < |log| :: !(log[k].OfTx(t) && log[k].Writes(b) && log[k].fld == f)
  }

  lemma {:induction false} RestoredUntouched(log: Log, pending: seq<LSN>, b: BlockId, f: Field, v: Value)
    requires forall p | p in pending && 1 <= p <= |log| :: !(log[p - 1].Writes(b) && log[p - 1].fld == f)
    ensures Restored(log, pending, b, f, v) == v
  {
    if pending != [] {
      var p := pending[|pending| - 1];
      var rest := pending[..|pending| - 1];
      forall q | q in rest && 1 <= q <= |log| ensures !(log[q - 1].Writes(b) && log[q - 1].fld == f) {
        assert q in pending;
      }
      assert p in pending;
      RestoredUntouched(log, rest, b, f, v);
    }
  }

  lemma {:induction false} RestoredToFirst(log: Log, pending: seq<LSN>, k: nat, b: BlockId, f: Field, v: Value)
    requires k < |pending| && 1 <= pending[k] <= |log|
    requires var r := log[pending[k] - 1]; r.Update? && r.blk == b && r.fld == f
    requires forall j | 0 <= j < k && 1 <= pending[j] <= |log| ::
               !(log[pending[j] - 1].Writes(b) && log[pending[j] - 1].fld == f)
    ensures Restored(log, pending, b, f, v) == log[pending[k] - 1].oldVal
  {
    var n := |pending| - 1;
    var p := pending[n];
    var rest := pending[..n];
    var w := if 1 <= p <= |log| && log[p - 1].Update? && log[p - 1].blk == b && log[p - 1].fld == f
             then log[p - 1].oldVal else v;
    if k == n {
      RestoredUntouched(log, rest, b, f, w);
    } else {
      RestoredToFirst(log, rest, k, b, f, w);
    }
  }

  /** Rolling back a running transaction restores what its first write to the field overwrote. */
  lemma RevertedIsFirstOld(log: Log, t: TxNum, i: nat, b: BlockId, f: Field)
    requires WfLog(log) && FirstWrite(log, t, i, b, f) && Views(log)[t].status == Running
    ensures Reverted(log, t, b, f) == Replay(log[..i], b).Get(f)
  {
    WfAllTxOk(log);
    OwnRecord(log, t, i);
    WfAt(log, i);
    var pending := Views(log)[t].pending;
    var k :| 0 <= k < |pending| && pending[k] == i + 1;
    forall j | 0 <= j < k && 1 <= pending[j] <= |log|
      ensures !(log[pending[j] - 1].Writes(b) && log[pending[j] - 1].fld == f)
    {
      PendingIncreasing(log, t, j, k);
      PendingIsUpdate(log, t, pending[j]);
    }
    RestoredToFirst(log, pending, k, b, f, Replay(log, b).Get(f));
  }

  /** A field the transaction never wrote keeps its value. */
  lemma RevertedIfNeverWrote(log: Log, t: TxNum, b: BlockId, f: Field)
    requires WfLog(log) && NeverWrote(log, t, b, f)
    ensures Reverted(log, t, b, f) == Replay(log, b).Get(f)
  {
    WfAllTxOk(log);
    var pending := Views(log)[t].pending;
    forall p | p in pending && 1 <= p <= |log| ensures !(log[p - 1].Writes(b) && log[p - 1].fld == f) {
      PendingIsUpdate(log, t, p);
    }
    RestoredUntouched(log, pending, b, f, Replay(log, b).Get(f));
  }

  // ---------------------------------------------------------------- a completed rollback

  /** What a rollback of `t`, whose last record was `prev`, appends: ABORT, compensations, END, each
      pointing to the one before. */
  ghost predicate RollbackLog(log: Log, log': Log, t: TxNum, prev: LSN) {
    && |log'| >= |log| + 2
    && OnlyCompensated(log + [Abort(t, prev)], Init(log'), t, |log| + 1)
    && Last(log') == End(t, |log'| - 1)
  }

  lemma RollbackLogIs(log: Log, log': Log, t: TxNum, prev: LSN, last: LSN)
    requires OnlyCompensated(log + [Abort(t, prev)], log', t, |log| + 1)
    requires last == if |log'| == |log| + 1 then |log| + 1 else |log'|
    ensures RollbackLog(log, log' + [End(t, last)], t, prev)
  {
    Snoc(log', End(t, last));
  }

  /** Every field the transaction wrote is back to its value before the first write, all others are
      as they were. */
  ghost predicate Restores(s: State, s': State, t: TxNum) {
    && (forall b, f | NeverWrote(s.log, t, b, f) :: Content(s', b).Get(f) == Content(s, b).Get(f))
    && (forall b, f, i: int | 0 <= i < |s.log| && FirstWrite(s.log, t, i, b, f) ::
          Content(s', b).Get(f) == Replay(s.log[..i], b).Get(f))
  }

  lemma EndKeepsReplay(log: Log, b: BlockId)
    requires log != [] && Last(log).End?
    ensures Replay(log, b) == Replay(Init(log), b)
  {
  }

  /** An END closes a transaction with nothing outstanding. */
  lemma RevertedAtEnd(log: Log, t: TxNum, b: BlockId, f: Field)
    requires WfLog(log) && log != [] && Last(log).End? && Last(log).txnum == t
    ensures Replay(log, b).Get(f) == Reverted(Init(log), t, b, f)
  {
    WfAllTxOk(Init(log));
    TxFacts(Init(log), t);
    EndKeepsReplay(log, b);
  }

  lemma RollbackReverts(log: Log, log': Log, t: TxNum, prev: LSN, b: BlockId, f: Field)
    requires WfLog(log') && RollbackLog(log, log', t, prev)
    ensures WfLog(log) && Replay(log', b).Get(f) == Reverted(log, t, b, f)
  {
    var h := Init(log');
    var log1 := log + [Abort(t, prev)];
    WfPrefix(h, |log1|);
    Snoc(log, Abort(t, prev));
    WfAllTxOk(log);
    RevertedAbort(log, Abort(t, prev), b, f);
    RevertedByUndo(log1, h, t, |log| + 1, b, f);
    RevertedAtEnd(log', t, b, f);
  }

  lemma UpIsCurrent(s: State, b: BlockId)
    requires Inv(s) && s.mode.Up?
    ensures WfLog(s.log) && Content(s, b) == Replay(s.log, b)
  {
    assert Read(s.disk, s.bufs, b) == Replay(s.log, b);
  }

  lemma RunningInLog(s: State, t: TxNum)
    requires Inv(s) && CanCommit(s, t)
    ensures t in Views(s.log) && Views(s.log)[t].status == Running
  {
  }

  lemma RollbackRestores(s: State, s': State, t: TxNum)
    requires Inv(s) && CanCommit(s, t) && Inv(s') && s'.mode.Up?
    requires RollbackLog(s.log, s'.log, t, s.att[t].lastLSN)
    ensures Restores(s, s', t)
  {
    var prev := s.att[t].lastLSN;
    RunningInLog(s, t);
    forall b, f | NeverWrote(s.log, t, b, f) ensures Content(s', b).Get(f) == Content(s, b).Get(f) {
      UpIsCurrent(s, b);
      UpIsCurrent(s', b);
      RollbackReverts(s.log, s'.log, t, prev, b, f);
      RevertedIfNeverWrote(s.log, t, b, f);
    }
    forall b, f, i: int | 0 <= i < |s.log| && FirstWrite(s.log, t, i, b, f)
      ensures Content(s', b).Get(f) == Replay(s.log[..i], b).Get(f)
    {
      UpIsCurrent(s', b);
      RollbackReverts(s.log, s'.log, t, prev, b, f);
      RevertedIsFirstOld(s.log, t, i, b, f);
    }
  }
}

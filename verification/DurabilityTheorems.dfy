/** What commit and recovery promise to their callers. */
module DurabilityTheorems {
  import opened Storage
  import opened LogModel
  import opened LogLemmas
  import opened ReplayLemmas
  import opened CommittedLemmas
  import opened Machine
  import opened Invariant
  import opened Runs
  import opened RunPieces
  import opened RecoveryTheorems
  import opened RestartPieces

  /** When Commit returns, every field the transaction wrote has, as its committed value in the log on
      disk, the value it reads as: no later crash can lose it. */
  lemma CommitIsDurable(s: State, t: TxNum, p: LSN, b: BlockId, f: Field)
    requires Reaches(FRESH, s) && CanCommit(s, t) && PendingOn(s.log, t, p, b, f)
    ensures var s' := Committing(s, t);
            s'.durable <= |s'.log| && CommittedValue(s'.log[..s'.durable], b, f) == Content(s, b).Get(f)
  {
    ReachedInv(s);
    CommitIsLegal(s, t);
    var r := Commit(t, s.att[t].lastLSN);
    CommitOwnField(s.log, r, b, f);
    Snoc(s.log, r);
    assert Read(s.disk, s.bufs, b) == Replay(s.log, b);
    assert Committing(s, t).log[..|s.log| + 1] == s.log + [r];
  }

  lemma CommitIsLegal(s: State, t: TxNum)
    requires Inv(s) && CanCommit(s, t)
    ensures AllTxOk(s.log) && OkAppend(s.log, Commit(t, s.att[t].lastLSN))
  {
    WfAllTxOk(s.log);
  }

  // ---------------------------------------------------------------- recovering again

  lemma RecoveredReads(base: Log, s: State, b: BlockId, f: Field)
    requires Recovered(base, s)
    ensures Content(s, b).Get(f) == CommittedValue(base, b, f)
  {
  }

  /** Crash right after recovery and recover again: nothing is appended and no value changes. */
  lemma SecondRecoverAppendsNothing(base: Log, s: State, s': State)
    requires Reaches(FRESH, s) && Recovered(base, s) && Recovered(DoCrash(s).log, s')
    ensures s'.log == s.log
    ensures forall b, f :: Content(s', b).Get(f) == Content(s, b).Get(f)
  {
    ReachedInv(s);
    assert s.log[..|s.log|] == s.log;
    forall b, f ensures Content(s', b).Get(f) == Content(s, b).Get(f) {
      RecoveredReads(s.log, s', b, f);
      QuietReadsCommitted(s, b, f);
    }
  }

  // ---------------------------------------------------------------- redo over current pages

  /** Page `p` of block `b` after redo has gone over the records from position `m` up to `n`. */
  function RedoOver(log: Log, m: nat, n: nat, b: BlockId, p: PageImage): PageImage
    requires n <= |log|
    decreases n
  {
    if n <= m then p else ApplyRecord(RedoOver(log, m, n - 1, b, p), log[n - 1], n, b)
  }

  predicate WrittenIn(log: Log, m: nat, n: nat, b: BlockId, f: Field)
    requires n <= |log|
  {
    exists k :: m <= k < n && log[k].Writes(b) && log[k].fld == f
  }

  lemma {:induction false} RedoneField(log: Log, m: nat, n: nat, b: BlockId, p: PageImage, f: Field)
    requires n <= |log|
    ensures var q := RedoOver(log, m, n, b, p);
            if WrittenIn(log, m, n, b, f)
            then f in q.fields && f in Replay(log[..n], b).fields && q.fields[f] == Replay(log[..n], b).fields[f]
            else (f in q.fields <==> f in p.fields) && (f in q.fields ==> q.fields[f] == p.fields[f])
    decreases n
  {
    if n > m {
      RedoneField(log, m, n - 1, b, p, f);
      ReplayAt(log, n - 1, b);
      if WrittenIn(log, m, n - 1, b, f) {
        var k :| m <= k < n - 1 && log[k].Writes(b) && log[k].fld == f;
        assert m <= k < n && log[k].Writes(b);
      }
    }
  }

  lemma {:induction false} RedoneLsn(log: Log, m: nat, n: nat, b: BlockId, p: PageImage)
    requires n <= |log|
    ensures var q := RedoOver(log, m, n, b, p);
            q.lsn == p.lsn || q.lsn == Replay(log[..n], b).lsn
    ensures (exists k :: m <= k < n && log[k].Writes(b)) ==> RedoOver(log, m, n, b, p).lsn == Replay(log[..n], b).lsn
    decreases n
  {
    if n > m {
      RedoneLsn(log, m, n - 1, b, p);
      ReplayAt(log, n - 1, b);
      if !log[n - 1].Writes(b) && exists k :: m <= k < n && log[k].Writes(b) {
        var k :| m <= k < n && log[k].Writes(b);
        assert m <= k < n - 1;
      }
    }
  }

  /** Recovering once more in the running process redoes records that the pages in memory already show:
      whatever position redo starts at, every page ends exactly as it was. */
  lemma RedoOfCurrentPageChangesNothing(log: Log, m: nat, b: BlockId)
    ensures RedoOver(log, m, |log|, b, Replay(log, b)) == Replay(log, b)
  {
    var p := Replay(log, b);
    var q := RedoOver(log, m, |log|, b, p);
    assert log[..|log|] == log;
    forall f ensures (f in q.fields <==> f in p.fields) && (f in q.fields ==> q.fields[f] == p.fields[f]) {
      RedoneField(log, m, |log|, b, p, f);
    }
    assert q.fields == p.fields;
    RedoneLsn(log, m, |log|, b, p);
  }
}

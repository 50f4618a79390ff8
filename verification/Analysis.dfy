/** The analysis phase: one pass over the log from the last checkpoint. */
module Analysis {
  import opened Storage
  import opened LogModel
  import opened LogLemmas

  datatype Tables = Tables(att: Att, dpt: Dpt)

  function SetLastLSN(att: Att, t: TxNum, lsn: LSN): Att {
    if t in att then att[t := att[t].(lastLSN := lsn)] else att[t := AttEntry(Running, lsn)]
  }

  function MarkDirty(dpt: Dpt, b: BlockId, lsn: LSN): Dpt {
    if b in dpt then dpt else dpt[b := lsn]
  }

  /** What one record does to the tables; entries already present win over a CHECKPOINT-END. */
  function AnalyzeRecord(a: Tables, r: Record, lsn: LSN): Tables {
    match r
    case CheckpointBegin => a
    case CheckpointEnd(_, att, dpt) => Tables(att + a.att, dpt + a.dpt)
    case Start(t) => a.(att := a.att[t := AttEntry(Running, lsn)])
    case End(t, _) => a.(att := a.att - {t})
    case Commit(t, _) => a.(att := a.att[t := AttEntry(Committed, lsn)])
    case Abort(t, _) => a.(att := a.att[t := AttEntry(Aborting, lsn)])
    case Update(t, _, b, _, _, _) => Tables(SetLastLSN(a.att, t, lsn), MarkDirty(a.dpt, b, lsn))
    case Compensation(t, _, b, _, _, _, _) => Tables(SetLastLSN(a.att, t, lsn), MarkDirty(a.dpt, b, lsn))
  }

  /** The tables after scanning the records at positions `from`, `from + 1`, ... of the log. */
  function Analyze(log: Log, from: nat): Tables {
    if |log| <= from then Tables(map[], map[])
    else AnalyzeRecord(Analyze(Init(log), from), Last(log), |log|)
  }

  lemma AnalyzeSnoc(log: Log, n: nat, from: nat)
    requires n < |log| && from <= n
    ensures Analyze(log[..n + 1], from) == AnalyzeRecord(Analyze(log[..n], from), log[n], n + 1)
  {
    assert Init(log[..n + 1]) == log[..n];
  }

  /** Scanning may start at `lsn`: it is the first LSN, or that of a CHECKPOINT-BEGIN directly
      followed by its CHECKPOINT-END. */
  ghost predicate ScanStart(log: Log, lsn: LSN) {
    lsn == 1 ||
    (1 <= lsn < |log| && log[lsn - 1].CheckpointBegin? && log[lsn].CheckpointEnd? && log[lsn].beginLSN == lsn)
  }

  /** The tables right after the checkpoint are the checkpointed ones. */
  lemma AnalyzeCheckpoint(log: Log, lsn: LSN)
    requires ScanStart(log, lsn) && lsn != 1
    ensures Analyze(log[..lsn + 1], lsn - 1) == Tables(log[lsn].att, log[lsn].dpt)
  {
    AnalyzeSnoc(log, lsn, lsn - 1);
    AnalyzeSnoc(log, lsn - 1, lsn - 1);
  }

  lemma AnalyzeAttStep(log: Log, r: Record, a: Tables)
    requires AllTxOk(log) && OkAppend(log, r) && a.att == AttOf(Views(log))
    ensures AnalyzeRecord(a, r, |log| + 1).att == AttOf(Views(log + [r]))
  {
    Snoc(log, r);
    var x, y := AnalyzeRecord(a, r, |log| + 1).att, AttOf(Views(log + [r]));
    assert x.Keys == y.Keys;
    forall t | t in x ensures x[t] == y[t] {
      if t in a.att { assert a.att[t] == AttEntry(Views(log)[t].status, Views(log)[t].last); }
    }
  }

  /** Once the scan is past the checkpoint's END its transaction table is the one the whole log gives. */
  lemma {:induction false} AnalyzeAtt(log: Log, n: nat, lsn: LSN)
    requires WfLog(log) && ScanStart(log, lsn)
    requires n <= |log| && (lsn == 1 || n > lsn)
    ensures Analyze(log[..n], lsn - 1).att == AttOf(Views(log[..n]))
  {
    if n == 0 {
    } else {
      AnalyzeSnoc(log, n - 1, lsn - 1);
      WfAt(log, n - 1);
      var h := log[..n - 1];
      assert log[..n] == h + [log[n - 1]];
      WfAllTxOk(h);
      if lsn == 1 || n > lsn + 1 {
        AnalyzeAtt(log, n - 1, lsn);
        AnalyzeAttStep(h, log[n - 1], Analyze(h, lsn - 1));
      } else {
        AnalyzeCheckpoint(log, lsn);
        Snoc(h, log[n - 1]);
      }
    }
  }

  // ---------------------------------------------------------------- dirty pages

  /** The page on disk does not show the page change at position `i`. */
  ghost predicate Missing(log: Log, disk: Disk, i: nat) {
    i < |log| && log[i].Dirties() && i + 1 > ReadPage(disk, log[i].blk).lsn
  }

  /** Redo starting at the table's recLSNs reaches every change missing among the first `n` records. */
  ghost predicate DptSound(log: Log, dpt: Dpt, disk: Disk, n: nat) {
    && (forall i | 0 <= i < n && Missing(log, disk, i) :: log[i].blk in dpt && dpt[log[i].blk] <= i + 1)
    && (forall b | b in dpt :: 1 <= dpt[b] <= n)
  }

  /** Every checkpointed dirty page table still covers what is missing on disk from before it. */
  ghost predicate CheckpointsSound(log: Log, disk: Disk) {
    forall e, i | 0 <= i < e < |log| && log[e].CheckpointEnd? && Missing(log, disk, i) ::
      log[i].blk in log[e].dpt && log[e].dpt[log[i].blk] <= i + 1
  }

  /** The record lists the block in a checkpointed table, or changes it. */
  predicate Mentions(r: Record, b: BlockId) { r.Writes(b) || (r.CheckpointEnd? && b in r.dpt) }

  /** The recLSN a record mentions for a block. */
  function Mentioned(r: Record, b: BlockId, lsn: LSN): LSN
    requires Mentions(r, b)
  {
    if r.CheckpointEnd? then r.dpt[b] else lsn
  }

  /** The first record of the scan that mentions the block. */
  ghost predicate FirstMention(log: Log, from: nat, b: BlockId, i: int) {
    from <= i < |log| && Mentions(log[i], b) && forall j | from <= j < i :: !Mentions(log[j], b)
  }

  /** Analysis lists exactly the blocks the scan comes across, each under the recLSN first mentioned for it. */
  lemma {:induction false} AnalyzedBlock(log: Log, from: nat, b: BlockId)
    ensures b in Analyze(log, from).dpt <==> exists i :: FirstMention(log, from, b, i)
    ensures forall i | FirstMention(log, from, b, i) :: Analyze(log, from).dpt[b] == Mentioned(log[i], b, i + 1)
    decreases |log|
  {
    if |log| > from {
      var n := |log| - 1;
      AnalyzedBlock(Init(log), from, b);
      forall i | i < n ensures FirstMention(Init(log), from, b, i) <==> FirstMention(log, from, b, i) {
      }
      if b in Analyze(Init(log), from).dpt {
        var i :| FirstMention(Init(log), from, b, i);
        assert FirstMention(log, from, b, i);
        assert forall k | FirstMention(log, from, b, k) :: k == i;
      } else {
        NotMentioned(Init(log), from, b, n);
        assert Mentions(log[n], b) ==> FirstMention(log, from, b, n);
      }
    }
  }

  lemma {:induction false} NotMentioned(log: Log, from: nat, b: BlockId, n: nat)
    requires n <= |log| && forall i :: !FirstMention(log, from, b, i)
    ensures forall j | from <= j < n :: !Mentions(log[j], b)
    decreases n
  {
    if n > from {
      NotMentioned(log, from, b, n - 1);
      assert !FirstMention(log, from, b, n - 1);
    }
  }

  lemma AnalyzeDptStep(log: Log, n: nat, a: Tables, disk: Disk)
    requires n < |log| && CheckpointsSound(log, disk) && OkAppend(log[..n], log[n])
    requires DptSound(log, a.dpt, disk, n)
    ensures DptSound(log, AnalyzeRecord(a, log[n], n + 1).dpt, disk, n + 1)
  {
    var dpt' := AnalyzeRecord(a, log[n], n + 1).dpt;
    forall i | 0 <= i < n + 1 && Missing(log, disk, i) ensures log[i].blk in dpt' && dpt'[log[i].blk] <= i + 1 {
      if i < n { assert log[i].blk in a.dpt; }
    }
  }

  lemma AnalyzeDptBase(log: Log, lsn: LSN, disk: Disk)
    requires ScanStart(log, lsn) && lsn != 1 && CheckpointsSound(log, disk)
    requires OkAppend(log[..lsn], log[lsn])
    ensures DptSound(log, log[lsn].dpt, disk, lsn + 1)
  {
    forall i | 0 <= i < lsn + 1 && Missing(log, disk, i)
      ensures log[i].blk in log[lsn].dpt && log[lsn].dpt[log[i].blk] <= i + 1
    {
      assert i < lsn;
    }
  }

  lemma {:induction false} AnalyzeDpt(log: Log, n: nat, lsn: LSN, disk: Disk)
    requires WfLog(log) && ScanStart(log, lsn) && CheckpointsSound(log, disk)
    requires n <= |log| && (lsn == 1 || n > lsn)
    ensures DptSound(log, Analyze(log[..n], lsn - 1).dpt, disk, n)
  {
    if n > 0 {
      WfAt(log, n - 1);
      if lsn == 1 || n > lsn + 1 {
        AnalyzeDpt(log, n - 1, lsn, disk);
        AnalyzeDptNext(log, n - 1, lsn, disk);
      } else {
        AnalyzeCheckpoint(log, lsn);
        AnalyzeDptBase(log, lsn, disk);
      }
    }
  }

  lemma AnalyzeDptNext(log: Log, n: nat, lsn: LSN, disk: Disk)
    requires n < |log| && 1 <= lsn <= n + 1 && CheckpointsSound(log, disk) && OkAppend(log[..n], log[n])
    requires DptSound(log, Analyze(log[..n], lsn - 1).dpt, disk, n)
    ensures DptSound(log, Analyze(log[..n + 1], lsn - 1).dpt, disk, n + 1)
  {
    AnalyzeDptStep(log, n, Analyze(log[..n], lsn - 1), disk);
    AnalyzeSnoc(log, n, lsn - 1);
  }

  /** The checkpoint only saves work: the transaction table equals that of a scan of the whole log, and
      every page change newer than its page on disk lies at or after that page's recLSN. */
  lemma CheckpointAnalysisRefinesFullAnalysis(log: Log, lsn: LSN, disk: Disk)
    requires WfLog(log) && ScanStart(log, lsn) && CheckpointsSound(log, disk)
    ensures Analyze(log, lsn - 1).att == Analyze(log, 0).att == AttOf(Views(log))
    ensures DptSound(log, Analyze(log, lsn - 1).dpt, disk, |log|)
  {
    assert log[..|log|] == log;
    AnalyzeAtt(log, |log|, 1);
    AnalyzeAtt(log, |log|, lsn);
    AnalyzeDpt(log, |log|, lsn, disk);
  }
}

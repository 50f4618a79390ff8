/** Recover once more in a process that is up: no transaction is active and the whole log is on disk, as right
    after a Recover.  Pages are still in memory, newer than the records that redo starts with, and may be
    written out or evicted at any moment; redo takes them back to older LSNs before it reaches the end.  A crash
    may cut it off, leaving such pages on disk, and recovery starts again. */
module SecondRecovery {
  import opened Storage
  import opened LogModel
  import opened ReplayLemmas
  import opened Analysis
  import opened Machine
  import opened Invariant
  import opened InvariantRecovery
  import opened RecoveryTheorems
  import opened Runs
  import opened RunPieces
  import opened RestartPieces

  predicate CanRecoverAgain(s: State) {
    s.mode.Up? && s.att == map[] && s.durable == |s.log|
  }

  // ---------------------------------------------------------------- replay seen from its end

  /** Both pages hold the same in the field. */
  predicate SameField(p: PageImage, q: PageImage, f: Field) {
    (f in p.fields <==> f in q.fields) && (f in p.fields ==> p.fields[f] == q.fields[f])
  }

  /** Without a further write to it a field stays as it is. */
  lemma {:induction false} FieldStays(log: Log, n: nat, m: nat, b: BlockId, f: Field)
    requires n <= m <= |log| && forall k | n <= k < m && log[k].Writes(b) :: log[k].fld != f
    ensures SameField(Replay(log[..n], b), Replay(log[..m], b), f)
    decreases m
  {
    if n < m {
      FieldStays(log, n, m - 1, b, f);
      ReplayAt(log, m - 1, b);
    }
  }

  lemma {:induction false} LsnStays(log: Log, n: nat, m: nat, b: BlockId)
    requires n <= m <= |log| && forall k | n <= k < m :: !log[k].Writes(b)
    ensures Replay(log[..n], b).lsn == Replay(log[..m], b).lsn
    decreases m
  {
    if n < m {
      LsnStays(log, n, m - 1, b);
      ReplayAt(log, m - 1, b);
    }
  }

  // ---------------------------------------------------------------- one page during redo

  /** Redo at position `i` has yet to apply record `k` to the block, whose page on disk is `d`. */
  predicate Due(log: Log, d: PageImage, b: BlockId, k: int, i: nat) {
    i <= k < |log| && d.lsn <= k && log[k].Writes(b)
  }

  /** What the page does not show of the whole log is still to be applied. */
  ghost predicate OnlyDueMissing(log: Log, d: PageImage, v: PageImage, b: BlockId, i: nat) {
    && (forall f :: (exists k :: Due(log, d, b, k, i) && log[k].fld == f) || SameField(v, Replay(log, b), f))
    && ((exists k :: Due(log, d, b, k, i)) || v.lsn == Replay(log, b).lsn)
  }

  /** Redo from this page on disk can bring the block up to date. */
  ghost predicate DiskGood(log: Log, dpt: Dpt, d: PageImage, b: BlockId) {
    && (forall k :: Due(log, d, b, k, 0) ==> b in dpt && dpt[b] <= k + 1)
    && OnlyDueMissing(log, d, d, b, 0)
  }

  /** A page in memory is the one on disk, or redo is at work on it and has skipped no record since its LSN, or
      it is up to date. */
  ghost predicate PageGood(log: Log, d: PageImage, v: PageImage, b: BlockId, i: nat) {
    || v == d
    || (v.lsn <= i && d.lsn <= i && forall k | v.lsn <= k < i && 0 <= k < |log| :: !log[k].Writes(b))
    || v == Replay(log, b)
  }

  ghost predicate BlockGood(log: Log, dpt: Dpt, disk: Disk, bufs: Buffers, b: BlockId, i: nat) {
    var d, v := ReadPage(disk, b), Read(disk, bufs, b);
    DiskGood(log, dpt, d, b) && OnlyDueMissing(log, d, v, b, i) && PageGood(log, d, v, b, i)
  }

  ghost predicate CleanOk(disk: Disk, bufs: Buffers) {
    forall b | b in bufs && !Dirty(bufs[b]) :: bufs[b].page == ReadPage(disk, b)
  }

  ghost predicate WritersKnown(log: Log) {
    forall i | 0 <= i < |log| && log[i].Dirties() :: log[i].txnum >= 0
  }

  /** Redo's decision about the record at `i`, for block `b` with page `d` on disk. */
  predicate Redoes(log: Log, dpt: Dpt, d: PageImage, b: BlockId, i: nat)
    requires i < |log|
  {
    log[i].Writes(b) && b in dpt && dpt[b] <= i + 1 && d.lsn < i + 1
  }

  lemma DueIsRedone(log: Log, dpt: Dpt, d: PageImage, b: BlockId, i: nat)
    requires i < |log| && DiskGood(log, dpt, d, b)
    ensures Redoes(log, dpt, d, b, i) <==> Due(log, d, b, i, i)
  {
    assert Due(log, d, b, i, 0) <==> Due(log, d, b, i, i);
  }

  /** A record that is not applied was not missing. */
  lemma SkippedStays(log: Log, d: PageImage, v: PageImage, b: BlockId, i: nat)
    requires i < |log| && OnlyDueMissing(log, d, v, b, i) && PageGood(log, d, v, b, i) && !Due(log, d, b, i, i)
    ensures OnlyDueMissing(log, d, v, b, i + 1) && PageGood(log, d, v, b, i + 1)
  {
    var next := i + 1;
    forall k ensures Due(log, d, b, k, i) <==> Due(log, d, b, k, next) {
      if k == i { assert !Due(log, d, b, k, i); }
    }
    forall f ensures (exists k :: Due(log, d, b, k, next) && log[k].fld == f) || SameField(v, Replay(log, b), f) {
      if !SameField(v, Replay(log, b), f) {
        var k :| Due(log, d, b, k, i) && log[k].fld == f;
        assert Due(log, d, b, k, next);
      }
    }
  }

  /** The record at `i` as the last one for its block: the page then has the LSN and the value of the whole log. */
  lemma LastForBlock(log: Log, b: BlockId, i: nat)
    requires i < |log| && log[i].Writes(b)
    ensures (forall k | i < k < |log| :: !log[k].Writes(b)) ==> Replay(log, b).lsn == i + 1
    ensures (forall k | i < k < |log| && log[k].Writes(b) :: log[k].fld != log[i].fld) ==>
              log[i].fld in Replay(log, b).fields && Replay(log, b).fields[log[i].fld] == log[i].newVal
  {
    assert log[..|log|] == log;
    ReplayAt(log, i, b);
    if forall k | i < k < |log| :: !log[k].Writes(b) { LsnStays(log, i + 1, |log|, b); }
    if forall k | i < k < |log| && log[k].Writes(b) :: log[k].fld != log[i].fld {
      FieldStays(log, i + 1, |log|, b, log[i].fld);
    }
  }

  lemma AppliedField(log: Log, d: PageImage, v: PageImage, b: BlockId, i: nat, f: Field)
    requires i < |log| && OnlyDueMissing(log, d, v, b, i) && Due(log, d, b, i, i)
    ensures var w, next: nat := v.Put(log[i].fld, log[i].newVal, i + 1), i + 1;
            (exists k :: Due(log, d, b, k, next) && log[k].fld == f) || SameField(w, Replay(log, b), f)
  {
    var w := v.Put(log[i].fld, log[i].newVal, i + 1);
    var next: nat := i + 1;
    LastForBlock(log, b, i);
    if f == log[i].fld {
      if k :| i < k < |log| && log[k].Writes(b) && log[k].fld == f {
        assert Due(log, d, b, k, next);
      }
    } else if !SameField(v, Replay(log, b), f) {
      var k :| Due(log, d, b, k, i) && log[k].fld == f;
      assert Due(log, d, b, k, next);
    }
  }

  /** Applying the record leaves only later ones missing. */
  lemma AppliedStays(log: Log, d: PageImage, v: PageImage, b: BlockId, i: nat)
    requires i < |log| && OnlyDueMissing(log, d, v, b, i) && Due(log, d, b, i, i)
    ensures var w := v.Put(log[i].fld, log[i].newVal, i + 1);
            OnlyDueMissing(log, d, w, b, i + 1) && PageGood(log, d, w, b, i + 1)
  {
    var w := v.Put(log[i].fld, log[i].newVal, i + 1);
    var next: nat := i + 1;
    forall f ensures (exists k :: Due(log, d, b, k, next) && log[k].fld == f) || SameField(w, Replay(log, b), f) {
      AppliedField(log, d, v, b, i, f);
    }
    LastForBlock(log, b, i);
    if k :| i < k < |log| && log[k].Writes(b) {
      assert Due(log, d, b, k, next);
    }
  }

  /** One redo step, seen from one block. */
  lemma PageRedo(log: Log, dpt: Dpt, d: PageImage, v: PageImage, b: BlockId, i: nat)
    requires i < |log| && DiskGood(log, dpt, d, b) && OnlyDueMissing(log, d, v, b, i) && PageGood(log, d, v, b, i)
    ensures var w := if Redoes(log, dpt, d, b, i) then ApplyRecord(v, log[i], i + 1, b) else v;
            OnlyDueMissing(log, d, w, b, i + 1) && PageGood(log, d, w, b, i + 1)
  {
    DueIsRedone(log, dpt, d, b, i);
    if Due(log, d, b, i, i) { AppliedStays(log, d, v, b, i); } else { SkippedStays(log, d, v, b, i); }
  }

  /** At the end of the log the page shows all of it. */
  lemma PageAtEnd(log: Log, d: PageImage, v: PageImage, b: BlockId)
    requires OnlyDueMissing(log, d, v, b, |log|)
    ensures v == Replay(log, b)
  {
    var q := Replay(log, b);
    forall k ensures !Due(log, d, b, k, |log|) {
    }
    forall f ensures (f in v.fields <==> f in q.fields) && (f in v.fields ==> v.fields[f] == q.fields[f]) {
      assert SameField(v, q, f);
    }
    assert v.fields.Keys == q.fields.Keys;
    assert v.fields == q.fields;
  }

  lemma NothingDue(log: Log, v: PageImage, b: BlockId, k: int, i: nat)
    requires v == Replay(log, b)
    ensures !Due(log, v, b, k, i)
  {
    assert log[..|log|] == log;
    if Due(log, v, b, k, i) { LsnCoversRecord(log, k, |log|, b); }
  }

  /** A page that is up to date needs no redo. */
  lemma CurrentIsGood(log: Log, dpt: Dpt, v: PageImage, b: BlockId, i: nat)
    requires v == Replay(log, b)
    ensures DiskGood(log, dpt, v, b) && OnlyDueMissing(log, v, v, b, i)
  {
    forall k ensures !Due(log, v, b, k, 0) { NothingDue(log, v, b, k, 0); }
  }

  /** While redo is at work on a page, the same records are due whichever of the two is on disk. */
  lemma SameDue(log: Log, d: PageImage, v: PageImage, b: BlockId, k: int, i: nat)
    requires v.lsn <= i && d.lsn <= i && forall k | v.lsn <= k < i && 0 <= k < |log| :: !log[k].Writes(b)
    ensures Due(log, v, b, k, 0) <==> Due(log, d, b, k, i)
    ensures Due(log, v, b, k, i) <==> Due(log, d, b, k, i)
  {
  }

  /** Writing the page out leaves redo able to bring the block up to date, from here or from its start. */
  lemma BlockFlushed(log: Log, dpt: Dpt, d: PageImage, v: PageImage, b: BlockId, i: nat)
    requires DiskGood(log, dpt, d, b) && OnlyDueMissing(log, d, v, b, i) && PageGood(log, d, v, b, i)
    ensures DiskGood(log, dpt, v, b) && OnlyDueMissing(log, v, v, b, i)
  {
    if v == Replay(log, b) {
      CurrentIsGood(log, dpt, v, b, i);
    } else if v != d {
      AtWorkFlushed(log, dpt, d, v, b, i);
    }
  }

  lemma AtWorkFlushed(log: Log, dpt: Dpt, d: PageImage, v: PageImage, b: BlockId, i: nat)
    requires DiskGood(log, dpt, d, b) && OnlyDueMissing(log, d, v, b, i)
    requires v.lsn <= i && d.lsn <= i && forall k | v.lsn <= k < i && 0 <= k < |log| :: !log[k].Writes(b)
    ensures DiskGood(log, dpt, v, b) && OnlyDueMissing(log, v, v, b, i)
  {
    forall k | Due(log, v, b, k, 0) ensures b in dpt && dpt[b] <= k + 1 {
      SameDue(log, d, v, b, k, i);
      assert Due(log, d, b, k, 0);
    }
    forall k | Due(log, d, b, k, i) ensures Due(log, v, b, k, 0) && Due(log, v, b, k, i) { SameDue(log, d, v, b, k, i); }
    forall f
      ensures (exists k :: Due(log, v, b, k, i) && log[k].fld == f) || SameField(v, Replay(log, b), f)
      ensures (exists k :: Due(log, v, b, k, 0) && log[k].fld == f) || SameField(v, Replay(log, b), f)
    {
      if !SameField(v, Replay(log, b), f) {
        var k :| Due(log, d, b, k, i) && log[k].fld == f;
        assert Due(log, v, b, k, 0) && Due(log, v, b, k, i);
      }
    }
    if k :| Due(log, d, b, k, i) { assert Due(log, v, b, k, 0) && Due(log, v, b, k, i); }
  }

  /** Where redo starts nothing that is due lies behind it. */
  lemma DueAtStart(log: Log, dpt: Dpt, d: PageImage, b: BlockId, i: nat)
    requires DiskGood(log, dpt, d, b) && (b in dpt ==> i < dpt[b])
    ensures OnlyDueMissing(log, d, d, b, i)
  {
    forall k | Due(log, d, b, k, 0) ensures Due(log, d, b, k, i) {
    }
    forall f ensures (exists k :: Due(log, d, b, k, i) && log[k].fld == f) || SameField(d, Replay(log, b), f) {
      if !SameField(d, Replay(log, b), f) {
        var k :| Due(log, d, b, k, 0) && log[k].fld == f;
        assert Due(log, d, b, k, i);
      }
    }
    if k :| Due(log, d, b, k, 0) { assert Due(log, d, b, k, i); }
  }

  // ---------------------------------------------------------------- every step

  /** A recovery under way that began in state `base`: its log and its checkpoint, hence the tables analysis
      finds, stay what they were. */
  ghost predicate Again(base: State, s: State) {
    && s.log == base.log && s.ckptLSN == base.ckptLSN && s.rollbacks == map[] && s.durable == |s.log|
    && CleanOk(s.disk, s.bufs) && WritersKnown(s.log) && Found(base).att == map[]
    && (forall b :: DiskGood(s.log, Found(base).dpt, ReadPage(s.disk, b), b))
    && match s.mode
       case Down => s.bufs == map[]
       case Redoing(i, tables) =>
         tables == Found(base) && forall b :: BlockGood(s.log, Found(base).dpt, s.disk, s.bufs, b, i)
       case Undoing(tables) =>
         tables == Found(base) && forall b :: Content(s, b) == Replay(s.log, b)
       case Up => false
  }

  /** Back in service, with nothing changed. */
  ghost predicate Unchanged(base: State, s: State) {
    && s.mode.Up? && s.log == base.log && s.durable == |s.log| && s.att == map[] && s.rollbacks == map[]
    && forall b :: Content(s, b) == Replay(base.log, b)
  }

  lemma RedoShows(s: State, b: BlockId)
    requires CanRedo(s)
    ensures var v := Read(s.disk, s.bufs, b);
            Read(s.disk, DoRedo(s).bufs, b) ==
            if Redoes(s.log, s.mode.tables.dpt, ReadPage(s.disk, b), b, s.mode.next)
            then ApplyRecord(v, s.log[s.mode.next], s.mode.next + 1, b) else v
  {
  }

  lemma RedoCleanOk(s: State)
    requires CanRedo(s) && CleanOk(s.disk, s.bufs) && WritersKnown(s.log)
    ensures CleanOk(s.disk, DoRedo(s).bufs)
  {
    assert s.log[s.mode.next].Dirties() ==> s.log[s.mode.next].txnum >= 0;
  }

  lemma BlockRedo(s: State, dpt: Dpt, b: BlockId)
    requires CanRedo(s) && dpt == s.mode.tables.dpt && BlockGood(s.log, dpt, s.disk, s.bufs, b, s.mode.next)
    ensures BlockGood(s.log, dpt, s.disk, DoRedo(s).bufs, b, s.mode.next + 1)
  {
    PageRedo(s.log, dpt, ReadPage(s.disk, b), Read(s.disk, s.bufs, b), b, s.mode.next);
    RedoShows(s, b);
  }

  lemma AgainRedo(base: State, s: State)
    requires Again(base, s) && CanRedo(s)
    ensures Again(base, DoRedo(s))
  {
    var dpt, s' := s.mode.tables.dpt, DoRedo(s);
    var next: nat := s.mode.next + 1;
    RedoCleanOk(s);
    forall b ensures BlockGood(s.log, dpt, s'.disk, s'.bufs, b, next) {
      assert BlockGood(s.log, dpt, s.disk, s.bufs, b, s.mode.next);
      BlockRedo(s, dpt, b);
    }
  }

  lemma BlockFlushPage(s: State, dpt: Dpt, c: BlockId, b: BlockId, i: nat)
    requires CanFlushPage(s, c) && BlockGood(s.log, dpt, s.disk, s.bufs, b, i)
    ensures BlockGood(s.log, dpt, DoFlushPage(s, c).disk, DoFlushPage(s, c).bufs, b, i)
  {
    if b == c { BlockFlushed(s.log, dpt, ReadPage(s.disk, b), Read(s.disk, s.bufs, b), b, i); }
  }

  lemma AgainFlushPage(base: State, s: State, c: BlockId)
    requires Again(base, s) && CanFlushPage(s, c)
    ensures Again(base, DoFlushPage(s, c))
  {
    var s', dpt := DoFlushPage(s, c), Found(base).dpt;
    if s.mode.Redoing? {
      forall b
        ensures BlockGood(s.log, dpt, s'.disk, s'.bufs, b, s.mode.next)
        ensures DiskGood(s.log, dpt, ReadPage(s'.disk, b), b)
      {
        assert BlockGood(s.log, dpt, s.disk, s.bufs, b, s.mode.next);
        BlockFlushPage(s, dpt, c, b, s.mode.next);
      }
    } else {
      forall b
        ensures DiskGood(s.log, dpt, ReadPage(s'.disk, b), b) && Content(s', b) == Replay(s.log, b)
      {
        assert DiskGood(s.log, dpt, ReadPage(s.disk, b), b) && Content(s, b) == Replay(s.log, b);
        if b == c { CurrentIsGood(s.log, dpt, Content(s, b), b, 0); }
      }
    }
  }

  /** Loading a page, dropping a clean one. */
  lemma AgainResident(base: State, s: State, s': State)
    requires Again(base, s) && !s.mode.Down? && s' == s.(bufs := s'.bufs) && CleanOk(s'.disk, s'.bufs)
    requires forall b :: Content(s', b) == Content(s, b)
    ensures Again(base, s')
  {
    if s.mode.Redoing? {
      forall b ensures BlockGood(s.log, Found(base).dpt, s'.disk, s'.bufs, b, s.mode.next) {
        assert BlockGood(s.log, Found(base).dpt, s.disk, s.bufs, b, s.mode.next);
        assert Content(s', b) == Content(s, b);
      }
    }
  }

  lemma AgainEndRedo(base: State, s: State)
    requires Again(base, s) && CanEndRedo(s)
    ensures Again(base, DoEndRedo(s))
  {
    forall b ensures Content(s, b) == Replay(s.log, b) {
      assert BlockGood(s.log, Found(base).dpt, s.disk, s.bufs, b, s.mode.next);
      PageAtEnd(s.log, ReadPage(s.disk, b), Content(s, b), b);
    }
  }

  /** Whatever pages the crash leaves on disk, recovery starts again from them. */
  lemma AgainCrash(base: State, s: State)
    requires Again(base, s)
    ensures s.durable <= |s.log| && Again(base, DoCrash(s))
  {
    assert s.log[..|s.log|] == s.log;
  }

  lemma AgainAnalyze(base: State, s: State)
    requires Again(base, s) && s.mode.Down?
    ensures Again(base, DoAnalyze(s))
  {
    var dpt, i := Found(base).dpt, RedoStart(s.log, Found(base).dpt);
    var from: nat := if i >= 0 then i else 0;
    assert DoAnalyze(s).mode == Redoing(from, Found(base));
    forall b ensures BlockGood(s.log, dpt, s.disk, s.bufs, b, from) {
      var d := ReadPage(s.disk, b);
      assert DiskGood(s.log, dpt, d, b);
      StartBlock(s.log, dpt, d, b, from);
    }
  }

  lemma StartBlock(log: Log, dpt: Dpt, d: PageImage, b: BlockId, from: nat)
    requires DiskGood(log, dpt, d, b) && from == (if RedoStart(log, dpt) >= 0 then RedoStart(log, dpt) else 0)
    ensures OnlyDueMissing(log, d, d, b, from)
  {
    if b in dpt {
      assert MinRecLSN(dpt) <= dpt[b];
      if dpt[b] <= from { assert from == 0; }
    }
    if b in dpt ==> from < dpt[b] { DueAtStart(log, dpt, d, b, from); }
  }

  lemma UpStaysUp(s: State, a: Action)
    requires s.mode.Up? && Enabled(s, a) && !a.ACrash?
    ensures Do(s, a).mode.Up?
  {
    if a.ARollbackStep? { RollbackStepKeepsMode(s, a.t); }
  }

  /** Every step keeps it, until the last one brings the process back. */
  lemma AgainStep(base: State, s: State, a: Action)
    requires Again(base, s) && Enabled(s, a)
    ensures if a.AFinish? then Unchanged(base, Do(s, a)) else Again(base, Do(s, a))
  {
    match a
    case AAnalyze => AgainAnalyze(base, s);
    case ARedo => AgainRedo(base, s);
    case AEndRedo => AgainEndRedo(base, s);
    case AFlushPage(b) => AgainFlushPage(base, s, b);
    case ALoad(b, _) => AgainResident(base, s, Do(s, a));
    case ADrop(b) => AgainResident(base, s, Do(s, a));
    case AFlushLog => assert Do(s, a) == s;
    case ACrash => AgainCrash(base, s);
    case _ =>
  }

  // ---------------------------------------------------------------- the beginning

  lemma DiskBegins(s: State, b: BlockId)
    requires Inv(s) && s.mode.Up? && DptSound(s.log, Found(s).dpt, s.disk, |s.log|)
    ensures DiskGood(s.log, Found(s).dpt, ReadPage(s.disk, b), b)
  {
    var d := ReadPage(s.disk, b);
    assert PageOk(s.log, s.durable, d, b);
    assert s.log[..|s.log|] == s.log;
    forall k | Due(s.log, d, b, k, 0) ensures b in Found(s).dpt && Found(s).dpt[b] <= k + 1 {
      assert Missing(s.log, s.disk, k);
    }
    forall f ensures (exists k :: Due(s.log, d, b, k, 0) && s.log[k].fld == f) || SameField(d, Replay(s.log, b), f) {
      if !exists k :: Due(s.log, d, b, k, 0) && s.log[k].fld == f {
        forall k | d.lsn <= k < |s.log| && s.log[k].Writes(b) ensures s.log[k].fld != f { assert Due(s.log, d, b, k, 0); }
        FieldStays(s.log, d.lsn, |s.log|, b, f);
      }
    }
    if !exists k :: Due(s.log, d, b, k, 0) {
      forall k | d.lsn <= k < |s.log| ensures !s.log[k].Writes(b) { assert !Due(s.log, d, b, k, 0); }
      LsnStays(s.log, d.lsn, |s.log|, b);
    }
  }

  /** What analysis finds when every transaction has ended. */
  lemma FoundAgain(s: State)
    requires Inv(s) && CanRecoverAgain(s)
    ensures 0 <= RedoStart(s.log, Found(s).dpt) <= |s.log| && 1 <= s.ckptLSN <= |s.log| + 1
    ensures Found(s).att == map[] && Views(s.log) == map[] && s.rollbacks == map[]
    ensures DptSound(s.log, Found(s).dpt, s.disk, |s.log|)
  {
    CheckpointAnalysisRefinesFullAnalysis(s.log, s.ckptLSN, s.disk);
    EmptyTableEmptyViews(s);
    assert forall t :: t !in s.rollbacks;
    RedoStartCovers(s.log, s.disk, Found(s).dpt, BlockId([], 0));
  }

  lemma BlockBegins(s: State, b: BlockId)
    requires Inv(s) && CanRecoverAgain(s)
    ensures DiskGood(s.log, Found(s).dpt, ReadPage(s.disk, b), b)
    ensures 0 <= RedoStart(s.log, Found(s).dpt)
    ensures BlockGood(s.log, Found(s).dpt, s.disk, s.bufs, b, RedoStart(s.log, Found(s).dpt))
  {
    FoundAgain(s);
    DiskBegins(s, b);
    PagesBegin(s, b);
    var d, v := ReadPage(s.disk, b), Read(s.disk, s.bufs, b);
    CurrentIsGood(s.log, Found(s).dpt, v, b, RedoStart(s.log, Found(s).dpt));
  }

  lemma AgainBegins(s: State)
    requires Reaches(FRESH, s) && CanRecoverAgain(s)
    ensures 0 <= RedoStart(s.log, Found(s).dpt) <= |s.log| && 1 <= s.ckptLSN <= |s.log| + 1
    ensures Found(s).att == map[] && Views(s.log) == map[] && s.rollbacks == map[]
    ensures PagesInLog(s.bufs, s.log)
    ensures Again(s, DoAnalyze(s))
    ensures forall b :: Content(s, b) == Replay(s.log, b)
  {
    ReachedInv(s);
    PageLsnInLog(s);
    FoundAgain(s);
    AnalyzedAgain(s);
    forall b ensures Content(s, b) == Replay(s.log, b) { PagesBegin(s, b); }
  }

  lemma AnalyzedAgain(s: State)
    requires Inv(s) && CanRecoverAgain(s)
    ensures Again(s, DoAnalyze(s))
  {
    FoundAgain(s);
    forall b
      ensures DiskGood(s.log, Found(s).dpt, ReadPage(s.disk, b), b)
      ensures BlockGood(s.log, Found(s).dpt, s.disk, s.bufs, b, RedoStart(s.log, Found(s).dpt))
    {
      BlockBegins(s, b);
    }
    forall b | b in s.bufs && !Dirty(s.bufs[b]) ensures s.bufs[b].page == ReadPage(s.disk, b) { PagesBegin(s, b); }
    forall i | 0 <= i < |s.log| && s.log[i].Dirties() ensures s.log[i].txnum >= 0 { WriterKnown(s.log, i); }
  }

  lemma PagesBegin(s: State, b: BlockId)
    requires Inv(s) && s.mode.Up?
    ensures Content(s, b) == Replay(s.log, b)
    ensures b in s.bufs && !Dirty(s.bufs[b]) ==> s.bufs[b].page == ReadPage(s.disk, b)
  {
    assert Read(s.disk, s.bufs, b) == Replay(s.log, b);
    if b in s.bufs { assert FrameOk(s.log, s.disk, s.bufs[b], b); }
  }

  // ---------------------------------------------------------------- the whole call

  lemma {:induction false} AgainRestarts(base: State, s: State, acts: seq<Action>)
    requires Again(base, s) && Restarts(s, acts)
    ensures Unchanged(base, Restarted(s, acts))
    decreases |acts|
  {
    AgainStep(base, s, acts[0]);
    if |acts| > 1 { AgainRestarts(base, Do(s, acts[0]), acts[1..]); }
  }

  lemma AgainSteadily(base: State, s: State, s': State)
    requires Again(base, s) && Steadily(s, s') && s'.mode.Undoing?
    ensures Again(base, s')
  {
    var p: State -> bool := x => Again(base, x) || x.mode.Up?;
    forall x, a | p(x) && Enabled(x, a) && !a.ACrash? ensures p(Do(x, a)) {
      if Again(base, x) { AgainStep(base, x, a); } else { UpStaysUp(x, a); }
    }
    assert p(s');
  }

  /** The store reads as before and its log is as before. */
  ghost predicate SameStore(s: State, s': State) {
    && s'.mode.Up? && s'.log == s.log && s'.durable == s.durable && s'.att == map[] && s'.rollbacks == s.rollbacks
    && forall b :: Content(s', b) == Content(s, b)
  }

  lemma UnchangedIsSame(s: State, s': State)
    requires Reaches(FRESH, s) && CanRecoverAgain(s) && Unchanged(s, s')
    ensures SameStore(s, s')
  {
    AgainBegins(s);
    forall b ensures Content(s', b) == Content(s, b) {
      assert Content(s', b) == Replay(s.log, b);
    }
  }

  /** From the end of analysis to the end of undo. */
  lemma RecoveredAgain(s: State, s': State)
    requires Reaches(FRESH, s) && CanRecoverAgain(s)
    requires Steadily(DoAnalyze(s), s') && s'.mode.Undoing?
    ensures s'.mode.tables.att == map[] && SameStore(s, DoFinish(s'))
  {
    AgainBegins(s);
    AgainSteadily(s, DoAnalyze(s), s');
    AgainStep(s, s', AFinish);
    assert Do(s', AFinish) == DoFinish(s');
    UnchangedIsSame(s, DoFinish(s'));
  }

  /** A second Recover in a running process appends nothing and leaves every page as it was, its LSN included,
      with any pages written out, evicted and loaded on the way; and if crashes cut it off, so does the recovery
      that completes it. */
  lemma SecondRecoverChangesNothing(before: seq<Action>, again: seq<Action>)
    requires CanRun(FRESH, before) && CanRecoverAgain(Run(FRESH, before))
    requires Restarts(DoAnalyze(Run(FRESH, before)), again)
    ensures SameStore(Run(FRESH, before), Restarted(DoAnalyze(Run(FRESH, before)), again))
  {
    var s := Run(FRESH, before);
    RunReaches(FRESH, before);
    AgainBegins(s);
    AgainRestarts(s, DoAnalyze(s), again);
    UnchangedIsSame(s, Restarted(DoAnalyze(s), again));
  }
}

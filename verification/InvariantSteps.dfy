/** Every action of the store keeps the invariant. */
module InvariantSteps {
  import opened Storage
  import opened LogModel
  import opened LogLemmas
  import opened ReplayLemmas
  import opened Analysis
  import opened UndoLemmas
  import opened Machine
  import opened Invariant

  // ---------------------------------------------------------------- durable part

  lemma PageOkSnoc(log: Log, r: Record, n: nat, p: PageImage, b: BlockId)
    requires PageOk(log, n, p, b)
    ensures PageOk(log + [r], n, p, b)
  {
    assert (log + [r])[..p.lsn] == log[..p.lsn];
  }

  lemma DiskOkSnoc(log: Log, r: Record, durable: nat, disk: Disk)
    requires DiskOk(log, durable, disk)
    ensures DiskOk(log + [r], durable, disk)
  {
    forall b ensures PageOk(log + [r], durable, ReadPage(disk, b), b) {
      PageOkSnoc(log, r, durable, ReadPage(disk, b), b);
    }
  }

  lemma CheckpointsSoundSnoc(log: Log, r: Record, disk: Disk)
    requires CheckpointsSound(log, disk)
    requires r.CheckpointEnd? ==>
               forall i | 0 <= i < |log| && Missing(log, disk, i) :: log[i].blk in r.dpt && r.dpt[log[i].blk] <= i + 1
    ensures CheckpointsSound(log + [r], disk)
  {
    var log' := log + [r];
    forall e, i | 0 <= i < e < |log'| && log'[e].CheckpointEnd? && Missing(log', disk, i)
      ensures log'[i].blk in log'[e].dpt && log'[e].dpt[log'[i].blk] <= i + 1
    {
      assert Missing(log, disk, i);
      if e < |log| { assert log[e].CheckpointEnd?; }
    }
  }

  /** An END record may be appended when its transaction's last record is not an unforced COMMIT. */
  ghost predicate EndAllowed(log: Log, durable: nat, r: Record) {
    r.End? ==> 1 <= r.prevLSN <= |log| && (log[r.prevLSN - 1].Commit? ==> r.prevLSN <= durable)
  }

  lemma BaseAppend(s: State, r: Record)
    requires Base(s) && WfLog(s.log + [r]) && EndAllowed(s.log, s.durable, r)
    requires r.CheckpointEnd? ==>
               forall i | 0 <= i < |s.log| && Missing(s.log, s.disk, i) ::
                 s.log[i].blk in r.dpt && r.dpt[s.log[i].blk] <= i + 1
    ensures Base(Append(s, r))
  {
    DiskOkSnoc(s.log, r, s.durable, s.disk);
    CheckpointsSoundSnoc(s.log, r, s.disk);
  }

  lemma BaseFlushLog(s: State)
    requires Base(s)
    ensures Base(s.(durable := |s.log|))
  {
    var s' := s.(durable := |s.log|);
    forall b ensures PageOk(s.log, |s.log|, ReadPage(s'.disk, b), b) {
      assert PageOk(s.log, s.durable, ReadPage(s.disk, b), b);
    }
  }

  /** Writing a page that shows a longer durable prefix of the log than the page on disk. */
  lemma BaseWritePage(s: State, b: BlockId, p: PageImage)
    requires Base(s) && PageOk(s.log, s.durable, p, b) && ReadPage(s.disk, b).lsn <= p.lsn
    ensures Base(s.(disk := s.disk[b := p]))
    ensures forall dpt :: DptSound(s.log, dpt, s.disk, |s.log|) ==> DptSound(s.log, dpt, s.disk[b := p], |s.log|)
  {
    var disk' := s.disk[b := p];
    forall c ensures PageOk(s.log, s.durable, ReadPage(disk', c), c) {
      assert PageOk(s.log, s.durable, ReadPage(s.disk, c), c);
    }
    assert forall i :: 0 <= i && Missing(s.log, disk', i) ==> Missing(s.log, s.disk, i);
  }

  lemma BaseCrash(s: State)
    requires Base(s)
    ensures Base(DoCrash(s))
  {
    var log' := s.log[..s.durable];
    WfPrefix(s.log, s.durable);
    forall b ensures PageOk(log', s.durable, ReadPage(s.disk, b), b) {
      assert PageOk(s.log, s.durable, ReadPage(s.disk, b), b);
      PrefixOfPrefix(s.log, ReadPage(s.disk, b).lsn, s.durable);
    }
    forall e, i | 0 <= i < e < |log'| && log'[e].CheckpointEnd? && Missing(log', s.disk, i)
      ensures log'[i].blk in log'[e].dpt && log'[e].dpt[log'[i].blk] <= i + 1
    {
      assert s.log[e].CheckpointEnd? && Missing(s.log, s.disk, i);
    }
  }

  // ---------------------------------------------------------------- buffers

  lemma FrameOkSnoc(log: Log, r: Record, disk: Disk, fr: Frame, b: BlockId)
    requires FrameOk(log, disk, fr, b)
    ensures FrameOk(log + [r], disk, fr, b)
  {
    if Dirty(fr) {
      PageOkSnoc(log, r, |log|, fr.page, b);
      assert (log + [r])[..fr.recLSN - 1] == log[..fr.recLSN - 1];
    }
  }

  /** Appending a record that changes no page. */
  lemma PagesQuiet(log: Log, r: Record, disk: Disk, bufs: Buffers)
    requires PagesOk(log, disk, bufs) && !r.Dirties()
    ensures PagesOk(log + [r], disk, bufs)
  {
    Snoc(log, r);
    forall b | b in bufs ensures FrameOk(log + [r], disk, bufs[b], b) {
      FrameOkSnoc(log, r, disk, bufs[b], b);
    }
  }

  /** Appending a page-changing record and applying it to the buffered page. */
  lemma PagesTouched(log: Log, r: Record, disk: Disk, bufs: Buffers, t: TxNum)
    requires PagesOk(log, disk, bufs) && r.Dirties() && r.blk in bufs && t >= 0
    ensures PagesOk(log + [r], disk, Touch(bufs, r.blk, r.fld, r.newVal, |log| + 1, t))
  {
    Snoc(log, r);
    var log', bufs' := log + [r], Touch(bufs, r.blk, r.fld, r.newVal, |log| + 1, t);
    forall b ensures Read(disk, bufs', b) == Replay(log', b) {
      assert Read(disk, bufs, b) == Replay(log, b);
    }
    forall b | b in bufs' ensures FrameOk(log', disk, bufs'[b], b) {
      assert FrameOk(log, disk, bufs[b], b);
      if b != r.blk {
        FrameOkSnoc(log, r, disk, bufs[b], b);
      } else {
        assert Read(disk, bufs, b) == bufs[b].page;
        FrameTouched(log, log', disk, bufs[b], b, r.fld, r.newVal, t);
      }
    }
  }

  /** A buffer whose page showed all of `log` takes the one further record of `log'`. */
  lemma FrameTouched(log: Log, log': Log, disk: Disk, fr: Frame, b: BlockId, f: Field, v: Value, t: TxNum)
    requires |log'| == |log| + 1 && log'[..|log|] == log && t >= 0
    requires FrameOk(log, disk, fr, b) && fr.page == Replay(log, b)
    requires Replay(log', b) == fr.page.Put(f, v, |log'|) && log'[|log|].Writes(b)
    ensures FrameOk(log', disk,
                    Frame(fr.page.Put(f, v, |log'|), t, if fr.recLSN == NO_LSN then |log'| else fr.recLSN, |log'|), b)
  {
    assert log'[..|log'|] == log';
    if Dirty(fr) {
      assert log'[fr.recLSN - 1] == log'[..|log|][fr.recLSN - 1];
      assert log'[..fr.recLSN - 1] == log[..fr.recLSN - 1];
    }
  }

  lemma DptTouched(log: Log, r: Record, disk: Disk, bufs: Buffers, dpt: Dpt, recovered: bool, t: TxNum)
    requires FramesOk(log, disk, bufs) && DptOk(log, bufs, dpt, recovered)
    requires r.Dirties() && r.blk in bufs && t >= 0
    ensures DptOk(log + [r], Touch(bufs, r.blk, r.fld, r.newVal, |log| + 1, t),
                  TouchDpt(bufs, dpt, r.blk, |log| + 1), recovered)
  {
    assert FrameOk(log, disk, bufs[r.blk], r.blk);
  }

  // ---------------------------------------------------------------- rollbacks

  /** Records of other transactions leave cursors valid. */
  lemma RollbacksSnoc(log: Log, r: Record, rollbacks: map<TxNum, Cursor>)
    requires RollbacksOk(log, rollbacks)
    requires forall t | t in rollbacks :: !r.OfTx(t)
    ensures RollbacksOk(log + [r], rollbacks)
  {
    Snoc(log, r);
    forall t | t in rollbacks
      ensures t in Views(log + [r]) && Views(log + [r])[t] == Views(log)[t]
      ensures CursorOk(log + [r], t, rollbacks[t].undoLSN)
    {
      assert CursorOk(log, t, rollbacks[t].undoLSN);
    }
  }

  lemma LocksSnoc(log: Log, r: Record, xlocks: map<BlockId, TxNum>)
    requires AllTxOk(log) && LocksOk(log, xlocks) && !r.Update?
    ensures LocksOk(log + [r], xlocks)
  {
    Snoc(log, r);
    var log' := log + [r];
    var v, v' := Views(log), Views(log');
    forall t, p | t in v' && p in v'[t].pending && 1 <= p <= |log'| && log'[p - 1].Dirties()
      ensures log'[p - 1].blk in xlocks && xlocks[log'[p - 1].blk] == t
    {
      assert t in v && p in v[t].pending;
      PendingIsUpdate(log, t, p);
      assert log[p - 1].Dirties();
    }
  }

  lemma LocksSet(log: Log, r: Record, xlocks: map<BlockId, TxNum>)
    requires AllTxOk(log) && LocksOk(log, xlocks) && r.Update?
    requires r.blk in xlocks ==> xlocks[r.blk] == r.txnum
    ensures LocksOk(log + [r], xlocks[r.blk := r.txnum])
  {
    Snoc(log, r);
    var log', xl := log + [r], xlocks[r.blk := r.txnum];
    var v, v' := Views(log), Views(log');
    forall t, p | t in v' && p in v'[t].pending && 1 <= p <= |log'| && log'[p - 1].Dirties()
      ensures log'[p - 1].blk in xl && xl[log'[p - 1].blk] == t
    {
      if t in v && p in v[t].pending {
        PendingIsUpdate(log, t, p);
        assert log[p - 1].Dirties();
      }
    }
  }

  /** Locks of a transaction with nothing outstanding can be released. */
  lemma LocksRelease(log: Log, xlocks: map<BlockId, TxNum>, t: TxNum)
    requires LocksOk(log, xlocks) && t !in Views(log)
    ensures LocksOk(log, ReleaseLocks(xlocks, t))
  {
  }
}

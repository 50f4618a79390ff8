/** The shared objects recovery works on: the log, the transaction table, the dirty page table and the
    page cache. */
module RecoveryObjects {
  import opened Storage
  import opened LogModel
  import Analysis
  import opened Machine

  datatype Option<+T> = None | Some(value: T)

  ghost predicate Distinct(ts: seq<TxNum>) {
    forall i, j | 0 <= i < j < |ts| :: ts[i] != ts[j]
  }

  /** The log as a sequence of records, the durable ones first. */
  class LogManager {
    var records: Log
    var durable: nat
    var latestLSN: LSN
    var lastSavedLSN: LSN
    var checkpointLSN: LSN

    ghost predicate Valid()
      reads this
    {
      && latestLSN <= |records| && lastSavedLSN <= latestLSN
      && lastSavedLSN <= durable <= |records|
    }

    /** Opening an existing log: everything on disk is durable and nothing was appended yet. */
    constructor (log: Log, ckptLSN: LSN)
      ensures Valid() && records == log && durable == |log| && checkpointLSN == ckptLSN
    {
      records, durable, checkpointLSN := log, |log|, ckptLSN;
      latestLSN, lastSavedLSN := 0, 0;
    }

    /** The current block may be full: it is then written out before the record goes to a new one. */
    method Append(r: Record) returns (lsn: LSN)
      requires Valid()
      modifies this
      ensures Valid() && records == old(records) + [r] && lsn == |records|
      ensures durable == old(durable) || durable == |old(records)|
      ensures lastSavedLSN < lsn && checkpointLSN == old(checkpointLSN)
    {
      var blockFull: bool := *;
      if blockFull { FlushBlock(); }
      records := records + [r];
      latestLSN := |records|;
      lsn := latestLSN;
    }

    method FlushBlock()
      requires Valid()
      modifies this
      ensures Valid() && durable == |records|
      ensures records == old(records) && latestLSN == old(latestLSN) && checkpointLSN == old(checkpointLSN)
      ensures lastSavedLSN == latestLSN
    {
      durable := |records|;
      lastSavedLSN := latestLSN;
    }

    /** After Flush(lsn) the record at `lsn` is durable. */
    method Flush(lsn: LSN)
      requires Valid()
      modifies this
      ensures Valid() && records == old(records) && checkpointLSN == old(checkpointLSN)
      ensures durable == old(durable) || durable == |records|
      ensures lsn > old(lastSavedLSN) ==> durable == |records|
      ensures lsn <= |records| ==> lsn <= durable
    {
      if lsn > lastSavedLSN { FlushBlock(); }
    }

    /** Reads from disk: only durable records are found. */
    method ReadRecordAt(lsn: LSN) returns (r: Option<Record>)
      requires Valid()
      ensures r == if 1 <= lsn <= durable then Some(records[lsn - 1]) else None
    {
      r := if 1 <= lsn <= durable then Some(records[lsn - 1]) else None;
    }

    method WriteLastCheckpointLSN(lsn: LSN)
      requires Valid()
      modifies this
      ensures Valid() && checkpointLSN == lsn
      ensures records == old(records) && durable == old(durable)
    {
      checkpointLSN := lsn;
    }
  }

  /** Reads the log on disk forward, one record at a time. */
  class LogIterator {
    const lm: LogManager
    var next: LSN

    constructor (lm: LogManager, lsn: LSN)
      ensures this.lm == lm && next == lsn
    {
      this.lm, next := lm, lsn;
    }

    method HasNext() returns (more: bool)
      ensures more == (next <= lm.durable)
    {
      more := next <= lm.durable;
    }

    method Next() returns (lsn: LSN, r: Record)
      requires lm.Valid() && 1 <= next <= lm.durable
      modifies this
      ensures lsn == old(next) && r == lm.records[lsn - 1] && next == lsn + 1
    {
      lsn, r := next, lm.records[next - 1];
      next := next + 1;
    }
  }

  class ActiveTrxTable {
    var table: Att

    constructor ()
      ensures table == map[]
    {
      table := map[];
    }

    method SetTrx(t: TxNum, status: Status, lsn: LSN)
      modifies this
      ensures table == old(table)[t := AttEntry(status, lsn)]
    {
      if t !in table {
        table := table[t := AttEntry(status, lsn)];
      } else {
        var e := table[t];
        table := table[t := e.(lastLSN := lsn, status := status)];
      }
    }

    /** The status stays; a transaction the table did not know is a running one. */
    method SetLastLSN(t: TxNum, lsn: LSN)
      modifies this
      ensures table.Keys == old(table).Keys + {t}
      ensures table[t].lastLSN == lsn && table[t].status == (if t in old(table) then old(table)[t].status else Running)
      ensures forall u | u in old(table) && u != t :: table[u] == old(table)[u]
      ensures table == Analysis.SetLastLSN(old(table), t, lsn)
    {
      if t !in table {
        table := table[t := AttEntry(Running, lsn)];
      } else {
        table := table[t := table[t].(lastLSN := lsn)];
      }
    }

    method RemoveTrx(t: TxNum)
      modifies this
      ensures table == old(table) - {t}
    {
      table := table - {t};
    }

    method GetLastLSN(t: TxNum) returns (lsn: Option<LSN>)
      ensures lsn == if t in table then Some(table[t].lastLSN) else None
    {
      lsn := if t in table then Some(table[t].lastLSN) else None;
    }

    /** The transactions of the table, in the arbitrary order of a map iteration. */
    method GetTable() returns (ts: seq<TxNum>)
      ensures forall t :: t in ts <==> t in table
      ensures Distinct(ts)
    {
      ts := [];
      var rest := table.Keys;
      while rest != {}
        invariant rest <= table.Keys
        invariant forall t :: t in ts <==> t in table && t !in rest
        invariant Distinct(ts)
        decreases |rest|
      {
        SomeMember(rest);
        var t :| t in rest;
        rest, ts := rest - {t}, ts + [t];
      }
    }

    method ReplaceSnapshot(snapshot: Att)
      modifies this
      ensures table == snapshot
    {
      table := snapshot;
    }
  }

  class DirtyPageTable {
    var table: Dpt

    constructor ()
      ensures table == map[]
    {
      table := map[];
    }

    /** The first recLSN of a block stays. */
    method MarkDirty(b: BlockId, lsn: LSN)
      modifies this
      ensures table.Keys == old(table).Keys + {b} && (b !in old(table) ==> table[b] == lsn)
      ensures forall c | c in old(table) :: table[c] == old(table)[c]
      ensures table == Analysis.MarkDirty(old(table), b, lsn)
    {
      if b !in table { table := table[b := lsn]; }
    }

    method Clean(b: BlockId)
      modifies this
      ensures table == old(table) - {b}
    {
      table := table - {b};
    }

    /** The smallest recLSN, or none for an empty table. */
    method GetMinRecLSN() returns (m: Option<LSN>)
      ensures m == if table == map[] then None else Some(MinRecLSN(table))
    {
      m := None;
      var rest := table.Keys;
      while rest != {}
        invariant rest <= table.Keys
        invariant m.None? <==> rest == table.Keys
        invariant m.Some? ==> exists b :: b in table.Keys - rest && table[b] == m.value
        invariant m.Some? ==> forall b | b in table.Keys - rest :: m.value <= table[b]
        decreases |rest|
      {
        var b :| b in rest;
        if m.None? || table[b] < m.value { m := Some(table[b]); }
        rest := rest - {b};
        assert b in table.Keys - rest;
      }
      if table != map[] {
        assert table.Keys != {};
        var k := MinRecLSN(table);
      }
    }

    method ReplaceSnapshot(snapshot: Dpt)
      modifies this
      ensures table == snapshot
    {
      table := snapshot;
    }
  }

  // ---------------------------------------------------------------- the page cache

  function EvictedDisk(disk: Disk, bufs: Buffers, v: Option<BlockId>): Disk
    requires v.Some? ==> v.value in bufs
  {
    if v.Some? && Dirty(bufs[v.value]) then disk[v.value := bufs[v.value].page] else disk
  }

  function EvictedBufs(bufs: Buffers, v: Option<BlockId>): Buffers {
    if v.Some? then bufs - {v.value} else bufs
  }

  function EvictedDpt(bufs: Buffers, dpt: Dpt, v: Option<BlockId>): Dpt
    requires v.Some? ==> v.value in bufs
  {
    if v.Some? && Dirty(bufs[v.value]) then dpt - {v.value} else dpt
  }

  /** The choices of a pin are sensible: nothing is evicted for a resident block. */
  predicate CanPin(bufs: Buffers, b: BlockId, v: Option<BlockId>) {
    v.Some? ==> b !in bufs && v.value in bufs
  }

  function PinDisk(disk: Disk, bufs: Buffers, b: BlockId, v: Option<BlockId>): Disk
    requires CanPin(bufs, b, v)
  {
    EvictedDisk(disk, bufs, v)
  }

  function PinBufs(disk: Disk, bufs: Buffers, b: BlockId, v: Option<BlockId>, stale: LSN): Buffers
    requires CanPin(bufs, b, v)
  {
    if b in bufs then bufs
    else EvictedBufs(bufs, v)[b := Frame(ReadPage(PinDisk(disk, bufs, b, v), b), -1, NO_LSN, stale)]
  }

  function PinDpt(bufs: Buffers, dpt: Dpt, b: BlockId, v: Option<BlockId>): Dpt
    requires CanPin(bufs, b, v)
  {
    EvictedDpt(bufs, dpt, v)
  }

  /** Data pages on disk and the buffers over them.  Which buffer is reused, and what pageLSN it still
      carries, is decided by the buffer pool. */
  class PageCache {
    var disk: Disk
    var bufs: Buffers

    constructor (d: Disk)
      ensures disk == d && bufs == map[]
    {
      disk, bufs := d, map[];
    }

    /** Make `b` resident, writing out and dropping a victim if one is needed. */
    method Pin(b: BlockId, lm: LogManager, dptTbl: DirtyPageTable) returns (ghost victim: Option<BlockId>, ghost stale: LSN)
      requires lm.Valid() && forall c | c in bufs && Dirty(bufs[c]) :: bufs[c].pageLSN <= |lm.records|
      modifies this, lm, dptTbl
      ensures lm.Valid() && lm.records == old(lm.records) && lm.checkpointLSN == old(lm.checkpointLSN)
      ensures lm.durable == old(lm.durable) || lm.durable == |lm.records|
      ensures CanPin(old(bufs), b, victim)
      ensures victim.Some? && Dirty(old(bufs)[victim.value]) ==> old(bufs)[victim.value].pageLSN <= lm.durable
      ensures b in old(bufs) ==> lm.durable == old(lm.durable)
      ensures disk == PinDisk(old(disk), old(bufs), b, victim)
      ensures bufs == PinBufs(old(disk), old(bufs), b, victim, stale) && b in bufs
      ensures dptTbl.table == PinDpt(old(bufs), old(dptTbl.table), b, victim)
    {
      victim, stale := None, NO_LSN;
      if b !in bufs {
        var pageLSN: LSN := NO_LSN;
        var free: bool := *;
        if !free && bufs.Keys != {} {
          var v :| v in bufs.Keys;
          victim := Some(v);
          pageLSN := bufs[v].pageLSN;
          Flush(v, lm, dptTbl);
          bufs := bufs - {v};
        }
        stale := pageLSN;
        bufs := bufs[b := Frame(ReadPage(disk, b), -1, NO_LSN, pageLSN)];
      }
    }

    /** Write the page out if it was modified: first the log up to its pageLSN, then the page. */
    method Flush(v: BlockId, lm: LogManager, dptTbl: DirtyPageTable)
      requires lm.Valid() && v in bufs && (Dirty(bufs[v]) ==> bufs[v].pageLSN <= |lm.records|)
      modifies this, lm, dptTbl
      ensures lm.Valid() && lm.records == old(lm.records) && lm.checkpointLSN == old(lm.checkpointLSN)
      ensures lm.durable == old(lm.durable) || lm.durable == |lm.records|
      ensures disk == EvictedDisk(old(disk), old(bufs), Some(v))
      ensures dptTbl.table == EvictedDpt(old(bufs), old(dptTbl.table), Some(v))
      ensures var fr := old(bufs)[v];
              && (Dirty(fr) ==> fr.pageLSN <= lm.durable && bufs == old(bufs)[v := fr.(txnum := -1, recLSN := NO_LSN)])
              && (!Dirty(fr) ==> bufs == old(bufs) && lm.durable == old(lm.durable))
    {
      var fr := bufs[v];
      if Dirty(fr) {
        lm.Flush(fr.pageLSN);
        disk := disk[v := fr.page];
        bufs := bufs[v := fr.(txnum := -1, recLSN := NO_LSN)];
        dptTbl.Clean(v);
      }
    }

    /** Set a field of a resident page and record the modification under its (positive) LSN. */
    method Apply(lsn: LSN, t: TxNum, b: BlockId, f: Field, v: Value, dptTbl: DirtyPageTable)
      requires b in bufs && lsn > 0
      modifies this, dptTbl
      ensures disk == old(disk) && bufs == Touch(old(bufs), b, f, v, lsn, t)
      ensures dptTbl.table == TouchDpt(old(bufs), old(dptTbl.table), b, lsn)
    {
      var fr := bufs[b];
      var recLSN := fr.recLSN;
      if recLSN == NO_LSN {
        recLSN := lsn;
        dptTbl.MarkDirty(b, lsn);
      }
      bufs := bufs[b := Frame(fr.page.Put(f, v, lsn), t, recLSN, lsn)];
    }
  }
}

/** Appending to the log file. */
module LogWriter {
  import opened Storage
  import opened ByteCodec
  import opened Pages
  import opened LogFormat

  /** The log file: its blocks, all of one size. */
  class LogFile {
    const blockSize: nat
    var blocks: seq<Bytes>

    ghost predicate Valid()
      reads this
    {
      20 < blockSize && IsInt32(blockSize + 4) && forall b | 0 <= b < |blocks| :: |blocks[b]| == blockSize
    }

    /** A file without blocks. */
    constructor (blockSize: nat)
      requires 20 < blockSize && IsInt32(blockSize + 4)
      ensures Valid() && this.blockSize == blockSize && blocks == []
    {
      this.blockSize, blocks := blockSize, [];
    }

    method Append() returns (n: nat)
      modifies this
      ensures n == |old(blocks)| && blocks == old(blocks) + [Zeros(blockSize)]
    {
      n := |blocks|;
      blocks := blocks + [Zeros(blockSize)];
    }

    method Write(n: nat, p: Page)
      requires n < |blocks|
      modifies this
      ensures blocks == old(blocks)[n := p.Image()]
    {
      blocks := blocks[n := p.bb[..]];
    }
  }

  // ---------------------------------------------------------------- the file header

  const MAGIC := 0x48474F4C
  const VERSION := 1
  const CKPT_OFFSET := 10

  function HeaderImage(blockSize: nat, ckptLSN: int): Bytes
    requires 20 < blockSize && IsInt32(blockSize) && IsInt32(ckptLSN)
  {
    I32(MAGIC) + I16(VERSION) + I32(blockSize) + I32(ckptLSN) + Zeros(blockSize - 14)
  }

  lemma HeaderWritten(blockSize: nat, ckptLSN: int)
    requires 20 < blockSize && IsInt32(blockSize) && IsInt32(ckptLSN)
    ensures Splice(Splice(Splice(Splice(Zeros(blockSize), 0, I32(MAGIC)), 4, I16(VERSION)), 6, I32(blockSize)), 10, I32(ckptLSN))
            == HeaderImage(blockSize, ckptLSN)
  {
    var z0 := Splice(Zeros(blockSize), 0, I32(MAGIC));
    assert z0 == I32(MAGIC) + Zeros(blockSize - 4);
    var z1 := Splice(z0, 4, I16(VERSION));
    assert z1 == I32(MAGIC) + I16(VERSION) + Zeros(blockSize - 6);
    var z2 := Splice(z1, 6, I32(blockSize));
    assert z2 == I32(MAGIC) + I16(VERSION) + I32(blockSize) + Zeros(blockSize - 10);
    assert Splice(z2, 10, I32(ckptLSN)) == HeaderImage(blockSize, ckptLSN);
  }

  /** Where the fields of the header lie. */
  lemma HeaderLayout(blockSize: nat, ckptLSN: int)
    requires 20 < blockSize && IsInt32(blockSize) && IsInt32(ckptLSN)
    ensures var h := HeaderImage(blockSize, ckptLSN);
            && |h| == blockSize && h[0..4] == I32(0x48474F4C) && h[4..6] == I16(1)
            && h[6..10] == I32(blockSize) && h[10..14] == I32(ckptLSN)
  {
  }

  // ---------------------------------------------------------------- what the file shows

  /** The data blocks of a log file show exactly these records; only the last block can be empty. */
  ghost predicate Shows(blocks: seq<Bytes>, blockSize: nat, phys: seq<Phys>) {
    && |blocks| >= 2 && Layout(blockSize, phys)
    && (if phys == [] then |blocks| == 2 else |blocks| - 2 <= Back(phys).blk < |blocks|)
    && BlocksHold(blocks, |blocks|, phys)
  }

  /** Data blocks 1 up to `n` hold their records. */
  ghost predicate BlocksHold(blocks: seq<Bytes>, n: nat, phys: seq<Phys>)
    requires n <= |blocks|
  {
    n <= 1 || (BlocksHold(blocks, n - 1, phys) && Holds(blocks[n - 1], n - 1, phys))
  }

  lemma {:induction false} BlockHolds(blocks: seq<Bytes>, n: nat, phys: seq<Phys>, b: nat)
    requires n <= |blocks| && BlocksHold(blocks, n, phys) && 1 <= b < n
    ensures Holds(blocks[b], b, phys)
  {
    if b < n - 1 { BlockHolds(blocks, n - 1, phys, b); }
  }

  lemma {:induction false} BlocksHoldBy(blocks: seq<Bytes>, n: nat, phys: seq<Phys>)
    requires n <= |blocks| && forall b | 1 <= b < n :: Holds(blocks[b], b, phys)
    ensures BlocksHold(blocks, n, phys)
  {
    if n > 1 { BlocksHoldBy(blocks, n - 1, phys); }
  }

  lemma {:induction false} BlocksAscend(blockSize: nat, phys: seq<Phys>, j: nat)
    requires Layout(blockSize, phys) && j < |phys|
    ensures 1 <= phys[j].blk <= Back(phys).blk
  {
    if j < |phys| - 1 { LsnIncreasing(blockSize, phys, j, |phys| - 1); }
    LayoutPositive(blockSize, phys, j);
  }

  lemma {:induction false} LayoutPositive(blockSize: nat, phys: seq<Phys>, j: nat)
    requires Layout(blockSize, phys) && j < |phys|
    ensures phys[j].blk >= 1
  {
    LayoutAt(blockSize, phys, j);
    if j > 0 { LayoutPositive(blockSize, phys, j - 1); }
  }

  class LogMgr {
    const file: LogFile
    const logpage: Page
    var currentblk: nat
    var latestLSN: int
    var lastSavedLSN: int
    /** Every physical record appended, how many of them are on disk, and the logical records. */
    ghost var phys: seq<Phys>
    ghost var saved: nat
    ghost var entries: seq<Entry>

    ghost function Bs(): nat { file.blockSize }

    /** Opening the log: an empty file gets its header, one without data blocks its first one; otherwise
        appending goes on in the last block, behind whatever a crash has left there. */
    constructor (file: LogFile, ghost onDisk: seq<Phys>, ghost found: seq<Entry>, ghost ckptLSN: int)
      requires file.Valid()
      requires |file.blocks| >= 1 ==> IsInt32(ckptLSN) && file.blocks[0] == HeaderImage(file.blockSize, ckptLSN)
      requires if |file.blocks| >= 2 then Shows(file.blocks, file.blockSize, onDisk) else onDisk == []
      requires Entries(onDisk, found, |onDisk|)
      modifies file
      ensures this.file == file && fresh(logpage) && fresh(logpage.bb) && Valid() && Accounted()
      ensures phys == onDisk && saved == |onDisk| && entries == found && latestLSN == lastSavedLSN == 0
      ensures file.blocks[0] == HeaderImage(Bs(), if old(file.blocks) == [] then Bs() + 4 else ckptLSN)
    {
      this.file := file;
      logpage := new Page.Log(Zeros(file.blockSize));
      currentblk, latestLSN, lastSavedLSN := 0, 0, 0;
      phys, saved, entries := onDisk, |onDisk|, found;
      new;
      assert phys[..saved] == phys;
      if |file.blocks| == 0 {
        var h := file.Append();
        WriteHeader(file.blockSize + 4);
      }
      if |file.blocks| <= 1 { FirstBlock(); } else { LastBlock(); }
    }

    method FirstBlock()
      requires file.Valid() && |file.blocks| == 1 && phys == [] && saved == 0 && latestLSN == lastSavedLSN == 0
      requires logpage.headerSize == 0 && logpage.Image() == Zeros(Bs())
      modifies this`currentblk, file, logpage.bb
      ensures Valid() && file.blocks[0] == old(file.blocks[0])
    {
      currentblk := file.Append();
      var ok := logpage.SetInt32(0, 4);
      file.Write(currentblk, logpage);
      HoldsNothing(Zeros(Bs()), 1, phys);
    }

    /** Appending goes on where the file ends. */
    method LastBlock()
      requires file.Valid() && |file.blocks| >= 2 && saved == |phys| && latestLSN == lastSavedLSN == 0
      requires Shows(file.blocks, Bs(), phys)
      requires logpage.headerSize == 0 && logpage.bb.Length == Bs()
      modifies this`currentblk, logpage.bb
      ensures Valid()
    {
      currentblk := |file.blocks| - 1;
      logpage.Fill(file.blocks[currentblk]);
      BlockHolds(file.blocks, |file.blocks|, phys, currentblk);
      assert phys[..saved] == phys;
    }

    /** The header block names the checkpoint to start analysis from. */
    method WriteHeader(ckptLSN: int)
      requires file.Valid() && |file.blocks| >= 1 && IsInt32(ckptLSN)
      modifies file
      ensures file.blocks == old(file.blocks)[0 := HeaderImage(Bs(), ckptLSN)]
    {
      var p := new Page.Log(Zeros(file.blockSize));
      var ok := p.SetInt32(0, MAGIC);
      ok := p.SetInt16(4, VERSION);
      ok := p.SetInt32(6, file.blockSize);
      ok := p.SetInt32(CKPT_OFFSET, ckptLSN);
      HeaderWritten(Bs(), ckptLSN);
      file.Write(0, p);
    }

    method WriteLastCheckpointLSN(lsn: int)
      requires Valid() && IsInt32(lsn)
      modifies file
      ensures Valid() && file.blocks == old(file.blocks)[0 := HeaderImage(Bs(), lsn)]
    {
      WriteHeader(lsn);
      HeaderApart(old(file.blocks), HeaderImage(Bs(), lsn), Bs(), phys[..saved]);
    }

    method ReadLastCheckpointLSN(ghost ckptLSN: int) returns (lsn: int)
      requires Valid() && IsInt32(ckptLSN) && file.blocks[0] == HeaderImage(Bs(), ckptLSN)
      ensures lsn == ckptLSN
    {
      var p := new Page.Log(file.blocks[0]);
      lsn := p.GetInt32(CKPT_OFFSET);
      assert HeaderImage(Bs(), ckptLSN)[10..14] == I32(ckptLSN);
      I32RoundTrip(ckptLSN);
    }

    ghost predicate PageOk()
      reads this, logpage.bb
    {
      && logpage.headerSize == 0 && logpage.bb.Length == Bs()
      && Layout(Bs(), phys) && Holds(logpage.Image(), currentblk, phys)
      && currentblk >= 1
      && (if phys == [] then currentblk == 1 else currentblk - 1 <= Back(phys).blk <= currentblk)
    }

    ghost predicate FileOk()
      reads this, file
    {
      && file.Valid() && |file.blocks| == currentblk + 1 && saved <= |phys|
      && Shows(file.blocks, Bs(), phys[..saved])
      && (saved < |phys| ==> phys[saved].blk == currentblk)
    }

    ghost predicate LsnsOk()
      reads this
    {
      && (latestLSN == 0 || (phys != [] && latestLSN == Back(phys).Lsn(Bs())))
      && (lastSavedLSN == 0 || (phys != [] && lastSavedLSN <= Back(phys).Lsn(Bs())))
      && (saved < |phys| ==> lastSavedLSN < phys[saved].Lsn(Bs()))
    }

    ghost predicate Valid()
      reads this, file, logpage.bb
    {
      PageOk() && FileOk() && LsnsOk()
    }

    /** The physical records are those of the entries, some of which may be torn. */
    ghost predicate Accounted()
      reads this
    {
      Entries(phys, entries, |phys|)
    }

    // -------------------------------------------------------------- blocks

    /** Write the current block: everything appended so far is then on disk. */
    method FlushBlock()
      requires Valid()
      modifies this`lastSavedLSN, this`saved, file
      ensures Valid() && saved == |phys| && lastSavedLSN == latestLSN
      ensures file.blocks[0] == old(file.blocks[0])
    {
      ghost var was, n := file.blocks, saved;
      TailInBlock(Bs(), phys, saved, currentblk);
      file.Write(currentblk, logpage);
      lastSavedLSN := latestLSN;
      saved := |phys|;
      FlushedShows(was, Bs(), phys, n, logpage.Image());
      assert phys[..saved] == phys;
    }

    /** A new block is on disk at once, without records; behind its boundary it keeps the bytes of the
        block before. */
    method AppendNewBlock()
      requires Valid() && saved == |phys| && phys != [] && Back(phys).blk == currentblk
      modifies this`currentblk, file, logpage.bb
      ensures Valid() && currentblk == old(currentblk) + 1
      ensures file.blocks[0] == old(file.blocks[0])
      ensures logpage.Image() == file.blocks[currentblk] == Splice(old(logpage.Image()), 0, I32(4))
    {
      ghost var was := file.blocks;
      var n := file.Append();
      var ok := logpage.SetInt32(0, 4);
      file.Write(n, logpage);
      currentblk := n;
      assert phys[..saved] == phys;
      ghost var img := logpage.Image();
      forall j | 0 <= j < |phys| ensures phys[j].blk != n { BlocksAscend(Bs(), phys, j); }
      HoldsNothing(old(logpage.Image()), n, phys);
      assert file.blocks == was + [img];
      GrownShows(was, Bs(), phys, img);
    }

    method EnsureNewBlock()
      requires Valid() && phys != [] && Back(phys).blk == currentblk
      modifies this`currentblk, this`lastSavedLSN, this`saved, file, logpage.bb
      ensures Valid() && saved == |phys| && currentblk == old(currentblk) + 1
      ensures file.blocks[0] == old(file.blocks[0])
      ensures logpage.Image() == file.blocks[currentblk] == Splice(old(logpage.Image()), 0, I32(4))
    {
      FlushBlock();
      AppendNewBlock();
    }

    // -------------------------------------------------------------- physical records

    method Boundary() returns (n: nat)
      requires PageOk() && file.Valid()
      ensures n == EndOf(phys, currentblk) && 4 <= n <= Bs()
    {
      EndOfBound(Bs(), phys, currentblk);
      var v := logpage.GetInt32(0);
      I32RoundTrip(EndOf(phys, currentblk));
      n := v;
    }

    /** A block that has records is the one the last record is in. */
    lemma BoundaryFacts()
      requires PageOk() && file.Valid()
      ensures EndOf(phys, currentblk) > 4 ==> phys != [] && Back(phys).blk == currentblk
      ensures phys != [] && Back(phys).blk == currentblk ==> EndOf(phys, currentblk) == Back(phys).End()
      ensures phys == [] || Back(phys).blk != currentblk ==> EndOf(phys, currentblk) == 4
    {
      if phys == [] || Back(phys).blk != currentblk {
        forall j | 0 <= j < |phys| ensures phys[j].blk != currentblk { BlocksAscend(Bs(), phys, j); }
        EndOfNone(phys, currentblk);
      }
    }

    /** Put one physical record behind the last one, in a new block if it does not fit. */
    method EnsureAndWrite(rec: Bytes)
      requires Valid() && |rec| + 8 <= Bs()
      modifies this`currentblk, this`latestLSN, this`lastSavedLSN, this`saved, this`phys, file, logpage.bb
      ensures Valid() && |phys| == |old(phys)| + 1 && phys[..|old(phys)|] == old(phys) && Back(phys).rec == rec
      ensures latestLSN == Back(phys).Lsn(Bs()) && Back(phys).blk == currentblk
      ensures (saved == old(saved) || saved == |old(phys)|) && saved < |phys|
      ensures file.blocks[0] == old(file.blocks[0])
      ensures old(EndOf(phys, currentblk)) + |rec| + 4 <= Bs() ==> Back(phys).off == old(EndOf(phys, currentblk))
    {
      var boundary := Boundary();
      BoundaryFacts();
      if boundary + |rec| + 4 > file.blockSize {
        EnsureNewBlock();
        boundary := Boundary();
        BoundaryFacts();
      }
      PutRecord(rec, boundary);
    }

    method PutRecord(rec: Bytes, boundary: nat)
      requires Valid() && boundary == EndOf(phys, currentblk) && boundary + |rec| + 4 <= Bs()
      modifies this`latestLSN, this`phys, logpage.bb
      ensures Valid() && phys == old(phys) + [Phys(currentblk, boundary, rec)]
      ensures latestLSN == Back(phys).Lsn(Bs())
    {
      ghost var was, img := phys, logpage.Image();
      ghost var p := Phys(currentblk, boundary, rec);
      BoundaryFacts();
      EndOfBound(Bs(), phys, currentblk);
      HoldsWrite(Bs(), img, was, p);
      LayoutSnoc(Bs(), was, p);
      LsnsGrow(Bs(), was, p, saved, lastSavedLSN);
      PutBytes(rec, boundary);
      latestLSN := file.blockSize * currentblk + boundary;
      phys := phys + [p];
      assert phys[..saved] == was[..saved];
    }

    method PutBytes(rec: Bytes, boundary: nat)
      requires logpage.headerSize == 0 && IsInt32(logpage.bb.Length)
      requires 4 <= boundary && boundary + 4 + |rec| <= logpage.bb.Length
      modifies logpage.bb
      ensures logpage.Image() == Written(old(logpage.Image()), boundary, rec)
    {
      var ok := logpage.SetBytes(boundary, rec);
      ok := logpage.SetInt32(0, boundary + 4 + |rec|);
    }

    // -------------------------------------------------------------- logical records

    predicate FitsAsSingle(logrec: Bytes) { 4 + |logrec| <= file.blockSize - 8 }

    /** Append a record: whole if a block can hold it, else in fragments.  The result is the LSN of its
        first physical record; what was on disk before still is. */
    method Append(logrec: Bytes) returns (lsn: int)
      requires Valid() && Accounted() && IsInt32(|logrec|)
      modifies this`currentblk, this`latestLSN, this`lastSavedLSN, this`saved, this`phys, this`entries, file, logpage.bb
      ensures Valid() && old(saved) <= saved < |phys| && file.blocks[0] == old(file.blocks[0])
      ensures Appended(old(phys), old(entries), phys, entries, logrec)
      ensures lsn == phys[|old(phys)|].Lsn(Bs()) && Back(phys).blk == currentblk
      ensures |phys| == |old(phys)| + 1 <==> 4 + (4 + |logrec|) <= Bs() - 4
    {
      ghost var was := phys;
      ghost var cuts := [0, |logrec|];
      if FitsAsSingle(logrec) {
        lsn := WriteSingleRecord(logrec);
      } else {
        lsn, cuts := WriteFragmentedRecord(logrec);
      }
      ghost var e := Entry(|was|, logrec, cuts, |cuts| - 1);
      EntriesSnoc(was, entries, phys, e);
      entries := entries + [e];
    }

    /** Append of a long record up to the moment when its first fragment, which fills its block, has been written
        out and the next block is not there yet.  After a crash here the log ends in a torn record. */
    method AppendCutOff(logrec: Bytes)
      requires Valid() && Accounted() && IsInt32(|logrec|) && !FitsAsSingle(logrec)
      modifies this`currentblk, this`latestLSN, this`lastSavedLSN, this`saved, this`phys, this`entries, file, logpage.bb
      ensures Valid() && Accounted() && saved == |phys|
      ensures |phys| == |old(phys)| + 1 && phys[..|old(phys)|] == old(phys)
      ensures |entries| == |old(entries)| + 1 && Front(entries) == old(entries)
      ensures Back(entries).payload == logrec && !Back(entries).Whole()
      ensures Back(phys).blk == |file.blocks| - 1 && Back(phys).End() == Bs()
    {
      ghost var was := phys;
      var chunk := WriteFragmentChunk(logrec, 0, true);
      TornSnoc(was, entries, phys, logrec, chunk);
      entries := entries + [TornEntry(|was|, logrec, chunk)];
      FlushBlock();
    }

    method WriteSingleRecord(logrec: Bytes) returns (lsn: int)
      requires Valid() && FitsAsSingle(logrec)
      modifies this`currentblk, this`latestLSN, this`lastSavedLSN, this`saved, this`phys, file, logpage.bb
      ensures Valid() && old(saved) <= saved < |phys| && file.blocks[0] == old(file.blocks[0])
      ensures Grew(old(phys), phys, NormalRec(logrec)) && Back(phys).blk == currentblk
      ensures lsn == phys[|old(phys)|].Lsn(Bs())
    {
      EnsureAndWrite(NormalRec(logrec));
      lsn := latestLSN;
    }

    method WriteFragmentedRecord(logrec: Bytes) returns (firstLsn: int, ghost cuts: seq<nat>)
      requires Valid() && !FitsAsSingle(logrec) && IsInt32(|logrec|)
      modifies this`currentblk, this`latestLSN, this`lastSavedLSN, this`saved, this`phys, file, logpage.bb
      ensures Valid() && old(saved) <= saved < |phys| && file.blocks[0] == old(file.blocks[0])
      ensures CutInto(old(phys), phys, logrec, cuts) && cuts[|cuts| - 1] == |logrec| && |cuts| > 2
      ensures firstLsn == phys[|old(phys)|].Lsn(Bs()) && Back(phys).blk == currentblk
    {
      ghost var was := phys;
      var pos := WriteFragmentChunk(logrec, 0, true);
      firstLsn := latestLSN;
      cuts := WriteRest(logrec, pos, was);
    }

    /** The fragments after the first. */
    method WriteRest(logrec: Bytes, from: nat, ghost was: seq<Phys>) returns (ghost cuts: seq<nat>)
      requires Valid() && !FitsAsSingle(logrec) && IsInt32(|logrec|) && 0 < from < |logrec|
      requires Grew(was, phys, Fragment(logrec, 0, from)) && Back(phys).blk == currentblk && saved < |phys|
      modifies this`currentblk, this`latestLSN, this`lastSavedLSN, this`saved, this`phys, file, logpage.bb
      ensures Valid() && old(saved) <= saved < |phys| && file.blocks[0] == old(file.blocks[0])
      ensures CutInto(was, phys, logrec, cuts) && cuts[|cuts| - 1] == |logrec| && |cuts| > 2
      ensures phys[|was|] == old(phys)[|was|] && Back(phys).blk == currentblk
    {
      var pos := from;
      cuts := [0, pos];
      while pos < |logrec|
        invariant Valid() && old(saved) <= saved < |phys| && file.blocks[0] == old(file.blocks[0])
        invariant CutInto(was, phys, logrec, cuts) && cuts[|cuts| - 1] == pos <= |logrec|
        invariant (|cuts| == 2 ==> pos < |logrec|) && pos > 0
        invariant phys[|was|] == old(phys)[|was|] && Back(phys).blk == currentblk
        decreases |logrec| - pos
      {
        pos, cuts := WriteNext(logrec, pos, was, cuts);
      }
    }

    method WriteNext(logrec: Bytes, pos: nat, ghost was: seq<Phys>, ghost cuts: seq<nat>)
      returns (next: nat, ghost cuts': seq<nat>)
      requires Valid() && !FitsAsSingle(logrec) && 0 < pos < |logrec|
      requires CutInto(was, phys, logrec, cuts) && cuts[|cuts| - 1] == pos && IsInt32(|logrec|)
      modifies this`currentblk, this`latestLSN, this`lastSavedLSN, this`saved, this`phys, file, logpage.bb
      ensures Valid() && old(saved) <= saved < |phys| && file.blocks[0] == old(file.blocks[0])
      ensures CutInto(was, phys, logrec, cuts') && cuts'[|cuts'| - 1] == next && |cuts'| == |cuts| + 1
      ensures pos < next <= |logrec| && phys[|was|] == old(phys)[|was|] && Back(phys).blk == currentblk
    {
      ghost var now := phys;
      var chunk := WriteFragmentChunk(logrec, pos, false);
      next := pos + chunk;
      cuts' := cuts + [next];
      NextCut(was, now, phys, logrec, cuts, next);
    }

    /** Write as much of the record from `pos` on as the current block takes; if it cannot take even a
        header and one byte, a new block is started.  Every fragment but the last fills its block. */
    method WriteFragmentChunk(logrec: Bytes, pos: nat, first: bool) returns (chunk: nat)
      requires Valid() && !FitsAsSingle(logrec) && IsInt32(|logrec|) && pos < |logrec| && first == (pos == 0)
      modifies this`currentblk, this`latestLSN, this`lastSavedLSN, this`saved, this`phys, file, logpage.bb
      ensures Valid() && old(saved) <= saved < |phys| && file.blocks[0] == old(file.blocks[0])
      ensures 0 < chunk <= |logrec| - pos && (first ==> chunk < |logrec|)
      ensures Grew(old(phys), phys, Fragment(logrec, pos, pos + chunk)) && latestLSN == Back(phys).Lsn(Bs())
      ensures Back(phys).blk == currentblk && (pos + chunk < |logrec| ==> Back(phys).End() == Bs())
    {
      var chunkLimit := ChunkLimit(first);
      if chunkLimit <= 0 {
        StartNewBlock();
        chunkLimit := ChunkLimit(first);
      }
      chunk := PutChunk(logrec, pos, chunkLimit);
    }

    /** The largest chunk that still fits in the current block. */
    method ChunkLimit(first: bool) returns (limit: int)
      requires PageOk() && file.Valid()
      ensures limit == Bs() - (EndOf(phys, currentblk) + 4 + if first then 12 else 8)
      ensures EndOf(phys, currentblk) >= 4
    {
      var boundary := Boundary();
      limit := file.blockSize - (boundary + 4 + if first then 12 else 8);
    }

    method PutChunk(logrec: Bytes, pos: nat, chunkLimit: nat) returns (chunk: nat)
      requires Valid() && IsInt32(|logrec|) && pos < |logrec| && chunkLimit > 0
      requires chunkLimit == Bs() - (EndOf(phys, currentblk) + 4 + if pos == 0 then 12 else 8)
      requires EndOf(phys, currentblk) >= 4
      modifies this`currentblk, this`latestLSN, this`lastSavedLSN, this`saved, this`phys, file, logpage.bb
      ensures Valid() && old(saved) <= saved < |phys| && file.blocks[0] == old(file.blocks[0])
      ensures 0 < chunk <= |logrec| - pos && chunk <= chunkLimit
      ensures Grew(old(phys), phys, Fragment(logrec, pos, pos + chunk)) && latestLSN == Back(phys).Lsn(Bs())
      ensures Back(phys).blk == currentblk && (pos + chunk < |logrec| ==> Back(phys).End() == Bs())
    {
      chunk := if |logrec| - pos < chunkLimit then |logrec| - pos else chunkLimit;
      EnsureAndWrite(Fragment(logrec, pos, pos + chunk));
    }

    method StartNewBlock()
      requires Valid() && EndOf(phys, currentblk) > 4
      modifies this`currentblk, this`lastSavedLSN, this`saved, file, logpage.bb
      ensures Valid() && saved == |phys| && EndOf(phys, currentblk) == 4
      ensures file.blocks[0] == old(file.blocks[0])
    {
      BoundaryFacts();
      EnsureNewBlock();
      BoundaryFacts();
    }

    // -------------------------------------------------------------- flushing

    /** Afterwards every physical record with an LSN up to `lsn` is on disk. */
    method Flush(lsn: int)
      requires Valid()
      modifies this`lastSavedLSN, this`saved, file
      ensures Valid() && saved >= old(saved)
      ensures forall j | 0 <= j < |phys| && phys[j].Lsn(Bs()) <= lsn :: j < saved
      ensures lsn > old(lastSavedLSN) ==> saved == |phys| && lastSavedLSN == latestLSN
      ensures lsn <= old(lastSavedLSN) ==>
                saved == old(saved) && file.blocks == old(file.blocks) && lastSavedLSN == old(lastSavedLSN)
      ensures file.blocks[0] == old(file.blocks[0])
    {
      if lsn > lastSavedLSN {
        FlushBlock();
      } else {
        SavedCovers(Bs(), phys, saved, lsn);
      }
    }
  }

  /** The fragment carrying bytes `from` up to `to` of a record. */
  function Fragment(logrec: Bytes, from: nat, to: nat): (r: Bytes)
    requires from <= to <= |logrec| && IsInt32(|logrec|)
    ensures |r| == (if from == 0 then 12 else 8) + to - from
  {
    if from == 0 then FirstRec(|logrec|, logrec[..to])
    else if to < |logrec| then ContRec(logrec[from..to])
    else LastRec(logrec[from..])
  }

  /** One physical record more. */
  ghost predicate Grew(was: seq<Phys>, phys: seq<Phys>, rec: Bytes) {
    |phys| == |was| + 1 && phys[..|was|] == was && Back(phys).rec == rec
  }

  lemma GrewKeeps(was: seq<Phys>, phys: seq<Phys>, rec: Bytes, k: nat)
    requires Grew(was, phys, rec) && k < |was|
    ensures phys[k] == was[k]
  {
    assert phys[k] == phys[..|was|][k];
  }

  ghost predicate PieceAt(p: Phys, logrec: Bytes, from: nat, to: nat) {
    from < to <= |logrec| && IsInt32(|logrec|) && p.rec == Fragment(logrec, from, to)
  }

  /** The records after `was` are fragments of the record, cut at `cuts` so far. */
  ghost predicate CutInto(was: seq<Phys>, phys: seq<Phys>, logrec: Bytes, cuts: seq<nat>) {
    && |cuts| >= 2 && cuts[0] == 0 && |phys| == |was| + |cuts| - 1 && phys[..|was|] == was
    && forall i | 0 <= i < |cuts| - 1 :: PieceAt(phys[|was| + i], logrec, cuts[i], cuts[i + 1])
  }

  lemma CutOnce(was: seq<Phys>, now: seq<Phys>, phys: seq<Phys>, logrec: Bytes, cuts: seq<nat>, to: nat)
    requires CutInto(was, now, logrec, cuts) && IsInt32(|logrec|)
    requires cuts[|cuts| - 1] < to <= |logrec| && Grew(now, phys, Fragment(logrec, cuts[|cuts| - 1], to))
    ensures CutInto(was, phys, logrec, cuts + [to])
  {
    var cuts' := cuts + [to];
    assert phys[..|was|] == phys[..|now|][..|was|];
    forall i | 0 <= i < |cuts'| - 1 ensures PieceAt(phys[|was| + i], logrec, cuts'[i], cuts'[i + 1]) {
      if i < |cuts| - 1 {
        assert PieceAt(now[|was| + i], logrec, cuts[i], cuts[i + 1]);
        assert phys[|was| + i] == phys[..|now|][|was| + i];
      }
    }
  }

  lemma NextCut(was: seq<Phys>, now: seq<Phys>, phys: seq<Phys>, logrec: Bytes, cuts: seq<nat>, to: nat)
    requires CutInto(was, now, logrec, cuts) && IsInt32(|logrec|)
    requires cuts[|cuts| - 1] < to <= |logrec| && Grew(now, phys, Fragment(logrec, cuts[|cuts| - 1], to))
    ensures CutInto(was, phys, logrec, cuts + [to]) && phys[|was|] == now[|was|]
  {
    CutOnce(was, now, phys, logrec, cuts, to);
    GrewKeeps(now, phys, Back(phys).rec, |was|);
  }

  lemma CutsIncrease(was: seq<Phys>, phys: seq<Phys>, logrec: Bytes, cuts: seq<nat>, i: nat, j: nat)
    requires CutInto(was, phys, logrec, cuts) && i < j < |cuts|
    ensures cuts[i] < cuts[j]
    decreases j
  {
    assert PieceAt(phys[|was| + (j - 1)], logrec, cuts[j - 1], cuts[j - 1 + 1]);
    if i < j - 1 { CutsIncrease(was, phys, logrec, cuts, i, j - 1); }
  }

  /** The fragments of a completely cut record are its pieces. */
  lemma CutIsEntry(was: seq<Phys>, phys: seq<Phys>, logrec: Bytes, cuts: seq<nat>)
    requires CutInto(was, phys, logrec, cuts) && cuts[|cuts| - 1] == |logrec| && |cuts| > 2 && IsInt32(|logrec|)
    ensures var e := Entry(|was|, logrec, cuts, |cuts| - 1);
            e.Ok() && forall i | 0 <= i < e.Count() :: phys[|was| + i].rec == e.Piece(i)
  {
    var e := Entry(|was|, logrec, cuts, |cuts| - 1);
    forall i, j | 0 <= i < j < |cuts| ensures cuts[i] < cuts[j] { CutsIncrease(was, phys, logrec, cuts, i, j); }
    forall i | 0 <= i < e.Count() ensures phys[|was| + i].rec == e.Piece(i) {
      FragmentIsPiece(phys[|was| + i], e, i);
    }
  }

  lemma FragmentIsPiece(p: Phys, e: Entry, i: nat)
    requires e.Ok() && e.Count() > 1 && i < e.Count() && PieceAt(p, e.payload, e.cuts[i], e.cuts[i + 1])
    ensures p.rec == e.Piece(i)
  {
    if i > 0 { assert e.cuts[0] < e.cuts[i]; }
    if i + 1 < |e.cuts| - 1 { assert e.cuts[i + 1] < e.cuts[|e.cuts| - 1]; }
  }

  /** The log has exactly one logical record more, made of all the physical records that were added. */
  ghost predicate Appended(was: seq<Phys>, before: seq<Entry>, phys: seq<Phys>, entries: seq<Entry>, logrec: Bytes) {
    && |phys| > |was| && phys[..|was|] == was
    && |entries| == |before| + 1 && Front(entries) == before
    && Back(entries).start == |was| && Back(entries).payload == logrec && Back(entries).Whole()
    && Entries(phys, entries, |phys|)
  }

  lemma EntriesSnoc(was: seq<Phys>, before: seq<Entry>, phys: seq<Phys>, e: Entry)
    requires Entries(was, before, |was|) && e.start == |was| && IsInt32(|e.payload|) && e.kept == |e.cuts| - 1
    requires if e.cuts == [0, |e.payload|] then Grew(was, phys, NormalRec(e.payload))
             else CutInto(was, phys, e.payload, e.cuts) && e.cuts[|e.cuts| - 1] == |e.payload| && |e.cuts| > 2
    ensures Appended(was, before, phys, before + [e], e.payload)
  {
    assert Front(before + [e]) == before;
    if e.cuts != [0, |e.payload|] { CutIsEntry(was, phys, e.payload, e.cuts); }
    EntriesLonger(was, phys, before, |was|);
  }

  /** An entry of which only the first fragment is there. */
  function TornEntry(start: nat, logrec: Bytes, chunk: nat): Entry { Entry(start, logrec, [0, chunk, |logrec|], 1) }

  lemma TornEntryOk(start: nat, logrec: Bytes, chunk: nat)
    requires IsInt32(|logrec|) && 0 < chunk < |logrec|
    ensures var e := TornEntry(start, logrec, chunk);
            e.Ok() && !e.Whole() && e.Piece(0) == Fragment(logrec, 0, chunk)
  {
    var e := TornEntry(start, logrec, chunk);
    assert e.cuts[0] == 0 && e.cuts[1] == chunk && e.cuts[2] == |logrec|;
  }

  lemma TornSnoc(was: seq<Phys>, before: seq<Entry>, phys: seq<Phys>, logrec: Bytes, chunk: nat)
    requires Entries(was, before, |was|) && IsInt32(|logrec|) && 0 < chunk < |logrec|
    requires Grew(was, phys, Fragment(logrec, 0, chunk))
    ensures var e := TornEntry(|was|, logrec, chunk);
            !e.Whole() && Entries(phys, before + [e], |phys|) && Front(before + [e]) == before
  {
    var e := TornEntry(|was|, logrec, chunk);
    TornEntryOk(|was|, logrec, chunk);
    assert Front(before + [e]) == before;
    EntriesLonger(was, phys, before, |was|);
  }

  lemma LsnsGrow(blockSize: nat, phys: seq<Phys>, p: Phys, saved: nat, lastSaved: int)
    requires Layout(blockSize, phys + [p]) && saved <= |phys|
    requires lastSaved == 0 || (phys != [] && lastSaved <= Back(phys).Lsn(blockSize))
    requires saved < |phys| ==> lastSaved < phys[saved].Lsn(blockSize)
    ensures lastSaved == 0 || lastSaved <= p.Lsn(blockSize)
    ensures lastSaved < (phys + [p])[saved].Lsn(blockSize)
  {
    LastIsLargest(blockSize, phys, p);
  }

  /** A record put behind all others has the largest LSN. */
  lemma LastIsLargest(blockSize: nat, phys: seq<Phys>, p: Phys)
    requires Layout(blockSize, phys + [p])
    ensures phys != [] ==> Back(phys).Lsn(blockSize) < p.Lsn(blockSize)
    ensures p.Lsn(blockSize) > 0
  {
    if phys != [] { LsnIncreasing(blockSize, phys + [p], |phys| - 1, |phys|); }
    assert Front(phys + [p]) == phys;
  }

  /** The header block holds no records. */
  lemma HeaderApart(blocks: seq<Bytes>, img: Bytes, blockSize: nat, phys: seq<Phys>)
    requires Shows(blocks, blockSize, phys)
    ensures Shows(blocks[0 := img], blockSize, phys)
  {
    var blocks' := blocks[0 := img];
    forall b | 1 <= b < |blocks'| ensures Holds(blocks'[b], b, phys) { BlockHolds(blocks, |blocks|, phys, b); }
    BlocksHoldBy(blocks', |blocks'|, phys);
  }

  lemma TailInBlock(blockSize: nat, phys: seq<Phys>, n: nat, b: nat)
    requires Layout(blockSize, phys) && n <= |phys| && (phys != [] ==> Back(phys).blk <= b)
    requires n < |phys| ==> phys[n].blk == b
    ensures forall j | n <= j < |phys| :: phys[j].blk == b
  {
    forall j | n <= j < |phys| ensures phys[j].blk == b {
      BlocksAscend(blockSize, phys, j);
      if j > n { LsnIncreasing(blockSize, phys, n, j); }
    }
  }

  lemma SavedCovers(blockSize: nat, phys: seq<Phys>, saved: nat, lsn: int)
    requires Layout(blockSize, phys) && (saved < |phys| ==> lsn < phys[saved].Lsn(blockSize))
    ensures forall j | 0 <= j < |phys| && phys[j].Lsn(blockSize) <= lsn :: j < saved
  {
    forall j | saved <= j < |phys| ensures phys[j].Lsn(blockSize) > lsn {
      if j > saved { LsnIncreasing(blockSize, phys, saved, j); }
    }
  }

  lemma FlushedShows(blocks: seq<Bytes>, blockSize: nat, phys: seq<Phys>, n: nat, img: Bytes)
    requires n <= |phys| && Layout(blockSize, phys) && Shows(blocks, blockSize, phys[..n])
    requires phys != [] ==> |blocks| - 2 <= Back(phys).blk < |blocks|
    requires forall j | n <= j < |phys| :: phys[j].blk == |blocks| - 1
    requires |img| == blockSize && Holds(img, |blocks| - 1, phys)
    ensures Shows(blocks[|blocks| - 1 := img], blockSize, phys)
  {
    var blocks' := blocks[|blocks| - 1 := img];
    forall b | 1 <= b < |blocks'| ensures Holds(blocks'[b], b, phys) {
      if b < |blocks| - 1 {
        BlockHolds(blocks, |blocks|, phys[..n], b);
        HoldsExtend(blocks[b], b, phys, n);
      }
    }
    BlocksHoldBy(blocks', |blocks'|, phys);
  }

  lemma GrownShows(blocks: seq<Bytes>, blockSize: nat, phys: seq<Phys>, img: Bytes)
    requires Shows(blocks, blockSize, phys) && phys != [] && Back(phys).blk == |blocks| - 1
    requires |img| == blockSize && Holds(img, |blocks|, phys)
    ensures Shows(blocks + [img], blockSize, phys)
  {
    var blocks' := blocks + [img];
    forall b | 1 <= b < |blocks'| ensures Holds(blocks'[b], b, phys) {
      if b < |blocks| { BlockHolds(blocks, |blocks|, phys, b); }
    }
    BlocksHoldBy(blocks', |blocks'|, phys);
  }
}

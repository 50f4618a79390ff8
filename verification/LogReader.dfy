/** Iterating over the log file. */
module LogReader {
  import opened Storage
  import opened ByteCodec
  import opened Pages
  import opened LogFormat
  import opened LogParse
  import opened LogWriter

  function Recs(phys: seq<Phys>): (r: seq<Bytes>)
    ensures |r| == |phys| && forall i | 0 <= i < |phys| :: r[i] == phys[i].rec
  {
    seq(|phys|, i requires 0 <= i < |phys| => phys[i].rec)
  }

  /** The last block of the file holds a record (or there are no records at all). */
  predicate LastBlockUsed(blocks: seq<Bytes>, phys: seq<Phys>) {
    phys == [] || Back(phys).blk == |blocks| - 1
  }

  /** A position before physical record `i`: at its block and offset, or still behind the record before. */
  predicate PosAt(phys: seq<Phys>, i: nat, blk: nat, pos: nat) {
    || (i < |phys| && blk == phys[i].blk && pos == phys[i].off)
    || (0 < i <= |phys| && blk == phys[i - 1].blk && pos == phys[i - 1].End())
    || (i == |phys| == 0 && blk == 1 && pos == 4)
  }

  /** The last block holds records up to so near its end that nothing can be read behind them. */
  predicate Sealed(blocks: seq<Bytes>, blockSize: nat, phys: seq<Phys>) {
    |blocks| >= 1 && LastBlockUsed(blocks, phys) && EndOf(phys, |blocks| - 1) + 4 > blockSize
  }

  /** What a call of Next ends with: a record, or a read outside the page, which stops the program. */
  datatype Outcome = Read(lsn: int, payload: Bytes) | OutOfBounds

  class LogIterator {
    const file: LogFile
    const p: Page
    const endBlk: nat
    var blk: nat
    var currentpos: nat
    var boundary: int
    var currentLSN: int

    /** The iterator is over the file as it stands, which shows the records `phys`; its position may be
        anywhere in a block. */
    ghost predicate Valid(phys: seq<Phys>)
      reads this, file, p.bb
    {
      && file.Valid() && Shows(file.blocks, file.blockSize, phys) && endBlk == |file.blocks| - 1
      && p.headerSize == 0 && 1 <= blk <= endBlk && p.Image() == file.blocks[blk]
      && boundary == EndOf(phys, blk) && currentLSN == file.blockSize * blk + currentpos
      && currentpos <= file.blockSize
    }

    /** It stands before physical record `i`. */
    ghost predicate At(phys: seq<Phys>, i: nat)
      reads this, file, p.bb
    {
      Valid(phys) && i <= |phys| && PosAt(phys, i, blk, currentpos)
    }

    /** It moved on from an earlier position. */
    ghost predicate Beyond(b: nat, pos: nat)
      reads this
    {
      blk > b || (blk == b && currentpos > pos)
    }

    /** It moved on or stayed. */
    ghost predicate NotBefore(b: nat, pos: nat)
      reads this
    {
      (blk == b && currentpos == pos) || Beyond(b, pos)
    }

    constructor (file: LogFile, startLsn: nat, ghost phys: seq<Phys>, ghost i: nat)
      requires file.Valid() && Shows(file.blocks, file.blockSize, phys)
      requires if i < |phys| then startLsn == phys[i].Lsn(file.blockSize)
               else i == |phys| == 0 && startLsn == file.blockSize + 4
      ensures this.file == file && At(phys, i) && fresh(p) && fresh(p.bb)
    {
      this.file := file;
      p := new Page.Log(Zeros(file.blockSize));
      endBlk := |file.blocks| - 1;
      blk, currentpos, boundary, currentLSN := BlockOf(startLsn, file.blockSize), 0, 0, startLsn;
      new;
      StartPosition(file.blocks, file.blockSize, phys, i, startLsn);
      MoveToBlock(BlockOf(startLsn, file.blockSize), OffsetOf(startLsn, file.blockSize), phys);
    }

    method MoveToBlock(b: nat, offset: nat, ghost phys: seq<Phys>)
      requires file.Valid() && Shows(file.blocks, file.blockSize, phys) && endBlk == |file.blocks| - 1
      requires p.headerSize == 0 && p.bb.Length == file.blockSize && 1 <= b <= endBlk && offset <= file.blockSize
      modifies this, p.bb
      ensures Valid(phys) && blk == b && currentpos == offset
    {
      p.Fill(file.blocks[b]);
      BlockHolds(file.blocks, |file.blocks|, phys, b);
      boundary := p.GetInt32(0);
      I32RoundTrip(EndOf(phys, b));
      blk, currentpos, currentLSN := b, offset, b * file.blockSize + offset;
    }

    /** Looks at positions only.  Before record `i` it says that there is more exactly if a physical record
        follows or the last block is empty. */
    method HasNext(ghost phys: seq<Phys>, ghost i: nat) returns (more: bool)
      requires Valid(phys)
      ensures At(phys, i) ==> more == (i < |phys| || !LastBlockUsed(file.blocks, phys))
    {
      if At(phys, i) { EndsAt(file.blocks, file.blockSize, phys, i, blk, currentpos); }
      more := !(blk > endBlk || (blk == endBlk && currentpos >= boundary));
    }

    /** At the end of a block that is not the last the iterator moves on to the next. */
    method EnsureCurrentBlock(ghost phys: seq<Phys>, ghost i: nat)
      requires Valid(phys)
      modifies this, p.bb
      ensures Valid(phys) && NotBefore(old(blk), old(currentpos))
      ensures old(At(phys, i)) && i < |phys| ==> blk == phys[i].blk && currentpos == phys[i].off
      ensures old(At(phys, i)) && i == |phys| && LastBlockUsed(file.blocks, phys) ==>
                blk == endBlk && currentpos == EndOf(phys, endBlk)
    {
      if At(phys, i) { EndsAt(file.blocks, file.blockSize, phys, i, blk, currentpos); }
      if currentpos >= boundary && blk < endBlk { MoveToBlock(blk + 1, 4, phys); }
    }

    /** Read the bytes at the position, whatever they are; the position stays. */
    method ReadPhysical(ghost phys: seq<Phys>, ghost i: nat) returns (ok: bool, rec: Bytes)
      requires Valid(phys)
      ensures ok ==> currentpos + 4 + |rec| <= file.blockSize
      ensures i < |phys| && blk == phys[i].blk && currentpos == phys[i].off ==> ok && rec == phys[i].rec
      ensures currentpos + 4 > file.blockSize ==> !ok
    {
      ok, rec := false, [];
      if i < |phys| && blk == phys[i].blk && currentpos == phys[i].off {
        BlockHolds(file.blocks, |file.blocks|, phys, blk);
        RecordsAt(p.Image(), blk, phys, i);
        I32RoundTrip(|phys[i].rec|);
      }
      if currentpos + 4 <= p.bb.Length {
        var n := p.GetInt32(currentpos);
        if 0 <= n && currentpos + 4 + n <= p.bb.Length {
          ok := true;
          rec := p.GetBytes(currentpos);
        }
      }
    }

    /** Move on behind the record just read. */
    method NextToRecordPosition(recLen: nat, ghost phys: seq<Phys>, ghost i: nat)
      requires Valid(phys) && currentpos + 4 + recLen <= file.blockSize
      modifies this`currentpos, this`currentLSN
      ensures Valid(phys) && blk == old(blk) && currentpos == old(currentpos) + 4 + recLen
      ensures i < |phys| && blk == phys[i].blk && old(currentpos) == phys[i].off && recLen == |phys[i].rec| ==> At(phys, i + 1)
    {
      currentpos, currentLSN := currentpos + 4 + recLen, currentLSN + 4 + recLen;
    }

    /** Find, read and step over the physical record before which the iterator stands. */
    method TakePhysical(ghost phys: seq<Phys>, ghost i: nat) returns (ok: bool, lsn: int, rec: Bytes)
      requires Valid(phys)
      modifies this, p.bb
      ensures Valid(phys) && (ok ==> Beyond(old(blk), old(currentpos)))
      ensures old(At(phys, i)) && i < |phys| ==>
                ok && At(phys, i + 1) && rec == phys[i].rec && lsn == phys[i].Lsn(file.blockSize)
      ensures old(At(phys, i)) && i == |phys| && Sealed(file.blocks, file.blockSize, phys) ==> !ok
    {
      EnsureCurrentBlock(phys, i);
      ok, rec := ReadPhysical(phys, i);
      lsn := currentLSN;
      if ok { NextToRecordPosition(|rec|, phys, i); }
    }

    /** The same, but a record that is no fragment is left where it is. */
    method TakeFragment(ghost phys: seq<Phys>, ghost i: nat) returns (ok: bool, rec: Bytes)
      requires Valid(phys)
      modifies this, p.bb
      ensures Valid(phys) && NotBefore(old(blk), old(currentpos))
      ensures ok && IsFragment(rec) ==> Beyond(old(blk), old(currentpos))
      ensures old(At(phys, i)) && i < |phys| ==>
                ok && rec == phys[i].rec && At(phys, if IsFragment(rec) then i + 1 else i)
      ensures old(At(phys, i)) && i == |phys| && Sealed(file.blocks, file.blockSize, phys) ==> !ok
    {
      EnsureCurrentBlock(phys, i);
      ok, rec := ReadPhysical(phys, i);
      if ok && IsFragment(rec) { NextToRecordPosition(|rec|, phys, i); }
    }

    /** The next logical record; broken chains, orphaned fragments and unknown records are passed over.  When
        there is none the iterator reads on behind the last record; if nothing fits there that read is out of
        bounds.  Nothing is said about an iterator that is astray already. */
    method Next(ghost phys: seq<Phys>, ghost from: nat, ghost astray: bool) returns (r: Outcome, ghost next: nat)
      requires Valid(phys) && (!astray ==> At(phys, from))
      modifies this, p.bb
      ensures Valid(phys) && (r.Read? ==> Beyond(old(blk), old(currentpos)))
      ensures !astray ==>
                var f := NextEntry(Recs(phys), from);
                && (f.Found? ==>
                      r == Read(phys[f.start].Lsn(file.blockSize), f.payload) && next == f.next && At(phys, next))
                && (f.Nothing? && Sealed(file.blocks, file.blockSize, phys) ==> r == OutOfBounds)
    {
      ghost var i: nat, lost := from, astray;
      ghost var sealed := Sealed(file.blocks, file.blockSize, phys);
      ghost var b0, pos0 := blk, currentpos;
      while true
        invariant Valid(phys) && NotBefore(b0, pos0)
        invariant !lost ==> At(phys, i) && NextEntry(Recs(phys), i) == NextEntry(Recs(phys), from)
        invariant lost ==> astray || (NextEntry(Recs(phys), from).Nothing? && !sealed)
        decreases endBlk - blk, file.blockSize - currentpos
      {
        var t, lsn, payload;
        t, lsn, payload, i, lost := TakeOne(phys, i, lost);
        if t == Taken { return Read(lsn, payload), i; }
        if t == Exceeded { return OutOfBounds, i; }
      }
    }

    /** Read a physical record and, if it starts a chain, what belongs to it. */
    method TakeOne(ghost phys: seq<Phys>, ghost i: nat, ghost astray: bool)
      returns (t: Step, lsn: int, payload: Bytes, ghost next: nat, ghost lost: bool)
      requires Valid(phys) && (!astray ==> At(phys, i))
      modifies this, p.bb
      ensures Valid(phys) && (t != Exceeded ==> Beyond(old(blk), old(currentpos)))
      ensures !astray && i < |phys| && !lost ==>
                && At(phys, next)
                && (t == Taken ==> NextEntry(Recs(phys), i) == Found(i, payload, next) && lsn == phys[i].Lsn(file.blockSize))
                && (t == Skipped ==> NextEntry(Recs(phys), next) == NextEntry(Recs(phys), i))
      ensures !lost ==> !astray && (i < |phys| || t == Exceeded)
      ensures lost || t == Exceeded ==> astray || NextEntry(Recs(phys), i).Nothing?
      ensures lost && t != Exceeded ==> astray || !Sealed(file.blocks, file.blockSize, phys)
    {
      var ok, rec;
      ok, lsn, rec := TakePhysical(phys, i);
      payload, next, lost := [], i, astray;
      if !ok { return Exceeded, lsn, payload, next, lost; }
      lost := astray || i >= |phys|;
      next := if lost then i else i + 1;
      if IsFirst(rec) {
        var c;
        ghost var was := next;
        c, payload, next := Reconstruct(rec, phys, next, lost);
        lost := lost || Follow(Recs(phys), was, TotalOf(rec), rec[12..]).RanOut?;
        t := if c == RecordOk then Taken else if c == PageExceeded then Exceeded else Skipped;
      } else if IsNormal(rec) {
        t, payload := Taken, rec[4..];
      } else {
        t := Skipped;
      }
    }

    /** Reassemble a chain of fragments from its FIRST on. */
    method Reconstruct(first: Bytes, ghost phys: seq<Phys>, ghost from: nat, ghost astray: bool)
      returns (c: Reassembly, payload: Bytes, ghost next: nat)
      requires IsFirst(first) && Valid(phys) && (!astray ==> At(phys, from))
      modifies this, p.bb
      ensures Valid(phys) && NotBefore(old(blk), old(currentpos))
      ensures !astray ==>
                match Follow(Recs(phys), from, TotalOf(first), first[12..])
                case Complete(q, n) => c == RecordOk && payload == q && next == n && At(phys, n)
                case Broken(n) => c == ChainBroken && next == n && At(phys, n)
                case RanOut => Sealed(file.blocks, file.blockSize, phys) ==> c == PageExceeded
    {
      var total := TotalOf(first);
      var buf := first[12..];
      ghost var i: nat, lost := from, astray;
      ghost var b0, pos0 := blk, currentpos;
      ghost var f := if astray then RanOut else Follow(Recs(phys), from, total, buf);
      ghost var sealed := Sealed(file.blocks, file.blockSize, phys);
      payload, next := [], from;
      while |buf| < total
        invariant Valid(phys) && NotBefore(b0, pos0)
        invariant !lost ==> i <= |phys| && At(phys, i) && Follow(Recs(phys), i, total, buf) == f
        invariant lost ==> astray || (f.RanOut? && !sealed)
        decreases endBlk - blk, file.blockSize - currentpos
      {
        var ok, part := TakeFragment(phys, i);
        if !ok { return PageExceeded, [], i; }
        lost := lost || i >= |phys|;
        if !IsFragment(part) { return ChainBroken, [], i; }
        i := if lost then i else i + 1;
        var flags := FlagsOf(part);
        if flags == FRAG_FIRST {
          return ChainBroken, [], i;
        } else if flags == FRAG_CONT {
          buf := buf + part[8..];
        } else if flags == FRAG_LAST {
          buf := buf + part[8..];
          if |buf| == total { return RecordOk, buf, i; }
        }
      }
      return ChainBroken, [], i;
    }
  }

  /** How reassembling a chain ends: with the record, with a broken chain, or with a read outside the page. */
  datatype Reassembly = RecordOk | ChainBroken | PageExceeded

  /** The same for a single step of Next. */
  datatype Step = Taken | Skipped | Exceeded

  /** The block and the offset an LSN names. */
  function BlockOf(lsn: nat, blockSize: nat): nat
    requires blockSize > 0
  {
    lsn / blockSize
  }

  function OffsetOf(lsn: nat, blockSize: nat): nat
    requires blockSize > 0
  {
    lsn % blockSize
  }

  lemma StartPosition(blocks: seq<Bytes>, blockSize: nat, phys: seq<Phys>, i: nat, lsn: nat)
    requires 20 < blockSize && Shows(blocks, blockSize, phys)
    requires if i < |phys| then lsn == phys[i].Lsn(blockSize) else i == |phys| == 0 && lsn == blockSize + 4
    ensures PosAt(phys, i, BlockOf(lsn, blockSize), OffsetOf(lsn, blockSize))
    ensures 1 <= BlockOf(lsn, blockSize) < |blocks| && i <= |phys| && OffsetOf(lsn, blockSize) <= blockSize
  {
    if i < |phys| {
      LayoutAt(blockSize, phys, i);
      LsnSplits(blockSize, phys[i]);
      BlocksAscend(blockSize, phys, i);
    } else {
      DivisionUnique(blockSize, 1, 4);
    }
  }

  /** Before a record the position is inside its block or at the end of the block before; behind the last
      record it is at the end of that record's block. */
  lemma EndsAt(blocks: seq<Bytes>, blockSize: nat, phys: seq<Phys>, i: nat, blk: nat, pos: nat)
    requires Shows(blocks, blockSize, phys) && i <= |phys| && PosAt(phys, i, blk, pos)
    ensures i == |phys| ==> pos == EndOf(phys, blk) && blk == (if phys == [] then 1 else Back(phys).blk)
    ensures i < |phys| && blk == phys[i].blk ==> pos == phys[i].off < EndOf(phys, blk)
    ensures i < |phys| && blk != phys[i].blk ==> pos == EndOf(phys, blk) && phys[i].blk == blk + 1 && phys[i].off == 4
    ensures i < |phys| ==> phys[i].blk < |blocks|
  {
    if i < |phys| {
      EndOfCovers(blockSize, phys, i);
      BlocksAscend(blockSize, phys, i);
      LayoutAt(blockSize, phys, i);
      if i > 0 {
        assert Back(phys[..i]) == phys[i - 1];
        if phys[i].blk != phys[i - 1].blk {
          forall j | i - 1 < j < |phys| ensures phys[j].blk != phys[i - 1].blk {
            if j > i { LsnIncreasing(blockSize, phys, i, j); }
          }
          EndOfLast(phys, i - 1);
        }
      }
    } else if i > 0 {
      EndOfLast(phys, i - 1);
    }
  }
}

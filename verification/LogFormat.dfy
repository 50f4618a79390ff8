/** How log records lie in the blocks of the log file.

    A block starts with its boundary, the offset behind its last record; records follow from offset 4,
    each behind its length.  A logical record is either one physical record or a chain of fragments. */
module LogFormat {
  import opened Storage
  import opened ByteCodec

  /** A physical record: block number, offset of its length prefix, contents. */
  datatype Phys = Phys(blk: nat, off: nat, rec: Bytes) {
    function End(): nat { off + 4 + |rec| }

    function Lsn(blockSize: nat): nat { blockSize * blk + off }
  }

  function Front<T>(s: seq<T>): seq<T>
    requires s != []
  {
    s[..|s| - 1]
  }

  function Back<T>(s: seq<T>): T
    requires s != []
  {
    s[|s| - 1]
  }

  // ---------------------------------------------------------------- layout

  /** `p` may come after `h`: directly behind the last record, or first in the next block. */
  predicate Placed(blockSize: nat, h: seq<Phys>, p: Phys) {
    && 4 <= p.off && p.End() <= blockSize
    && if h == [] then p.blk == 1 && p.off == 4
       else (p.blk == Back(h).blk && p.off == Back(h).End()) || (p.blk == Back(h).blk + 1 && p.off == 4)
  }

  predicate Layout(blockSize: nat, phys: seq<Phys>) {
    phys == [] || (Layout(blockSize, Front(phys)) && Placed(blockSize, Front(phys), Back(phys)))
  }

  lemma LayoutSnoc(blockSize: nat, phys: seq<Phys>, p: Phys)
    ensures Layout(blockSize, phys + [p]) <==> Layout(blockSize, phys) && Placed(blockSize, phys, p)
  {
    assert Front(phys + [p]) == phys;
  }

  lemma {:induction false} LayoutPrefix(blockSize: nat, phys: seq<Phys>, n: nat)
    requires Layout(blockSize, phys) && n <= |phys|
    ensures Layout(blockSize, phys[..n])
  {
    if n == |phys| {
      assert phys[..n] == phys;
    } else {
      LayoutPrefix(blockSize, Front(phys), n);
      assert Front(phys)[..n] == phys[..n];
    }
  }

  lemma LayoutAt(blockSize: nat, phys: seq<Phys>, i: nat)
    requires Layout(blockSize, phys) && i < |phys|
    ensures Placed(blockSize, phys[..i], phys[i])
  {
    LayoutPrefix(blockSize, phys, i + 1);
    assert Front(phys[..i + 1]) == phys[..i];
  }

  /** LSNs strictly increase. */
  lemma {:induction false} LsnIncreasing(blockSize: nat, phys: seq<Phys>, i: nat, j: nat)
    requires Layout(blockSize, phys) && i < j < |phys|
    ensures phys[i].Lsn(blockSize) < phys[j].Lsn(blockSize)
    ensures phys[i].blk < phys[j].blk || (phys[i].blk == phys[j].blk && phys[i].End() <= phys[j].off)
    decreases j
  {
    LayoutAt(blockSize, phys, j);
    LayoutAt(blockSize, phys, j - 1);
    var p, q := phys[j - 1], phys[j];
    assert phys[..j][j - 1] == p;
    if p.blk != q.blk { assert blockSize * q.blk == blockSize * p.blk + blockSize; }
    if i < j - 1 { LsnIncreasing(blockSize, phys, i, j - 1); }
  }

  /** An LSN determines block and offset. */
  lemma LsnSplits(blockSize: nat, p: Phys)
    requires p.off < blockSize
    ensures p.Lsn(blockSize) / blockSize == p.blk && p.Lsn(blockSize) % blockSize == p.off
  {
    DivisionUnique(blockSize, p.blk, p.off);
  }

  // ---------------------------------------------------------------- block images

  predicate RecAt(img: Bytes, off: nat, rec: Bytes) {
    && IsInt32(|rec|) && off + 4 + |rec| <= |img|
    && img[off..off + 4] == I32(|rec|) && img[off + 4..off + 4 + |rec|] == rec
  }

  /** The boundary of block `b`: behind its last record, or 4 if it has none. */
  function EndOf(phys: seq<Phys>, b: nat): nat {
    if phys == [] then 4 else if Back(phys).blk == b then Back(phys).End() else EndOf(Front(phys), b)
  }

  /** Every record of `phys` placed in block `b` is in the image. */
  ghost predicate Records(img: Bytes, b: nat, phys: seq<Phys>) {
    phys == [] || (Records(img, b, Front(phys)) && (Back(phys).blk == b ==> RecAt(img, Back(phys).off, Back(phys).rec)))
  }

  /** The bytes of block `b` show exactly the records of `phys` that lie in it. */
  ghost predicate Holds(img: Bytes, b: nat, phys: seq<Phys>) {
    |img| >= 4 && IsInt32(EndOf(phys, b)) && img[..4] == I32(EndOf(phys, b)) && Records(img, b, phys)
  }

  lemma {:induction false} RecordsAt(img: Bytes, b: nat, phys: seq<Phys>, j: nat)
    requires Records(img, b, phys) && j < |phys| && phys[j].blk == b
    ensures RecAt(img, phys[j].off, phys[j].rec)
  {
    if j < |phys| - 1 { RecordsAt(img, b, Front(phys), j); }
  }

  lemma {:induction false} RecordsBy(img: Bytes, b: nat, phys: seq<Phys>)
    requires forall j | 0 <= j < |phys| && phys[j].blk == b :: RecAt(img, phys[j].off, phys[j].rec)
    ensures Records(img, b, phys)
  {
    if phys != [] { RecordsBy(img, b, Front(phys)); }
  }

  lemma {:induction false} EndOfCovers(blockSize: nat, phys: seq<Phys>, i: nat)
    requires Layout(blockSize, phys) && i < |phys|
    ensures phys[i].End() <= EndOf(phys, phys[i].blk)
  {
    if i < |phys| - 1 {
      EndOfCovers(blockSize, Front(phys), i);
      LsnIncreasing(blockSize, phys, i, |phys| - 1);
    }
  }

  lemma {:induction false} EndOfBound(blockSize: nat, phys: seq<Phys>, b: nat)
    requires Layout(blockSize, phys) && 4 <= blockSize
    ensures 4 <= EndOf(phys, b) <= blockSize
  {
    if phys != [] && Back(phys).blk != b { EndOfBound(blockSize, Front(phys), b); }
  }

  /** The boundary lies directly behind the last record of the block. */
  lemma {:induction false} EndOfLast(phys: seq<Phys>, i: nat)
    requires i < |phys| && forall j | i < j < |phys| :: phys[j].blk != phys[i].blk
    ensures EndOf(phys, phys[i].blk) == phys[i].End()
  {
    if i < |phys| - 1 {
      assert phys[|phys| - 1].blk != phys[i].blk;
      EndOfLast(Front(phys), i);
    }
  }

  lemma {:induction false} EndOfNone(phys: seq<Phys>, b: nat)
    requires forall j | 0 <= j < |phys| :: phys[j].blk != b
    ensures EndOf(phys, b) == 4
  {
    if phys != [] {
      assert phys[|phys| - 1].blk != b;
      EndOfNone(Front(phys), b);
    }
  }

  /** Records of other blocks do not matter to a block. */
  lemma {:induction false} EndOfExtend(phys: seq<Phys>, n: nat, b: nat)
    requires n <= |phys| && forall j | n <= j < |phys| :: phys[j].blk != b
    ensures EndOf(phys, b) == EndOf(phys[..n], b)
    decreases |phys|
  {
    if n == |phys| {
      assert phys[..n] == phys;
    } else {
      assert phys[|phys| - 1].blk != b;
      EndOfExtend(Front(phys), n, b);
      assert Front(phys)[..n] == phys[..n];
    }
  }

  lemma HoldsExtend(img: Bytes, b: nat, phys: seq<Phys>, n: nat)
    requires n <= |phys| && forall j | n <= j < |phys| :: phys[j].blk != b
    ensures Holds(img, b, phys[..n]) <==> Holds(img, b, phys)
  {
    EndOfExtend(phys, n, b);
    RecordsExtend(img, b, phys, n);
  }

  lemma {:induction false} RecordsExtend(img: Bytes, b: nat, phys: seq<Phys>, n: nat)
    requires n <= |phys| && forall j | n <= j < |phys| :: phys[j].blk != b
    ensures Records(img, b, phys[..n]) <==> Records(img, b, phys)
    decreases |phys|
  {
    if n == |phys| {
      assert phys[..n] == phys;
    } else {
      assert phys[|phys| - 1].blk != b;
      RecordsExtend(img, b, Front(phys), n);
      assert Front(phys)[..n] == phys[..n];
    }
  }

  /** A block image after a record was put at `off` and the boundary moved behind it. */
  function Written(img: Bytes, off: nat, rec: Bytes): (t: Bytes)
    requires 4 <= off && off + 4 + |rec| <= |img| && IsInt32(|img|)
    ensures |t| == |img|
  {
    Splice(Splice(img, off, I32(|rec|) + rec), 0, I32(off + 4 + |rec|))
  }

  lemma WrittenKeeps(img: Bytes, off: nat, rec: Bytes, lo: nat, hi: nat)
    requires 4 <= off && off + 4 + |rec| <= |img| && IsInt32(|img|)
    requires 4 <= lo <= hi <= off
    ensures Written(img, off, rec)[lo..hi] == img[lo..hi]
  {
    SpliceElsewhere(img, off, I32(|rec|) + rec, lo, hi);
    SpliceElsewhere(Splice(img, off, I32(|rec|) + rec), 0, I32(off + 4 + |rec|), lo, hi);
  }

  lemma RecKept(img: Bytes, off: nat, rec: Bytes, at: nat, other: Bytes)
    requires off + 4 + |rec| <= |img| && IsInt32(|img|)
    requires 4 <= at && at + 4 + |other| <= off && RecAt(img, at, other)
    ensures RecAt(Written(img, off, rec), at, other)
  {
    WrittenKeeps(img, off, rec, at, at + 4);
    WrittenKeeps(img, off, rec, at + 4, at + 4 + |other|);
  }

  lemma WrittenThere(img: Bytes, off: nat, rec: Bytes)
    requires 4 <= off && off + 4 + |rec| <= |img| && IsInt32(|img|)
    ensures RecAt(Written(img, off, rec), off, rec)
    ensures Written(img, off, rec)[..4] == I32(off + 4 + |rec|)
  {
    var c := I32(|rec|) + rec;
    var img1 := Splice(img, off, c);
    SpliceThere(img, off, c);
    assert img1[off..off + 4] == img1[off..off + |c|][..4];
    assert img1[off + 4..off + 4 + |rec|] == img1[off..off + |c|][4..];
    SpliceElsewhere(img1, 0, I32(off + 4 + |rec|), off, off + 4);
    SpliceElsewhere(img1, 0, I32(off + 4 + |rec|), off + 4, off + 4 + |rec|);
  }

  /** Writing a record behind the boundary and moving the boundary adds exactly that record. */
  lemma HoldsWrite(blockSize: nat, img: Bytes, phys: seq<Phys>, p: Phys)
    requires |img| == blockSize && IsInt32(blockSize) && Layout(blockSize, phys) && Holds(img, p.blk, phys)
    requires p.off == EndOf(phys, p.blk) && p.End() <= blockSize && 4 <= p.off
    ensures Holds(Written(img, p.off, p.rec), p.blk, phys + [p])
  {
    var phys' := phys + [p];
    assert Front(phys') == phys;
    WrittenThere(img, p.off, p.rec);
    forall j | 0 <= j < |phys'| && phys'[j].blk == p.blk
      ensures RecAt(Written(img, p.off, p.rec), phys'[j].off, phys'[j].rec)
    {
      if j < |phys| {
        EndOfCovers(blockSize, phys, j);
        LayoutAt(blockSize, phys, j);
        RecordsAt(img, p.blk, phys, j);
        RecKept(img, p.off, p.rec, phys[j].off, phys[j].rec);
      }
    }
    RecordsBy(Written(img, p.off, p.rec), p.blk, phys');
  }

  /** Resetting the boundary makes any image that of a block without records. */
  lemma HoldsNothing(img: Bytes, b: nat, phys: seq<Phys>)
    requires |img| >= 4 && forall j | 0 <= j < |phys| :: phys[j].blk != b
    ensures Holds(Splice(img, 0, I32(4)), b, phys)
  {
    EndOfNone(phys, b);
    RecordsBy(Splice(img, 0, I32(4)), b, phys);
  }

  // ---------------------------------------------------------------- logical records

  const NORMAL := 1
  const FRAGMENT := 2
  const FRAG_FIRST := 1
  const FRAG_CONT := 2
  const FRAG_LAST := 3

  function NormalRec(payload: Bytes): Bytes { I32(NORMAL) + payload }

  function FirstRec(total: int, chunk: Bytes): Bytes
    requires IsInt32(total)
  {
    I32(FRAGMENT) + I32(FRAG_FIRST) + I32(total) + chunk
  }

  function ContRec(chunk: Bytes): Bytes { I32(FRAGMENT) + I32(FRAG_CONT) + chunk }

  function LastRec(chunk: Bytes): Bytes { I32(FRAGMENT) + I32(FRAG_LAST) + chunk }

  /** A logical record: the index of its first physical record, its payload, where the payload is cut into
      pieces, and how many of the pieces are there.  A crash can leave only the first ones. */
  datatype Entry = Entry(start: nat, payload: Bytes, cuts: seq<nat>, kept: nat) {
    predicate Ok() {
      && |cuts| >= 2 && cuts[0] == 0 && cuts[|cuts| - 1] == |payload| && IsInt32(|payload|)
      && (|cuts| > 2 ==> forall i, j | 0 <= i < j < |cuts| :: cuts[i] < cuts[j])
      && 1 <= kept <= Count()
    }

    function Count(): int { |cuts| - 1 }

    predicate Whole() { kept == Count() }

    /** The physical record that carries piece `i`. */
    function Piece(i: nat): Bytes
      requires Ok() && i < Count()
    {
      if Count() == 1 then NormalRec(payload)
      else if i == 0 then FirstRec(|payload|, payload[..cuts[1]])
      else if i < Count() - 1 then ContRec(payload[cuts[i]..cuts[i + 1]])
      else LastRec(payload[cuts[i]..])
    }
  }

  /** The entries, in order, make up exactly the first `n` physical records. */
  ghost predicate Entries(phys: seq<Phys>, entries: seq<Entry>, n: nat)
    requires n <= |phys|
    decreases |entries|
  {
    if entries == [] then n == 0
    else
      var e := Back(entries);
      e.Ok() && e.start + e.kept == n && HasPieces(phys, e) && Entries(phys, Front(entries), e.start)
  }

  /** The pieces the entry has kept are where it says. */
  ghost predicate HasPieces(phys: seq<Phys>, e: Entry)
    requires e.Ok() && e.start + e.kept <= |phys|
  {
    forall i | 0 <= i < e.kept :: phys[e.start + i].rec == e.Piece(i)
  }

  lemma {:induction false} EntriesLonger(phys: seq<Phys>, phys': seq<Phys>, entries: seq<Entry>, n: nat)
    requires n <= |phys| && n <= |phys'| && (forall i | 0 <= i < n :: phys[i] == phys'[i]) && Entries(phys, entries, n)
    ensures Entries(phys', entries, n)
    decreases |entries|
  {
    if entries != [] { EntriesLonger(phys, phys', Front(entries), Back(entries).start); }
  }

  /** Where entry `k` lies, and that entry `k + 1` follows it. */
  lemma {:induction false} EntryAt(phys: seq<Phys>, entries: seq<Entry>, n: nat, k: nat)
    requires n <= |phys| && Entries(phys, entries, n) && k < |entries|
    ensures entries[k].Ok() && entries[k].start + entries[k].kept <= n
    ensures forall i | 0 <= i < entries[k].kept :: phys[entries[k].start + i].rec == entries[k].Piece(i)
    ensures entries[k].start + entries[k].kept == if k + 1 < |entries| then entries[k + 1].start else n
    decreases |entries|
  {
    if k < |entries| - 1 {
      EntryAt(phys, Front(entries), Back(entries).start, k);
    }
  }

  // ---------------------------------------------------------------- what a crash leaves

  /** The entries within the first `n` physical records; the last one may have lost pieces. */
  function CutOff(entries: seq<Entry>, n: nat): seq<Entry> {
    if entries == [] then []
    else
      var e := Back(entries);
      if e.start >= n then CutOff(Front(entries), n)
      else if e.start + e.kept <= n then entries
      else Front(entries) + [e.(kept := n - e.start)]
  }

  /** Whatever prefix of the physical records is on disk, it is again a log of entries, and only the last
      can be torn off. */
  lemma {:induction false} PrefixIsLog(phys: seq<Phys>, entries: seq<Entry>, m: nat, n: nat)
    requires n <= m <= |phys| && Entries(phys, entries, m)
    ensures Entries(phys[..n], CutOff(entries, n), n)
    ensures |CutOff(entries, n)| <= |entries|
    ensures forall k | 0 <= k < |CutOff(entries, n)| - 1 :: CutOff(entries, n)[k] == entries[k]
    decreases |entries|
  {
    if entries != [] {
      var e := Back(entries);
      if e.start >= n {
        PrefixIsLog(phys, Front(entries), e.start, n);
      } else if e.start + e.kept > n {
        TornIsLog(phys, entries, n);
      } else {
        EntriesLonger(phys, phys[..n], entries, n);
      }
    }
  }

  lemma TornIsLog(phys: seq<Phys>, entries: seq<Entry>, n: nat)
    requires entries != [] && Back(entries).start < n < Back(entries).start + Back(entries).kept <= |phys|
    requires Entries(phys, entries, Back(entries).start + Back(entries).kept)
    ensures Entries(phys[..n], CutOff(entries, n), n)
  {
    var e := Back(entries);
    EntriesLonger(phys, phys[..n], Front(entries), e.start);
    assert Front(Front(entries) + [e.(kept := n - e.start)]) == Front(entries);
    FewerPieces(phys, e, n - e.start);
  }

  lemma FewerPieces(phys: seq<Phys>, e: Entry, k: nat)
    requires e.Ok() && 1 <= k <= e.kept && e.start + e.kept <= |phys| && HasPieces(phys, e)
    ensures e.(kept := k).Ok() && HasPieces(phys[..e.start + k], e.(kept := k))
  {
    var t := e.(kept := k);
    forall i | 0 <= i < k ensures phys[..e.start + k][t.start + i].rec == t.Piece(i) {
      assert phys[e.start + i].rec == e.Piece(i);
    }
  }
}

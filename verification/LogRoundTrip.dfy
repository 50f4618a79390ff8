/** What is appended to the log is what is read back. */
module LogRoundTrip {
  import opened Storage
  import opened ByteCodec
  import opened Pages
  import opened LogFormat
  import opened LogParse
  import opened LogWriter
  import opened LogReader

  /** The entries of a log lie in its physical records one behind the other. */
  lemma EntriesInLine(phys: seq<Phys>, entries: seq<Entry>)
    requires Entries(phys, entries, |phys|)
    ensures InLine(Recs(phys), entries)
    ensures forall k | 0 <= k < |entries| :: entries[k].Ok() && entries[k].start < |phys|
  {
    forall k: nat | k < |entries| ensures InPlace(Recs(phys), entries, k) && entries[k].start < |phys| {
      EntryAt(phys, entries, |phys|, k);
    }
  }

  /** LSNs of logical records strictly increase. */
  lemma EntryLsnsIncrease(phys: seq<Phys>, blockSize: nat, entries: seq<Entry>, i: nat, j: nat)
    requires Layout(blockSize, phys) && Entries(phys, entries, |phys|) && i < j < |entries|
    ensures entries[i].start < entries[j].start < |phys|
    ensures phys[entries[i].start].Lsn(blockSize) < phys[entries[j].start].Lsn(blockSize)
    decreases j
  {
    EntryAt(phys, entries, |phys|, i);
    EntryAt(phys, entries, |phys|, j);
    EntryAt(phys, entries, |phys|, j - 1);
    if i < j - 1 { EntryLsnsIncrease(phys, blockSize, entries, i, j - 1); }
    LsnIncreasing(blockSize, phys, entries[i].start, entries[j].start);
  }

  // ---------------------------------------------------------------- which records are read

  /** LSN and payload of the records reading from entry `k` on finds, in order. */
  function Listing(phys: seq<Phys>, blockSize: nat, entries: seq<Entry>, k: nat): seq<(int, Bytes)>
    requires k <= |entries| && forall j | 0 <= j < |entries| :: entries[j].start < |phys|
    decreases |entries| - k
  {
    var j := NextWhole(entries, k);
    if j == |entries| then []
    else [(phys[entries[j].start].Lsn(blockSize), entries[j].payload)] + Listing(phys, blockSize, entries, j + 1)
  }

  /** Reading from entry `k` on comes to the end of the log with a record. */
  predicate EndsCleanly(entries: seq<Entry>, k: nat)
    requires k <= |entries|
    decreases |entries| - k
  {
    k == |entries| || (NextWhole(entries, k) < |entries| && EndsCleanly(entries, NextWhole(entries, k) + 1))
  }

  /** Without torn records that is always so, and every record from the `k`-th on is read. */
  lemma {:induction false} WholeLogReadsAll(phys: seq<Phys>, blockSize: nat, entries: seq<Entry>, k: nat)
    requires k <= |entries| && forall j | 0 <= j < |entries| :: entries[j].start < |phys| && entries[j].Whole()
    ensures EndsCleanly(entries, k) && |Listing(phys, blockSize, entries, k)| == |entries| - k
    ensures forall j | k <= j < |entries| ::
              Listing(phys, blockSize, entries, k)[j - k] == (phys[entries[j].start].Lsn(blockSize), entries[j].payload)
    decreases |entries| - k
  {
    if k < |entries| { WholeLogReadsAll(phys, blockSize, entries, k + 1); }
  }

  /** With a torn record at its end it is never so. */
  lemma {:induction false} TornTailNeverClean(entries: seq<Entry>, k: nat)
    requires k < |entries| && !Back(entries).Whole()
    ensures !EndsCleanly(entries, k)
    decreases |entries| - k
  {
    var j := NextWhole(entries, k);
    if j < |entries| - 1 { TornTailNeverClean(entries, j + 1); }
  }

  /** What HasNext says before physical record `i`. */
  predicate SaysMore(blocks: seq<Bytes>, phys: seq<Phys>, i: nat) {
    i < |phys| || !LastBlockUsed(blocks, phys)
  }

  /** At the start of an entry HasNext is right exactly if a record can still be read, or everything has been
      read and the last block is not empty: it is wrong before an empty last block, and before a rest of the log
      that holds only torn chains and records swallowed by them. */
  lemma HasNextRightIff(blocks: seq<Bytes>, phys: seq<Phys>, entries: seq<Entry>, k: nat)
    requires Entries(phys, entries, |phys|) && k <= |entries|
    ensures var i := StartOf(Recs(phys), entries, k);
            (SaysMore(blocks, phys, i) <==> NextEntry(Recs(phys), i).Found?) <==>
            (NextWhole(entries, k) < |entries| || (k == |entries| && LastBlockUsed(blocks, phys)))
  {
    EntriesInLine(phys, entries);
    ReadFrom(Recs(phys), entries, k);
  }

  // ---------------------------------------------------------------- reading back

  /** Iterating over a flushed log from the LSN of any record.  It yields exactly the readable records from there
      on, with their LSNs, in order, and stops, if and only if reading ends cleanly and the last block holds a
      record.  If the log ends in a full block and reading does not end cleanly, it yields the same records and
      then fails.  In any case these records come first. */
  method ReadBack(lm: LogMgr, startLsn: nat, ghost k: nat) returns (out: seq<(int, Bytes)>, ok: bool)
    requires lm.Valid() && lm.Accounted() && lm.saved == |lm.phys|
    requires k < |lm.entries| && lm.entries[k].start < |lm.phys|
    requires startLsn == lm.phys[lm.entries[k].start].Lsn(lm.Bs())
    ensures forall j | 0 <= j < |lm.entries| :: lm.entries[j].start < |lm.phys|
    ensures Outcomes(Listing(lm.phys, lm.Bs(), lm.entries, k), out, ok, EndsCleanly(lm.entries, k),
                     LastBlockUsed(lm.file.blocks, lm.phys), Sealed(lm.file.blocks, lm.Bs(), lm.phys))
  {
    ghost var phys, entries := lm.phys, lm.entries;
    assert phys[..lm.saved] == phys;
    EntriesInLine(phys, entries);
    var iter := new LogIterator(lm.file, startLsn, phys, entries[k].start);
    out, ok := Iterate(iter, phys, entries, k);
  }

  /** What iterating promises for the records `l` there are to be read. */
  predicate Outcomes(l: seq<(int, Bytes)>, out: seq<(int, Bytes)>, ok: bool, clean: bool, used: bool, sealed: bool) {
    l <= out && (used && clean <==> ok && out == l) && (sealed && !clean ==> !ok && out == l)
  }

  /** `out` is what was read of `all` when entry `n` is next. */
  predicate Underway(phys: seq<Phys>, blockSize: nat, entries: seq<Entry>, n: nat, out: seq<(int, Bytes)>,
                     all: seq<(int, Bytes)>, clean: bool)
    requires n <= |entries| && forall j | 0 <= j < |entries| :: entries[j].start < |phys|
  {
    out + Listing(phys, blockSize, entries, n) == all && EndsCleanly(entries, n) == clean
  }

  lemma OneMoreRead(phys: seq<Phys>, blockSize: nat, entries: seq<Entry>, n: nat, out: seq<(int, Bytes)>,
                    all: seq<(int, Bytes)>, clean: bool)
    requires n <= |entries| && forall j | 0 <= j < |entries| :: entries[j].start < |phys|
    requires Underway(phys, blockSize, entries, n, out, all, clean)
    ensures var j := NextWhole(entries, n);
            if j < |entries| then
              Underway(phys, blockSize, entries, j + 1,
                       out + [(phys[entries[j].start].Lsn(blockSize), entries[j].payload)], all, clean)
            else out == all && (clean <==> n == |entries|)
  {
  }

  method Iterate(iter: LogIterator, ghost phys: seq<Phys>, ghost entries: seq<Entry>, ghost k: nat)
    returns (out: seq<(int, Bytes)>, ok: bool)
    requires Entries(phys, entries, |phys|) && k <= |entries| && iter.At(phys, StartOf(Recs(phys), entries, k))
    requires forall j | 0 <= j < |entries| :: entries[j].start < |phys|
    modifies iter, iter.p.bb
    ensures Outcomes(Listing(phys, iter.file.blockSize, entries, k), out, ok, EndsCleanly(entries, k),
                     LastBlockUsed(iter.file.blocks, phys), Sealed(iter.file.blocks, iter.file.blockSize, phys))
  {
    ghost var n: nat, lost := k, false;
    ghost var clean := EndsCleanly(entries, k);
    ghost var all := Listing(phys, iter.file.blockSize, entries, k);
    out := [];
    var more := More(iter, phys, entries, n, lost);
    while more
      invariant n <= |entries| && iter.Valid(phys) && (!lost ==> iter.At(phys, StartOf(Recs(phys), entries, n)))
      invariant !lost ==> more == (n < |entries| || !LastBlockUsed(iter.file.blocks, phys))
      invariant OnTheWay(iter, phys, entries, n, lost, out, all, clean)
      decreases iter.endBlk - iter.blk, iter.file.blockSize - iter.currentpos
    {
      ghost var was := out;
      var r;
      r, n, lost := Turn(iter, phys, entries, n, lost, was, all, clean);
      if r.OutOfBounds? { return out, false; }
      out := out + [(r.lsn, r.payload)];
      more := More(iter, phys, entries, n, lost);
    }
    if !lost { OneMoreRead(phys, iter.file.blockSize, entries, n, out, all, clean); }
    ok := true;
  }

  method Turn(iter: LogIterator, ghost phys: seq<Phys>, ghost entries: seq<Entry>, ghost n: nat, ghost lost: bool,
              ghost out: seq<(int, Bytes)>, ghost all: seq<(int, Bytes)>, ghost clean: bool)
    returns (r: Outcome, ghost n': nat, ghost lost': bool)
    requires Entries(phys, entries, |phys|) && n <= |entries|
    requires iter.Valid(phys) && (!lost ==> iter.At(phys, StartOf(Recs(phys), entries, n)))
    requires forall j | 0 <= j < |entries| :: entries[j].start < |phys|
    requires OnTheWay(iter, phys, entries, n, lost, out, all, clean)
    requires !lost ==> n < |entries| || !LastBlockUsed(iter.file.blocks, phys)
    modifies iter, iter.p.bb
    ensures n' <= |entries| && iter.Valid(phys) && (!lost' && r.Read? ==> iter.At(phys, StartOf(Recs(phys), entries, n')))
    ensures r.OutOfBounds? ==>
              Outcomes(all, out, false, clean, LastBlockUsed(iter.file.blocks, phys),
                       Sealed(iter.file.blocks, iter.file.blockSize, phys))
    ensures r.Read? ==>
              && iter.Beyond(old(iter.blk), old(iter.currentpos))
              && OnTheWay(iter, phys, entries, n', lost', out + [(r.lsn, r.payload)], all, clean)
  {
    r := NextOf(iter, phys, entries, n, lost);
    OneStep(iter, phys, entries, n, lost, out, all, clean, r);
    lost' := lost || NextWhole(entries, n) == |entries|;
    n' := if lost' then n else NextWhole(entries, n) + 1;
  }

  /** Before a call of Next that HasNext has allowed: on the way, or astray behind the last record. */
  ghost predicate OnTheWay(iter: LogIterator, phys: seq<Phys>, entries: seq<Entry>, n: nat, lost: bool,
                           out: seq<(int, Bytes)>, all: seq<(int, Bytes)>, clean: bool)
    requires n <= |entries| && forall j | 0 <= j < |entries| :: entries[j].start < |phys|
    reads iter.file
  {
    if !lost then Underway(phys, iter.file.blockSize, entries, n, out, all, clean)
    else
      && all <= out && |all| < |out|
      && !Sealed(iter.file.blocks, iter.file.blockSize, phys) && !(LastBlockUsed(iter.file.blocks, phys) && clean)
  }

  lemma OneStep(iter: LogIterator, phys: seq<Phys>, entries: seq<Entry>, n: nat, lost: bool,
                out: seq<(int, Bytes)>, all: seq<(int, Bytes)>, clean: bool, r: Outcome)
    requires n <= |entries| && forall j | 0 <= j < |entries| :: entries[j].start < |phys|
    requires OnTheWay(iter, phys, entries, n, lost, out, all, clean)
    requires !lost ==> n < |entries| || !LastBlockUsed(iter.file.blocks, phys)
    requires !lost ==>
               var j := NextWhole(entries, n);
               if j < |entries| then r == Read(phys[entries[j].start].Lsn(iter.file.blockSize), entries[j].payload)
               else Sealed(iter.file.blocks, iter.file.blockSize, phys) ==> r == OutOfBounds
    ensures r.OutOfBounds? ==>
              Outcomes(all, out, false, clean, LastBlockUsed(iter.file.blocks, phys),
                       Sealed(iter.file.blocks, iter.file.blockSize, phys))
    ensures r.Read? ==>
              var lost' := lost || NextWhole(entries, n) == |entries|;
              OnTheWay(iter, phys, entries, if lost' then n else NextWhole(entries, n) + 1, lost',
                       out + [(r.lsn, r.payload)], all, clean)
  {
    if !lost { OneMoreRead(phys, iter.file.blockSize, entries, n, out, all, clean); }
  }

  method More(iter: LogIterator, ghost phys: seq<Phys>, ghost entries: seq<Entry>, ghost n: nat, ghost lost: bool)
    returns (more: bool)
    requires n <= |entries| && iter.Valid(phys) && (!lost ==> iter.At(phys, StartOf(Recs(phys), entries, n)))
    requires forall j | 0 <= j < |entries| :: entries[j].start < |phys|
    ensures !lost ==> more == (n < |entries| || !LastBlockUsed(iter.file.blocks, phys))
  {
    more := iter.HasNext(phys, StartOf(Recs(phys), entries, n));
  }

  /** One step of the iterator. */
  method NextOf(iter: LogIterator, ghost phys: seq<Phys>, ghost entries: seq<Entry>, ghost n: nat, ghost lost: bool)
    returns (r: Outcome)
    requires Entries(phys, entries, |phys|) && n <= |entries| && iter.Valid(phys)
    requires forall j | 0 <= j < |entries| :: entries[j].start < |phys|
    requires !lost ==> iter.At(phys, StartOf(Recs(phys), entries, n))
    modifies iter, iter.p.bb
    ensures iter.Valid(phys) && (r.Read? ==> iter.Beyond(old(iter.blk), old(iter.currentpos)))
    ensures !lost ==>
              var j := NextWhole(entries, n);
              if j < |entries| then
                && r == Read(phys[entries[j].start].Lsn(iter.file.blockSize), entries[j].payload)
                && iter.At(phys, StartOf(Recs(phys), entries, j + 1))
              else Sealed(iter.file.blocks, iter.file.blockSize, phys) ==> r == OutOfBounds
  {
    ghost var from, f := FoundFrom(phys, entries, n);
    ghost var next;
    r, next := iter.Next(phys, from, lost);
  }

  /** What Next will find from entry `n` on. */
  lemma FoundFrom(phys: seq<Phys>, entries: seq<Entry>, n: nat) returns (from: nat, f: Found)
    requires Entries(phys, entries, |phys|) && n <= |entries|
    ensures from == StartOf(Recs(phys), entries, n) && f == NextEntry(Recs(phys), from)
    ensures var j := NextWhole(entries, n);
            if j == |entries| then f == Nothing
            else f == Found(entries[j].start, entries[j].payload, StartOf(Recs(phys), entries, j + 1))
  {
    EntriesInLine(phys, entries);
    ReadFrom(Recs(phys), entries, n);
    if NextWhole(entries, n) < |entries| { assert InPlace(Recs(phys), entries, NextWhole(entries, n)); }
    from := StartOf(Recs(phys), entries, n);
    f := NextEntry(Recs(phys), from);
  }

  /** Reading a single record needs only its own physical records on disk. */
  method ReadRecordAt(lm: LogMgr, lsn: nat, ghost k: nat) returns (r: Outcome)
    requires lm.Valid() && lm.Accounted() && k < |lm.entries| && lm.entries[k].Ok() && lm.entries[k].Whole()
    requires lm.entries[k].start + lm.entries[k].kept <= lm.saved
    requires lsn == lm.phys[lm.entries[k].start].Lsn(lm.Bs())
    ensures r == Read(lsn, lm.entries[k].payload)
  {
    ghost var phys, e := lm.phys[..lm.saved], lm.entries[k];
    EntriesInLine(lm.phys, lm.entries);
    assert InPlace(Recs(lm.phys), lm.entries, k);
    assert Carries(Recs(phys), e);
    ReadEntry(Recs(phys), e);
    var iter := new LogIterator(lm.file, lsn, phys, e.start);
    var more := iter.HasNext(phys, e.start);
    ghost var next;
    r, next := iter.Next(phys, e.start, false);
  }

  // ---------------------------------------------------------------- after a crash

  /** A crash leaves the file, which shows what was on disk: the log can be opened again, whatever was torn off,
      and appending goes on behind it. */
  method Reopen(lm: LogMgr, ghost ckptLSN: int) returns (again: LogMgr)
    requires lm.Valid() && lm.Accounted() && IsInt32(ckptLSN)
    requires lm.file.blocks[0] == HeaderImage(lm.Bs(), ckptLSN)
    modifies lm.file
    ensures again.file == lm.file && again.Valid() && again.Accounted()
    ensures again.phys == lm.phys[..lm.saved] && again.entries == CutOff(lm.entries, lm.saved)
    ensures again.saved == |again.phys|
  {
    PrefixIsLog(lm.phys, lm.entries, |lm.phys|, lm.saved);
    again := new LogMgr(lm.file, lm.phys[..lm.saved], CutOff(lm.entries, lm.saved), ckptLSN);
  }

  /** Such a log: one record of thirteen bytes in blocks of 24, cut off after its first fragment.
      HasNext promises a record, and reading it goes out of bounds. */
  method TornLogCannotBeRead() returns (out: seq<(int, Bytes)>, ok: bool)
    ensures out == [] && !ok
  {
    var file := new LogFile(24);
    var lm := new LogMgr(file, [], [], 28);
    var logrec := seq(13, _ => 0);
    lm.AppendCutOff(logrec);
    EntriesInLine(lm.phys, lm.entries);
    assert lm.entries == [Back(lm.entries)];
    TornTailNeverClean(lm.entries, 0);
    assert lm.phys == [lm.phys[0]];
    assert lm.phys[0].Lsn(24) == 28;
    out, ok := ReadBack(lm, 28, 0);
  }

  /** A new block that was written before it got a record still carries the first record of the block
      before it: an iterator that enters it reads that record a second time, under a new LSN. */
  lemma EmptyBlockRepeatsRecord(img: Bytes, b: nat, phys: seq<Phys>, i: nat)
    requires Holds(img, b, phys) && i < |phys| && phys[i].blk == b && phys[i].off == 4
    ensures RecAt(Splice(img, 0, I32(4)), 4, phys[i].rec)
    ensures Splice(img, 0, I32(4))[..4] == I32(4)
  {
    RecordsAt(img, b, phys, i);
    SpliceElsewhere(img, 0, I32(4), 4, 8);
    SpliceElsewhere(img, 0, I32(4), 8, phys[i].End());
  }

  /** A block image after Append put a short record where the block's boundary says. */
  function AppendedAt(img: Bytes, boundary: nat, payload: Bytes): Bytes
    requires boundary + 8 + |payload| <= |img| && IsInt32(|img|)
  {
    var rec := NormalRec(payload);
    Splice(Splice(img, boundary, I32(|rec|) + rec), 0, I32(boundary + 4 + |rec|))
  }

  /** The byte at offset 8 of such a block. */
  function Stray(payload: Bytes): byte { if payload == [] then 0 else payload[0] }

  /** A new block whose boundary was never written has boundary 0, so its first record begins at offset 0 and the
      new boundary takes the place of its length.  Read at its own LSN the record has four bytes too many; an
      iterator that comes from the block before finds a record of one byte, which is none. */
  lemma ZeroBoundarySpoilsRecord(blockSize: nat, payload: Bytes)
    requires IsInt32(blockSize) && 4 + |payload| <= blockSize - 8
    ensures RecAt(AppendedAt(Zeros(blockSize), 0, payload), 0, NormalRec(payload + Zeros(4)))
    ensures NextEntry([NormalRec(payload + Zeros(4))], 0) == Found(0, payload + Zeros(4), 1)
    ensures RecAt(AppendedAt(Zeros(blockSize), 0, payload), 4, [Stray(payload)])
    ensures NextEntry([[Stray(payload)]], 0) == Nothing
  {
    var rec, img := NormalRec(payload), AppendedAt(Zeros(blockSize), 0, payload);
    ZeroBoundaryImage(blockSize, rec);
    assert NormalRec(payload + Zeros(4)) == rec + Zeros(4);
    StrayAt(img, payload);
    ReadNormal(payload + Zeros(4));
  }

  lemma StrayAt(img: Bytes, payload: Bytes)
    requires 12 + |payload| <= |img| && img[4..12 + |payload|] == NormalRec(payload) + Zeros(4)
    ensures RecAt(img, 4, [Stray(payload)])
  {
    var s := img[4..12 + |payload|];
    StrayRecord(payload, s);
    SliceOf(img, 4, 12 + |payload|, 0, 4);
    SliceOf(img, 4, 12 + |payload|, 4, 5);
  }

  lemma SliceOf(s: Bytes, lo: nat, hi: nat, a: nat, b: nat)
    requires lo <= hi <= |s| && a <= b <= hi - lo
    ensures s[lo..hi][a..b] == s[lo + a..lo + b]
  {
    var x, y := s[lo..hi][a..b], s[lo + a..lo + b];
    forall i | 0 <= i < b - a ensures x[i] == y[i] {
    }
    assert x == y;
  }

  lemma StrayRecord(payload: Bytes, s: Bytes)
    requires s == NormalRec(payload) + Zeros(4)
    ensures s[0..4] == I32(1) && s[4..5] == [Stray(payload)]
  {
    assert NORMAL == 1;
    assert s[4] == Stray(payload);
  }

  lemma ZeroBoundaryImage(blockSize: nat, rec: Bytes)
    requires IsInt32(blockSize) && |rec| <= blockSize - 8
    ensures var img := Splice(Splice(Zeros(blockSize), 0, I32(|rec|) + rec), 0, I32(4 + |rec|));
            img[0..4] == I32(4 + |rec|) && img[4..8 + |rec|] == rec + Zeros(4)
  {
    var written := Splice(Zeros(blockSize), 0, I32(|rec|) + rec);
    SpliceThere(written, 0, I32(4 + |rec|));
    SpliceElsewhere(written, 0, I32(4 + |rec|), 4, 8 + |rec|);
    assert written[4..8 + |rec|] == rec + Zeros(4);
  }
}

/** The buffer pool as a value: a cache of pages with a hash index, a replacement order, pin counts and
    dirty tracking. */
module BufferPool {
  import opened Storage
  import opened LogModel
  import opened RecoveryObjects

  datatype Buf = Buf(page: PageImage, blk: Option<BlockId>, pins: nat, txnum: TxNum, recLSN: LSN, pageLSN: LSN) {
    predicate Pinned() { pins > 0 }

    predicate Modified() { txnum >= 0 }

    predicate IsDirty() { blk.Some? && txnum >= 0 && recLSN > 0 }
  }

  const EMPTY_BUF := Buf(BlankPage, None, 0, -1, NO_LSN, NO_LSN)

  /** `order` lists the buffers from the next victim on; `forced` is the LSN up to which the log was forced. */
  datatype Pool = Pool(bufs: seq<Buf>, order: seq<nat>, index: map<int, nat>, available: int,
                       disk: Disk, dpt: Dpt, forced: LSN)

  // ---------------------------------------------------------------- operations

  function Max(a: int, b: int): int { if a < b then b else a }

  /** Writing a modified buffer out: the log first, then the page. */
  function Flushed(p: Pool, i: nat): Pool
    requires i < |p.bufs| && (p.bufs[i].Modified() ==> p.bufs[i].blk.Some?)
  {
    var f := p.bufs[i];
    if f.Modified() then
      p.(forced := Max(p.forced, f.pageLSN), disk := p.disk[f.blk.value := f.page],
         dpt := p.dpt - {f.blk.value}, bufs := p.bufs[i := f.(txnum := -1, recLSN := NO_LSN)])
    else p
  }

  /** Position in the order of the first unpinned buffer, or the length of the order. */
  function Victim(bufs: seq<Buf>, order: seq<nat>): (k: nat)
    requires forall j | 0 <= j < |order| :: order[j] < |bufs|
    ensures k <= |order| && (forall j | 0 <= j < k :: bufs[order[j]].Pinned())
    ensures k < |order| ==> !bufs[order[k]].Pinned()
  {
    if order == [] then 0
    else if !bufs[order[0]].Pinned() then 0
    else
      assert forall j | 0 <= j < |order[1..]| :: order[1..][j] == order[j + 1];
      var k := Victim(bufs, order[1..]);
      assert forall j | 0 < j <= k :: order[j] == order[1..][j - 1];
      1 + k
  }

  function MoveToBack(order: seq<nat>, k: nat): seq<nat>
    requires k < |order|
  {
    order[..k] + order[k + 1..] + [order[k]]
  }

  /** The index without the block that leaves and with the one that comes. */
  function Reindexed(index: map<int, nat>, hash: BlockId -> int, gone: Option<BlockId>, b: BlockId, i: nat): map<int, nat> {
    (if gone.Some? then index - {hash(gone.value)} else index)[hash(b) := i]
  }

  /** Buffer `i`, whose page is on disk, is given to block `b` and pinned. */
  function Assigned(p: Pool, hash: BlockId -> int, i: nat, b: BlockId): Pool
    requires i < |p.bufs|
  {
    var f := p.bufs[i];
    p.(bufs := p.bufs[i := f.(page := ReadPage(p.disk, b), blk := Some(b), pins := 1)],
       index := Reindexed(p.index, hash, f.blk, b, i), available := p.available - 1)
  }

  function Repinned(p: Pool, i: nat): Pool
    requires i < |p.bufs|
  {
    var f := p.bufs[i];
    p.(bufs := p.bufs[i := f.(pins := f.pins + 1)], available := if f.Pinned() then p.available else p.available - 1)
  }

  function Unpinned(p: Pool, i: nat): Pool
    requires i < |p.bufs| && p.bufs[i].Pinned()
  {
    var f := p.bufs[i];
    p.(bufs := p.bufs[i := f.(pins := f.pins - 1)], available := if f.pins == 1 then p.available + 1 else p.available)
  }

  /** A page change recorded under `lsn`; an unlogged one (`lsn` not positive) leaves the LSNs alone. */
  function Changed(p: Pool, i: nat, f: Field, v: Value, t: TxNum, lsn: LSN): Pool
    requires i < |p.bufs| && p.bufs[i].blk.Some?
  {
    var u := p.bufs[i];
    if lsn <= 0 then p.(bufs := p.bufs[i := u.(page := PageImage(u.page.lsn, u.page.fields[f := v]), txnum := t)])
    else
      p.(bufs := p.bufs[i := u.(page := u.page.Put(f, v, lsn), txnum := t, pageLSN := lsn,
                                recLSN := if u.recLSN == NO_LSN then lsn else u.recLSN)],
         dpt := if u.recLSN == NO_LSN && u.blk.value !in p.dpt then p.dpt[u.blk.value := lsn] else p.dpt)
  }

  // ---------------------------------------------------------------- invariant

  ghost predicate Injective(hash: BlockId -> int) {
    forall b, c :: hash(b) == hash(c) ==> b == c
  }

  function CountUnpinned(bufs: seq<Buf>): nat {
    if bufs == [] then 0
    else CountUnpinned(bufs[..|bufs| - 1]) + (if bufs[|bufs| - 1].Pinned() then 0 else 1)
  }

  /** Every buffer number below `n` exactly once. */
  predicate Permutation(order: seq<nat>, n: nat) {
    && |order| == n && (forall i | 0 <= i < n :: order[i] < n)
    && forall i, j | 0 <= i < j < n :: order[i] != order[j]
  }

  /** The index finds exactly the assigned buffers, by the hash of their block. */
  ghost predicate IndexOk(bufs: seq<Buf>, index: map<int, nat>, hash: BlockId -> int) {
    && (forall h | h in index :: index[h] < |bufs| && bufs[index[h]].blk.Some? && hash(bufs[index[h]].blk.value) == h)
    && (forall i | 0 <= i < |bufs| && bufs[i].blk.Some? ::
          hash(bufs[i].blk.value) in index && index[hash(bufs[i].blk.value)] == i)
  }

  /** A buffer without changes shows its block's page on disk; only assigned buffers have pins or changes;
      no page is newer than the log known to be forced or to be forced with it. */
  ghost predicate BufOk(f: Buf, disk: Disk, forced: LSN) {
    && (f.blk.None? ==> f.pins == 0 && !f.Modified())
    && (f.blk.Some? && !f.Modified() ==> f.page == ReadPage(disk, f.blk.value))
    && (f.blk.Some? ==> f.page.lsn <= Max(f.pageLSN, forced))
    && (!f.Modified() ==> f.recLSN == NO_LSN)
  }

  ghost predicate BufsOk(bufs: seq<Buf>, disk: Disk, forced: LSN) {
    forall i | 0 <= i < |bufs| :: BufOk(bufs[i], disk, forced)
  }

  /** The write-ahead rule. */
  ghost predicate DiskForced(disk: Disk, forced: LSN) {
    0 <= forced && forall b | b in disk :: disk[b].lsn <= forced
  }

  ghost predicate PoolOk(p: Pool, hash: BlockId -> int) {
    && Permutation(p.order, |p.bufs|)
    && IndexOk(p.bufs, p.index, hash)
    && BufsOk(p.bufs, p.disk, p.forced) && DiskForced(p.disk, p.forced)
    && p.available == CountUnpinned(p.bufs)
  }

  /** The buffer was changed under an LSN since it was last clean. */
  predicate Listable(u: Buf) { u.blk.Some? && u.recLSN != NO_LSN }

  ghost predicate SomeListable(bufs: seq<Buf>, b: BlockId) {
    exists i: nat :: i < |bufs| && bufs[i].blk == Some(b) && Listable(bufs[i])
  }

  /** The dirty page table lists exactly the blocks of such buffers, under their recLSN.  That is so until
      Recover puts the table it has built in its place. */
  ghost predicate TableMatches(p: Pool) {
    && (forall i: nat | i < |p.bufs| && Listable(p.bufs[i]) ::
          p.bufs[i].blk.value in p.dpt && p.dpt[p.bufs[i].blk.value] == p.bufs[i].recLSN)
    && (forall b | b in p.dpt :: SomeListable(p.bufs, b))
  }

  /** What a reader of block `b` sees: its buffer if there is one, else the disk. */
  function Content(p: Pool, hash: BlockId -> int, b: BlockId): PageImage {
    if hash(b) in p.index && p.index[hash(b)] < |p.bufs| then p.bufs[p.index[hash(b)]].page else ReadPage(p.disk, b)
  }

  ghost predicate SameContents(p: Pool, q: Pool, hash: BlockId -> int) {
    forall b :: Content(q, hash, b) == Content(p, hash, b)
  }

  // ---------------------------------------------------------------- counting and order

  lemma {:induction false} CountUpdate(bufs: seq<Buf>, i: nat, f: Buf)
    requires i < |bufs|
    ensures CountUnpinned(bufs[i := f]) ==
            CountUnpinned(bufs) - (if bufs[i].Pinned() then 0 else 1) + (if f.Pinned() then 0 else 1)
  {
    var n := |bufs| - 1;
    var bufs' := bufs[i := f];
    if i < n {
      assert bufs'[..n] == bufs[..n][i := f];
      CountUpdate(bufs[..n], i, f);
    } else {
      assert bufs'[..n] == bufs[..n];
    }
  }

  lemma {:induction false} CountNone(bufs: seq<Buf>)
    requires forall i | 0 <= i < |bufs| :: bufs[i].Pinned()
    ensures CountUnpinned(bufs) == 0
  {
    if bufs != [] { CountNone(bufs[..|bufs| - 1]); }
  }

  /** One item is the last now, and the others are in their order. */
  predicate MovedLast(was: seq<nat>, now: seq<nat>, k: int)
    requires 0 <= k < |was|
  {
    && |now| == |was| && now[|was| - 1] == was[k]
    && forall j | 0 <= j < |was| - 1 :: now[j] == was[if j < k then j else j + 1]
  }

  lemma MovesLast(order: seq<nat>, k: nat)
    requires k < |order|
    ensures MovedLast(order, MoveToBack(order, k), k)
  {
  }

  lemma MoveToBackPermutes(order: seq<nat>, n: nat, k: nat)
    requires Permutation(order, n) && k < n
    ensures Permutation(MoveToBack(order, k), n)
  {
    var o := MoveToBack(order, k);
    forall i | 0 <= i < n ensures o[i] == order[if i < k then i else if i < n - 1 then i + 1 else k] {
    }
  }

  function Upto(n: nat): set<int> {
    if n == 0 then {} else Upto(n - 1) + {n - 1}
  }

  lemma {:induction false} UptoFacts(n: nat)
    ensures (forall x :: x in Upto(n) <==> 0 <= x < n) && |Upto(n)| == n
  {
    if n > 0 { UptoFacts(n - 1); }
  }

  /** A list of `n` distinct numbers below `n` contains every number below `n`. */
  lemma Pigeonhole(order: seq<nat>, n: nat, i: nat)
    requires Permutation(order, n) && i < n
    ensures i in order
  {
    UptoFacts(n);
    Distinct(order, n);
    var s := set j | 0 <= j < n :: order[j];
    if i !in order {
      assert s <= Upto(n) - {i};
      SubsetSize(s, Upto(n) - {i});
      assert false;
    }
  }

  lemma SubsetSize(a: set<int>, b: set<int>)
    requires a <= b
    ensures |a| <= |b|
  {
    assert b == a + (b - a);
  }

  lemma {:induction false} Distinct(order: seq<nat>, m: nat)
    requires m <= |order| && forall i, j | 0 <= i < j < |order| :: order[i] != order[j]
    ensures |set j | 0 <= j < m :: order[j]| == m
  {
    if m > 0 {
      Distinct(order, m - 1);
      var s, s1 := set j | 0 <= j < m - 1 :: order[j], set j | 0 <= j < m :: order[j];
      assert s1 == s + {order[m - 1]};
      assert order[m - 1] !in s;
    }
  }

  /** Pinning fails only if every buffer is pinned. */
  lemma NoVictimAllPinned(p: Pool, hash: BlockId -> int)
    requires PoolOk(p, hash) && Victim(p.bufs, p.order) == |p.order|
    ensures forall i | 0 <= i < |p.bufs| :: p.bufs[i].Pinned()
    ensures p.available == 0
  {
    forall i | 0 <= i < |p.bufs| ensures p.bufs[i].Pinned() {
      Pigeonhole(p.order, |p.bufs|, i);
      var j :| 0 <= j < |p.order| && p.order[j] == i;
    }
    CountNone(p.bufs);
  }

  // ---------------------------------------------------------------- every operation keeps the pool

  /** A different buffer holds a different block. */
  lemma OtherBlock(p: Pool, hash: BlockId -> int, i: nat, j: nat)
    requires IndexOk(p.bufs, p.index, hash) && i < |p.bufs| && j < |p.bufs| && i != j
    requires p.bufs[i].blk.Some? && p.bufs[j].blk.Some?
    ensures p.bufs[i].blk.value != p.bufs[j].blk.value
  {
  }

  /** Looking up a block finds its own buffer. */
  lemma IndexFinds(p: Pool, hash: BlockId -> int, b: BlockId)
    requires IndexOk(p.bufs, p.index, hash) && Injective(hash) && hash(b) in p.index
    ensures p.index[hash(b)] < |p.bufs| && p.bufs[p.index[hash(b)]].blk == Some(b)
  {
    var h := hash(b);
    assert h in p.index;
    assert p.index[h] < |p.bufs| && hash(p.bufs[p.index[h]].blk.value) == h;
  }

  /** A block in a buffer is in the index. */
  lemma IndexHas(p: Pool, hash: BlockId -> int, i: nat)
    requires IndexOk(p.bufs, p.index, hash) && i < |p.bufs| && p.bufs[i].blk.Some?
    ensures hash(p.bufs[i].blk.value) in p.index && p.index[hash(p.bufs[i].blk.value)] == i
  {
  }

  lemma BufAt(p: Pool, i: nat)
    requires BufsOk(p.bufs, p.disk, p.forced) && i < |p.bufs|
    ensures BufOk(p.bufs[i], p.disk, p.forced)
  {
  }

  lemma FlushedBufs(p: Pool, hash: BlockId -> int, i: nat)
    requires PoolOk(p, hash) && i < |p.bufs| && p.bufs[i].Modified()
    ensures p.bufs[i].blk.Some?
    ensures var q := Flushed(p, i); BufsOk(q.bufs, q.disk, q.forced) && DiskForced(q.disk, q.forced)
  {
    BufAt(p, i);
    var q := Flushed(p, i);
    forall j | 0 <= j < |q.bufs| ensures BufOk(q.bufs[j], q.disk, q.forced) {
      BufAt(p, j);
      if j != i && q.bufs[j].blk.Some? { OtherBlock(p, hash, i, j); }
    }
  }

  /** The same buffer without changes. */
  function Clean(u: Buf): Buf { u.(txnum := -1, recLSN := NO_LSN) }

  /** The page of `u`, if it was modified, was written out, the log before it: its block alone left the dirty page
      table, its block alone changed on disk. */
  ghost predicate PageWritten(p: Pool, q: Pool, u: Buf) {
    if u.Modified() && u.blk.Some? then
      && ReadPage(q.disk, u.blk.value) == u.page
      && (forall c | c != u.blk.value :: ReadPage(q.disk, c) == ReadPage(p.disk, c))
      && u.blk.value !in q.dpt && (forall c | c != u.blk.value :: c in q.dpt <==> c in p.dpt)
      && (forall c | c in q.dpt :: q.dpt[c] == p.dpt[c])
      && q.forced >= p.forced && q.forced >= u.pageLSN && (q.forced == p.forced || q.forced == u.pageLSN)
    else q.disk == p.disk && q.dpt == p.dpt && q.forced == p.forced
  }

  /** Buffer `i` was written out and is clean; nothing else changed. */
  ghost predicate WrittenOut(p: Pool, q: Pool, i: nat)
    requires i < |p.bufs|
  {
    var u := p.bufs[i];
    && PageWritten(p, q, u)
    && q.bufs == (if u.Modified() then p.bufs[i := Clean(u)] else p.bufs)
    && q.order == p.order && q.index == p.index && q.available == p.available
  }

  /** Flushing a buffer leaves every content, every pin and every assignment as it was, and the buffer clean. */
  lemma FlushedOk(p: Pool, hash: BlockId -> int, i: nat)
    requires PoolOk(p, hash) && Injective(hash) && i < |p.bufs|
    ensures p.bufs[i].Modified() ==> p.bufs[i].blk.Some?
    ensures var q := Flushed(p, i);
            && PoolOk(q, hash) && SameContents(p, q, hash)
            && q.order == p.order && q.index == p.index && |q.bufs| == |p.bufs|
            && !q.bufs[i].Modified() && q.bufs[i].pins == p.bufs[i].pins && q.bufs[i].blk == p.bufs[i].blk
            && forall j | 0 <= j < |p.bufs| && j != i :: q.bufs[j] == p.bufs[j]
  {
    BufAt(p, i);
    if p.bufs[i].Modified() {
      FlushedBufs(p, hash, i);
      var q := Flushed(p, i);
      CountUpdate(p.bufs, i, q.bufs[i]);
      IndexHas(p, hash, i);
      forall b ensures Content(q, hash, b) == Content(p, hash, b) {
        if hash(b) !in p.index { assert b != p.bufs[i].blk.value; }
      }
    }
  }

  lemma FlushedWrites(p: Pool, i: nat)
    requires i < |p.bufs| && (p.bufs[i].Modified() ==> p.bufs[i].blk.Some?)
    ensures WrittenOut(p, Flushed(p, i), i)
  {
  }

  /** Flushing keeps the dirty page table in step with the buffers. */
  lemma FlushedTable(p: Pool, hash: BlockId -> int, i: nat)
    requires PoolOk(p, hash) && Injective(hash) && TableMatches(p) && i < |p.bufs|
    ensures p.bufs[i].Modified() ==> p.bufs[i].blk.Some?
    ensures TableMatches(Flushed(p, i))
  {
    BufAt(p, i);
    var q := Flushed(p, i);
    if p.bufs[i].Modified() {
      forall j: nat | j < |q.bufs| && Listable(q.bufs[j])
        ensures q.bufs[j].blk.value in q.dpt && q.dpt[q.bufs[j].blk.value] == q.bufs[j].recLSN
      {
        assert j != i && q.bufs[j] == p.bufs[j];
        OtherBlock(p, hash, i, j);
      }
      forall b | b in q.dpt ensures SomeListable(q.bufs, b) {
        assert SomeListable(p.bufs, b);
        var j: nat :| j < |p.bufs| && p.bufs[j].blk == Some(b) && Listable(p.bufs[j]);
        assert j != i && q.bufs[j] == p.bufs[j];
      }
    }
  }

  /** The table speaks of the blocks and recLSNs of the buffers only. */
  lemma SameListable(p: Pool, q: Pool)
    requires TableMatches(p) && q.dpt == p.dpt && |q.bufs| == |p.bufs|
    requires forall j: nat | j < |p.bufs| :: Listable(q.bufs[j]) <==> Listable(p.bufs[j])
    requires forall j: nat | j < |p.bufs| && Listable(p.bufs[j]) ::
               q.bufs[j].blk == p.bufs[j].blk && q.bufs[j].recLSN == p.bufs[j].recLSN
    ensures TableMatches(q)
  {
    forall b | b in q.dpt ensures SomeListable(q.bufs, b) {
      assert SomeListable(p.bufs, b);
      var j: nat :| j < |p.bufs| && p.bufs[j].blk == Some(b) && Listable(p.bufs[j]);
      assert Listable(q.bufs[j]) && q.bufs[j].blk == Some(b);
    }
  }

  lemma ReorderedOk(p: Pool, hash: BlockId -> int, k: nat)
    requires PoolOk(p, hash) && k < |p.order|
    ensures PoolOk(p.(order := MoveToBack(p.order, k)), hash)
  {
    MoveToBackPermutes(p.order, |p.bufs|, k);
  }

  lemma AssignedIndex(p: Pool, hash: BlockId -> int, i: nat, b: BlockId)
    requires IndexOk(p.bufs, p.index, hash) && Injective(hash) && i < |p.bufs| && hash(b) !in p.index
    ensures var q := Assigned(p, hash, i, b); IndexOk(q.bufs, q.index, hash)
  {
    var q := Assigned(p, hash, i, b);
    forall h | h in q.index
      ensures q.index[h] < |q.bufs| && q.bufs[q.index[h]].blk.Some? && hash(q.bufs[q.index[h]].blk.value) == h
    {
    }
    forall j | 0 <= j < |q.bufs| && q.bufs[j].blk.Some?
      ensures hash(q.bufs[j].blk.value) in q.index && q.index[hash(q.bufs[j].blk.value)] == j
    {
      if j != i {
        IndexHas(p, hash, j);
        if p.bufs[i].blk.Some? { OtherBlock(p, hash, i, j); }
      }
    }
  }

  lemma AssignedContents(p: Pool, hash: BlockId -> int, i: nat, b: BlockId)
    requires PoolOk(p, hash) && Injective(hash) && i < |p.bufs| && hash(b) !in p.index && !p.bufs[i].Modified()
    ensures SameContents(p, Assigned(p, hash, i, b), hash)
  {
    var q := Assigned(p, hash, i, b);
    BufAt(p, i);
    forall c ensures Content(q, hash, c) == Content(p, hash, c) {
      if hash(c) in p.index {
        IndexFinds(p, hash, c);
        if p.index[hash(c)] != i && p.bufs[i].blk.Some? { IndexHas(p, hash, i); }
      }
    }
  }

  lemma AssignedBufs(p: Pool, hash: BlockId -> int, i: nat, b: BlockId)
    requires PoolOk(p, hash) && i < |p.bufs| && !p.bufs[i].Modified()
    ensures BufsOk(Assigned(p, hash, i, b).bufs, p.disk, p.forced)
  {
    var q := Assigned(p, hash, i, b);
    forall j | 0 <= j < |q.bufs| ensures BufOk(q.bufs[j], p.disk, p.forced) {
      BufAt(p, j);
    }
  }

  /** Giving an unpinned, clean buffer to another block. */
  lemma AssignedOk(p: Pool, hash: BlockId -> int, i: nat, b: BlockId)
    requires PoolOk(p, hash) && Injective(hash) && i < |p.bufs| && hash(b) !in p.index
    requires !p.bufs[i].Pinned() && !p.bufs[i].Modified()
    ensures var q := Assigned(p, hash, i, b);
            PoolOk(q, hash) && SameContents(p, q, hash)
  {
    CountUpdate(p.bufs, i, Assigned(p, hash, i, b).bufs[i]);
    AssignedIndex(p, hash, i, b);
    AssignedBufs(p, hash, i, b);
    AssignedContents(p, hash, i, b);
  }

  /** The number of pins changes nothing but who can be a victim. */
  lemma RepinOk(p: Pool, hash: BlockId -> int, i: nat, pins: nat, available: int)
    requires PoolOk(p, hash) && i < |p.bufs| && p.bufs[i].blk.Some?
    requires available == p.available - (if p.bufs[i].Pinned() then 0 else 1) + (if pins > 0 then 0 else 1)
    ensures var q := p.(bufs := p.bufs[i := p.bufs[i].(pins := pins)], available := available);
            PoolOk(q, hash) && SameContents(p, q, hash)
  {
    var q := p.(bufs := p.bufs[i := p.bufs[i].(pins := pins)], available := available);
    CountUpdate(p.bufs, i, q.bufs[i]);
    forall j | 0 <= j < |q.bufs| ensures BufOk(q.bufs[j], q.disk, q.forced) { BufAt(p, j); }
  }

  lemma UnpinnedOk(p: Pool, hash: BlockId -> int, i: nat)
    requires PoolOk(p, hash) && i < |p.bufs| && p.bufs[i].Pinned()
    ensures PoolOk(Unpinned(p, i), hash) && SameContents(p, Unpinned(p, i), hash)
    ensures TableMatches(p) ==> TableMatches(Unpinned(p, i))
  {
    BufAt(p, i);
    RepinOk(p, hash, i, p.bufs[i].pins - 1, Unpinned(p, i).available);
    if TableMatches(p) { SameListable(p, Unpinned(p, i)); }
  }

  /** What a modification leaves in the buffer and in the dirty page table: its transaction, and, unless it is
      unlogged, its LSN, which is also the recLSN if the buffer had none. */
  ghost predicate ModificationNoted(p: Pool, q: Pool, i: nat, t: TxNum, lsn: LSN)
    requires i < |p.bufs| && p.bufs[i].blk.Some?
  {
    && |q.bufs| == |p.bufs| && (forall j: nat | j < |p.bufs| && j != i :: q.bufs[j] == p.bufs[j])
    && var u, w, b := p.bufs[i], q.bufs[i], p.bufs[i].blk.value;
    && w.blk == u.blk && w.pins == u.pins && w.txnum == t
    && w.page.lsn == (if lsn > 0 then lsn else u.page.lsn) && w.pageLSN == (if lsn > 0 then lsn else u.pageLSN)
    && w.recLSN == (if lsn > 0 && u.recLSN == NO_LSN then lsn else u.recLSN)
    && q.dpt == (if lsn > 0 && u.recLSN == NO_LSN && b !in p.dpt then p.dpt[b := lsn] else p.dpt)
    && q.order == p.order && q.index == p.index && q.available == p.available && q.disk == p.disk && q.forced == p.forced
  }

  /** A modification keeps the dirty page table in step with the buffers. */
  lemma ChangedTable(p: Pool, hash: BlockId -> int, i: nat, f: Field, v: Value, t: TxNum, lsn: LSN)
    requires PoolOk(p, hash) && TableMatches(p) && i < |p.bufs| && p.bufs[i].blk.Some?
    ensures TableMatches(Changed(p, i, f, v, t, lsn))
  {
    var q, b := Changed(p, i, f, v, t, lsn), p.bufs[i].blk.value;
    forall j: nat | j < |q.bufs| && Listable(q.bufs[j])
      ensures q.bufs[j].blk.value in q.dpt && q.dpt[q.bufs[j].blk.value] == q.bufs[j].recLSN
    {
      if j != i { OtherBlock(p, hash, i, j); }
    }
    forall c | c in q.dpt ensures SomeListable(q.bufs, c) {
      if c != b || c in p.dpt {
        assert SomeListable(p.bufs, c);
        var j: nat :| j < |p.bufs| && p.bufs[j].blk == Some(c) && Listable(p.bufs[j]);
        assert Listable(q.bufs[j]) && q.bufs[j].blk == Some(c);
      } else {
        assert Listable(q.bufs[i]) && q.bufs[i].blk == Some(c);
      }
    }
  }

  lemma ChangedBufs(p: Pool, hash: BlockId -> int, i: nat, f: Field, v: Value, t: TxNum, lsn: LSN)
    requires PoolOk(p, hash) && i < |p.bufs| && p.bufs[i].blk.Some? && t >= 0
    ensures PoolOk(Changed(p, i, f, v, t, lsn), hash)
  {
    var q := Changed(p, i, f, v, t, lsn);
    CountUpdate(p.bufs, i, q.bufs[i]);
    forall j | 0 <= j < |q.bufs| ensures BufOk(q.bufs[j], q.disk, q.forced) { BufAt(p, j); }
    forall j | 0 <= j < |q.bufs| && q.bufs[j].blk.Some?
      ensures hash(q.bufs[j].blk.value) in q.index && q.index[hash(q.bufs[j].blk.value)] == j
    {
      IndexHas(p, hash, j);
    }
  }

  /** A change shows in its own field of its own block and nowhere else. */
  lemma ChangedOk(p: Pool, hash: BlockId -> int, i: nat, f: Field, v: Value, t: TxNum, lsn: LSN)
    requires PoolOk(p, hash) && Injective(hash) && i < |p.bufs| && p.bufs[i].blk.Some? && t >= 0
    ensures var q, b := Changed(p, i, f, v, t, lsn), p.bufs[i].blk.value;
            && PoolOk(q, hash) && ModificationNoted(p, q, i, t, lsn)
            && Content(q, hash, b).Get(f) == v
            && (forall g | g != f :: Content(q, hash, b).Get(g) == Content(p, hash, b).Get(g))
            && forall c | c != b :: Content(q, hash, c) == Content(p, hash, c)
  {
    var q := Changed(p, i, f, v, t, lsn);
    ChangedBufs(p, hash, i, f, v, t, lsn);
    IndexHas(p, hash, i);
    forall b | b != p.bufs[i].blk.value ensures Content(q, hash, b) == Content(p, hash, b) {
      if hash(b) in p.index { IndexFinds(p, hash, b); }
    }
  }

  // ---------------------------------------------------------------- pinning

  /** Pin a block: in its buffer if it has one, else in the first unpinned buffer, which is written out and
      given to it; without such a buffer nothing happens. */
  function TryPin(p: Pool, hash: BlockId -> int, b: BlockId): (Pool, Option<nat>)
    requires forall j | 0 <= j < |p.order| :: p.order[j] < |p.bufs|
    requires forall i | 0 <= i < |p.bufs| && p.bufs[i].Modified() :: p.bufs[i].blk.Some?
    requires hash(b) in p.index ==> p.index[hash(b)] < |p.bufs|
  {
    if hash(b) in p.index then (Repinned(p, p.index[hash(b)]), Some(p.index[hash(b)]))
    else
      var k := Victim(p.bufs, p.order);
      if k == |p.order| then (p, None)
      else
        var i := p.order[k];
        (Assigned(Flushed(p.(order := MoveToBack(p.order, k)), i), hash, i, b), Some(i))
  }

  lemma TryPinAllowed(p: Pool, hash: BlockId -> int, b: BlockId)
    requires PoolOk(p, hash) && Injective(hash)
    ensures forall j | 0 <= j < |p.order| :: p.order[j] < |p.bufs|
    ensures forall i | 0 <= i < |p.bufs| && p.bufs[i].Modified() :: p.bufs[i].blk.Some?
    ensures hash(b) in p.index ==> p.index[hash(b)] < |p.bufs|
  {
    forall i | 0 <= i < |p.bufs| && p.bufs[i].Modified() ensures p.bufs[i].blk.Some? { BufAt(p, i); }
    if hash(b) in p.index { IndexFinds(p, hash, b); }
  }

  /** A pin of a resident block: one pin more, one buffer less available if it had none. */
  predicate Hit(p: Pool, q: Pool, i: nat)
    requires i < |p.bufs|
  {
    q == p.(bufs := p.bufs[i := p.bufs[i].(pins := p.bufs[i].pins + 1)],
            available := p.available - if p.bufs[i].pins == 0 then 1 else 0)
  }

  /** Buffer `i` is the first unpinned one in the order, and the last one afterwards. */
  ghost predicate TookFirst(p: Pool, q: Pool, i: nat) {
    exists k :: FirstUnpinned(p, i, k) && MovedLast(p.order, q.order, k)
  }

  predicate FirstUnpinned(p: Pool, i: nat, k: int) {
    && 0 <= k < |p.order| && p.order[k] == i && i < |p.bufs| && p.bufs[i].pins == 0
    && forall j | 0 <= j < k :: p.order[j] < |p.bufs| && p.bufs[p.order[j]].pins > 0
  }

  /** The buffer is written out as by a flush, then reads the new block; its pageLSN stays. */
  ghost predicate Replaced(p: Pool, q: Pool, i: nat, b: BlockId)
    requires i < |p.bufs|
  {
    var u := p.bufs[i];
    && TookFirst(p, q, i) && q.available == p.available - 1 && PageWritten(p, q, u)
    && q.bufs == p.bufs[i := Buf(ReadPage(q.disk, b), Some(b), 1, if u.Modified() then -1 else u.txnum, NO_LSN, u.pageLSN)]
  }

  /** What a pin does. */
  ghost predicate Pinning(p: Pool, q: Pool, hash: BlockId -> int, b: BlockId, r: Option<nat>) {
    && |q.bufs| == |p.bufs|
    && (r.None? <==> (forall i | 0 <= i < |p.bufs| :: p.bufs[i].pins > 0 && p.bufs[i].blk != Some(b)))
    && (r.None? ==> q == p)
    && (r.Some? ==>
          && r.value < |p.bufs|
          && (if p.bufs[r.value].blk == Some(b) then Hit(p, q, r.value) else Replaced(p, q, r.value, b))
          && q.bufs[r.value].blk == Some(b) && q.bufs[r.value].page == Content(p, hash, b)
          && forall i | 0 <= i < |p.bufs| ::
               && q.bufs[i].pins == p.bufs[i].pins + (if i == r.value then 1 else 0)
               && (p.bufs[i].Pinned() ==> q.bufs[i].blk == p.bufs[i].blk))
  }

  lemma HitPins(p: Pool, hash: BlockId -> int, b: BlockId)
    requires PoolOk(p, hash) && Injective(hash) && hash(b) in p.index
    ensures p.index[hash(b)] < |p.bufs|
    ensures var i := p.index[hash(b)];
            var q := Repinned(p, i);
            PoolOk(q, hash) && SameContents(p, q, hash) && Pinning(p, q, hash, b, Some(i))
    ensures TableMatches(p) ==> TableMatches(Repinned(p, p.index[hash(b)]))
  {
    IndexFinds(p, hash, b);
    var i := p.index[hash(b)];
    RepinOk(p, hash, i, p.bufs[i].pins + 1, Repinned(p, i).available);
    if TableMatches(p) { SameListable(p, Repinned(p, i)); }
  }

  /** The buffer at position `k` of the order after a miss: `p1` with the order changed, `m` with the page written. */
  predicate MissSteps(p: Pool, p1: Pool, m: Pool, q: Pool, hash: BlockId -> int, b: BlockId, k: nat) {
    && (forall j | 0 <= j < |p.order| :: p.order[j] < |p.bufs|)
    && k < |p.order| && k == Victim(p.bufs, p.order) && p1 == p.(order := MoveToBack(p.order, k))
    && (p.bufs[p.order[k]].Modified() ==> p.bufs[p.order[k]].blk.Some?)
    && m == Flushed(p1, p.order[k]) && q == Assigned(m, hash, p.order[k], b)
  }

  lemma MissKeeps(p: Pool, p1: Pool, m: Pool, q: Pool, hash: BlockId -> int, b: BlockId, k: nat)
    requires PoolOk(p, hash) && Injective(hash) && hash(b) !in p.index && MissSteps(p, p1, m, q, hash, b, k)
    ensures PoolOk(q, hash) && SameContents(p, q, hash) && WrittenOut(p1, m, p.order[k])
  {
    ReorderedOk(p, hash, k);
    FlushedOk(p1, hash, p.order[k]);
    FlushedWrites(p1, p.order[k]);
    AssignedOk(m, hash, p.order[k], b);
    SameThrough(p, p1, m, q, hash);
  }

  lemma MissReplaces(p: Pool, p1: Pool, m: Pool, q: Pool, hash: BlockId -> int, b: BlockId, k: nat)
    requires MissSteps(p, p1, m, q, hash, b, k) && WrittenOut(p1, m, p.order[k])
    requires BufOk(p.bufs[p.order[k]], p.disk, p.forced)
    ensures Replaced(p, q, p.order[k], b)
  {
    var i := p.order[k];
    var u := p.bufs[i];
    MovesLast(p.order, k);
    assert FirstUnpinned(p, i, k) && MovedLast(p.order, q.order, k);
    var w := q.bufs[i];
    assert w == Buf(ReadPage(q.disk, b), Some(b), 1, if u.Modified() then -1 else u.txnum, NO_LSN, u.pageLSN);
    assert q.bufs == p.bufs[i := w];
  }

  lemma MissPins(p: Pool, p1: Pool, m: Pool, q: Pool, hash: BlockId -> int, b: BlockId, k: nat)
    requires PoolOk(p, hash) && Injective(hash) && hash(b) !in p.index && MissSteps(p, p1, m, q, hash, b, k)
    ensures PoolOk(q, hash) && SameContents(p, q, hash) && Pinning(p, q, hash, b, Some(p.order[k]))
  {
    var i := p.order[k];
    MissKeeps(p, p1, m, q, hash, b, k);
    BufAt(p, i);
    MissReplaces(p, p1, m, q, hash, b, k);
    NotInPool(p, hash, b);
    IndexHas(q, hash, i);
    assert Content(q, hash, b) == q.bufs[i].page;
  }

  lemma MissTable(p: Pool, p1: Pool, m: Pool, q: Pool, hash: BlockId -> int, b: BlockId, k: nat)
    requires PoolOk(p, hash) && Injective(hash) && hash(b) !in p.index && MissSteps(p, p1, m, q, hash, b, k)
    requires TableMatches(p)
    ensures TableMatches(q)
  {
    var i := p.order[k];
    ReorderedOk(p, hash, k);
    SameListable(p, p1);
    FlushedTable(p1, hash, i);
    BufAt(p, i);
    AssignedTable(m, hash, i, b);
  }

  lemma AssignedTable(p: Pool, hash: BlockId -> int, i: nat, b: BlockId)
    requires i < |p.bufs| && p.bufs[i].recLSN == NO_LSN && TableMatches(p)
    ensures TableMatches(Assigned(p, hash, i, b))
  {
    SameListable(p, Assigned(p, hash, i, b));
  }

  /** Pinning changes no content and keeps the dirty page table in step with the buffers.  The buffer it returns
      holds the block with its content and one pin more: the resident one, else the first unpinned one of the
      order; all other pins and the blocks of pinned buffers are as before.  It fails only when every buffer is
      pinned and none has the block. */
  lemma TryPinOk(p: Pool, hash: BlockId -> int, b: BlockId)
    requires PoolOk(p, hash) && Injective(hash)
    ensures forall j | 0 <= j < |p.order| :: p.order[j] < |p.bufs|
    ensures forall i | 0 <= i < |p.bufs| && p.bufs[i].Modified() :: p.bufs[i].blk.Some?
    ensures hash(b) in p.index ==> p.index[hash(b)] < |p.bufs|
    ensures var (q, r) := TryPin(p, hash, b);
            && PoolOk(q, hash) && SameContents(p, q, hash) && Pinning(p, q, hash, b, r)
            && (TableMatches(p) ==> TableMatches(q))
  {
    TryPinAllowed(p, hash, b);
    var (q, r) := TryPin(p, hash, b);
    if hash(b) in p.index {
      HitPins(p, hash, b);
    } else {
      var k := Victim(p.bufs, p.order);
      if k == |p.order| {
        NoVictimAllPinned(p, hash);
        NotInPool(p, hash, b);
      } else {
        var p1 := p.(order := MoveToBack(p.order, k));
        MissPins(p, p1, Flushed(p1, p.order[k]), q, hash, b, k);
        if TableMatches(p) { MissTable(p, p1, Flushed(p1, p.order[k]), q, hash, b, k); }
      }
    }
  }

  /** A block that the index does not know is in no buffer. */
  lemma NotInPool(p: Pool, hash: BlockId -> int, b: BlockId)
    requires IndexOk(p.bufs, p.index, hash) && hash(b) !in p.index
    ensures forall i: nat | i < |p.bufs| :: p.bufs[i].blk != Some(b)
  {
    forall i: nat | i < |p.bufs| && p.bufs[i].blk.Some? ensures p.bufs[i].blk.value != b { IndexHas(p, hash, i); }
  }

  lemma SameThrough(p: Pool, p1: Pool, p2: Pool, q: Pool, hash: BlockId -> int)
    requires p1.bufs == p.bufs && p1.index == p.index && p1.disk == p.disk
    requires SameContents(p1, p2, hash) && SameContents(p2, q, hash)
    ensures SameContents(p, q, hash)
  {
    forall b ensures Content(q, hash, b) == Content(p, hash, b) {
      assert Content(p1, hash, b) == Content(p, hash, b);
      assert Content(p2, hash, b) == Content(p1, hash, b);
    }
  }

  // ---------------------------------------------------------------- flushing many buffers

  /** Flush the listed buffers one after the other. */
  function FlushedList(p: Pool, list: seq<nat>): Pool
    requires forall j | 0 <= j < |list| :: list[j] < |p.bufs|
    requires forall i | 0 <= i < |p.bufs| && p.bufs[i].Modified() :: p.bufs[i].blk.Some?
  {
    if list == [] then p
    else
      var q := FlushedList(p, list[..|list| - 1]);
      var i := list[|list| - 1];
      if i < |q.bufs| && (q.bufs[i].Modified() ==> q.bufs[i].blk.Some?) then Flushed(q, i) else q
  }

  /** A modified buffer of the list holds the block. */
  ghost predicate InList(bufs: seq<Buf>, list: seq<nat>, b: BlockId) {
    exists i: nat :: i in list && i < |bufs| && bufs[i].Modified() && bufs[i].blk == Some(b)
  }

  /** The listed buffers were written out and are clean, and no other buffer changed; exactly the blocks of the
      modified ones left the dirty page table, and no other block changed on disk. */
  ghost predicate OnlyFlushed(p: Pool, q: Pool, list: seq<nat>) {
    && q.order == p.order && q.index == p.index && q.available == p.available && |q.bufs| == |p.bufs|
    && (forall i: nat | i < |p.bufs| :: q.bufs[i] == if i in list && p.bufs[i].Modified() then Clean(p.bufs[i]) else p.bufs[i])
    && (forall b :: b in q.dpt <==> b in p.dpt && !InList(p.bufs, list, b))
    && (forall b | b in q.dpt :: q.dpt[b] == p.dpt[b])
    && (forall b | !InList(p.bufs, list, b) :: ReadPage(q.disk, b) == ReadPage(p.disk, b))
  }

  /** Flushing buffers changes no content, no pin and no assignment; exactly the listed ones end up clean. */
  lemma {:induction false} FlushedListOk(p: Pool, hash: BlockId -> int, list: seq<nat>)
    requires PoolOk(p, hash) && Injective(hash) && forall j | 0 <= j < |list| :: list[j] < |p.bufs|
    ensures forall i | 0 <= i < |p.bufs| && p.bufs[i].Modified() :: p.bufs[i].blk.Some?
    ensures var q := FlushedList(p, list);
            && PoolOk(q, hash) && SameContents(p, q, hash) && OnlyFlushed(p, q, list)
            && (TableMatches(p) ==> TableMatches(q))
  {
    TryPinAllowed(p, hash, BlockId([], 0));
    if list != [] {
      var n := |list| - 1;
      FlushedListOk(p, hash, list[..n]);
      OneMoreFlushed(p, FlushedList(p, list[..n]), hash, list[..n], list[n]);
      assert list == list[..n] + [list[n]];
    } else {
      assert OnlyFlushed(p, p, list);
    }
  }

  lemma OneMoreFlushed(p: Pool, q: Pool, hash: BlockId -> int, list: seq<nat>, i: nat)
    requires OnlyFlushed(p, q, list) && SameContents(p, q, hash) && i < |p.bufs|
    requires PoolOk(q, hash) && Injective(hash)
    ensures q.bufs[i].Modified() ==> q.bufs[i].blk.Some?
    ensures var r := Flushed(q, i);
            && PoolOk(r, hash) && OnlyFlushed(p, r, list + [i]) && SameContents(p, r, hash)
            && (TableMatches(q) ==> TableMatches(r))
  {
    FlushedOk(q, hash, i);
    FlushedWrites(q, i);
    SameThrough(p, p, q, Flushed(q, i), hash);
    OneMoreWritten(p, q, Flushed(q, i), list, i);
    if TableMatches(q) { FlushedTable(q, hash, i); }
  }

  lemma OneMoreWritten(p: Pool, q: Pool, r: Pool, list: seq<nat>, i: nat)
    requires OnlyFlushed(p, q, list) && i < |p.bufs| && WrittenOut(q, r, i)
    requires q.bufs[i].Modified() ==> q.bufs[i].blk.Some?
    ensures OnlyFlushed(p, r, list + [i])
  {
    var u := q.bufs[i];
    forall b ensures InList(p.bufs, list + [i], b) <==> InList(p.bufs, list, b) || (u.Modified() && u.blk == Some(b)) {
      if InList(p.bufs, list, b) {
        var j: nat :| j in list && j < |p.bufs| && p.bufs[j].Modified() && p.bufs[j].blk == Some(b);
        assert j in list + [i];
      }
      if u.Modified() && u.blk == Some(b) { assert i in list + [i] && p.bufs[i] == u; }
    }
  }

  /** Unpinned, with logged changes not on disk. */
  predicate Cleanable(u: Buf) { u.blk.Some? && u.pins == 0 && u.txnum >= 0 && u.recLSN > 0 }

  /** The buffers the page cleaner may write out, among the first `n`. */
  function Candidates(bufs: seq<Buf>, n: nat): (c: seq<nat>)
    requires n <= |bufs|
    ensures forall j | 0 <= j < |c| :: c[j] < n && Cleanable(bufs[c[j]])
    ensures forall i: nat | i < n && Cleanable(bufs[i]) :: i in c
    ensures forall i, j | 0 <= i < j < |c| :: c[i] < c[j]
  {
    if n == 0 then []
    else if !bufs[n - 1].Pinned() && bufs[n - 1].IsDirty() then Candidates(bufs, n - 1) + [n - 1]
    else Candidates(bufs, n - 1)
  }

  /** The same numbers, each once. */
  ghost predicate Rearranges(s: seq<nat>, list: seq<nat>) {
    |s| == |list| && (forall x: nat :: x in s <==> x in list) && forall i, j | 0 <= i < j < |s| :: s[i] != s[j]
  }

  /** Oldest change first. */
  predicate ByRecLSN(bufs: seq<Buf>, list: seq<nat>) {
    && (forall j | 0 <= j < |list| :: list[j] < |bufs|)
    && forall i, j | 0 <= i < j < |list| :: bufs[list[i]].recLSN <= bufs[list[j]].recLSN
  }

  /** The buffers of one transaction, among the first `n`. */
  function ChangedBy(bufs: seq<Buf>, t: TxNum, n: nat): (c: seq<nat>)
    requires n <= |bufs|
    ensures forall j | 0 <= j < |c| :: c[j] < n
    ensures forall i: nat | i < n :: i in c <==> bufs[i].txnum == t
  {
    if n == 0 then []
    else if bufs[n - 1].txnum == t then ChangedBy(bufs, t, n - 1) + [n - 1]
    else ChangedBy(bufs, t, n - 1)
  }
}

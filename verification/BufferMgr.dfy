/** The buffer manager and its replacement list. */
module BufferManager {
  import opened Storage
  import opened LogModel
  import opened RecoveryObjects
  import opened BufferPool

  const NIL := -1

  /** A doubly linked list of all buffers.  Item `i` holds buffer `i`; links are item numbers. */
  class LRUList {
    const prev: array<int>
    const next: array<int>
    var head: int
    var tail: int
    /** The items from head to tail. */
    ghost var order: seq<nat>

    ghost function Size(): nat { prev.Length }

    ghost predicate Valid()
      reads this, prev, next
    {
      && prev != next && next.Length == Size() && Permutation(order, Size())
      && head == (if Size() == 0 then NIL else order[0])
      && tail == (if Size() == 0 then NIL else order[Size() - 1])
      && Links(order, prev[..], next[..])
    }

    constructor (n: nat)
      ensures Valid() && Size() == n && fresh(prev) && fresh(next)
      ensures order == seq(n, i => i)
    {
      prev := new int[n](i requires 0 <= i < n => if i == 0 then NIL else i - 1);
      next := new int[n](i requires 0 <= i < n => if i == n - 1 then NIL else i + 1);
      head := if n == 0 then NIL else 0;
      tail := n - 1;
      order := seq(n, i => i);
    }

    /** The first unpinned buffer from the head on becomes the victim and moves to the tail. */
    method ChooseVictimBuffer(bufs: array<Buf>) returns (victim: int)
      requires Valid() && bufs.Length == Size()
      modifies this, prev, next
      ensures Valid()
      ensures var k := Victim(bufs[..], old(order));
              if k == Size() then victim == NIL && order == old(order)
              else victim == old(order)[k] && order == MoveToBack(old(order), k)
    {
      var item := head;
      ghost var k: nat := 0;
      while item != NIL
        invariant Valid() && order == old(order) && k <= Size()
        invariant item == if k == Size() then NIL else order[k]
        invariant forall j | 0 <= j < k :: bufs[order[j]].Pinned()
        decreases Size() - k
      {
        if !bufs[item].Pinned() {
          VictimIs(bufs[..], order, k);
          MoveToTail(item, k);
          return item;
        }
        assert LinkedAt(order, prev[..], next[..], k);
        item := next[item];
        k := k + 1;
      }
      VictimIs(bufs[..], order, k);
      victim := NIL;
    }

    /** Take an item out of its place and hang it on the tail. */
    method MoveToTail(item: nat, ghost k: nat)
      requires Valid() && k < Size() && order[k] == item
      modifies this, prev, next
      ensures Valid() && order == MoveToBack(old(order), k) && MovedLast(old(order), order, k)
    {
      ghost var was, ps, ns := order, prev[..], next[..];
      MovesLast(was, k);
      var p, n := prev[item], next[item];
      assert LinkedAt(was, ps, ns, k);
      EndsApart(was, Size(), k);
      order := MoveToBack(was, k);
      MoveToBackPermutes(was, Size(), k);
      if item == tail { return; }
      if item == head {
        prev[n] := NIL;
        head := n;
      } else {
        next[p], prev[n] := n, p;
      }
      next[tail], prev[item] := item, tail;
      next[item] := NIL;
      tail := item;
      MovedLinks(was, k, ps, ns);
      assert prev[..] == MovedPrev(was, k, ps);
      assert next[..] == MovedNext(was, k, ns);
    }
  }

  lemma VictimIs(bufs: seq<Buf>, order: seq<nat>, k: nat)
    requires (forall j | 0 <= j < |order| :: order[j] < |bufs|) && k <= |order|
    requires forall j | 0 <= j < k :: bufs[order[j]].Pinned()
    requires k < |order| ==> !bufs[order[k]].Pinned()
    ensures Victim(bufs, order) == k
  {
  }

  class BufferMgr {
    const hash: BlockId -> int
    const bufs: array<Buf>
    const lru: LRUList
    var index: map<int, nat>
    var numAvailable: int
    var disk: Disk
    var dpt: Dpt
    var forced: LSN

    ghost function View(): Pool
      reads this, bufs, lru
    {
      Pool(bufs[..], lru.order, index, numAvailable, disk, dpt, forced)
    }

    ghost predicate Valid()
      reads this, bufs, lru, lru.prev, lru.next
    {
      lru.Valid() && lru.Size() == bufs.Length && Injective(hash) && PoolOk(View(), hash)
    }

    constructor (n: nat, hash: BlockId -> int, disk: Disk, forced: LSN)
      requires Injective(hash) && DiskForced(disk, forced)
      ensures Valid() && this.hash == hash && bufs.Length == n && numAvailable == n && this.disk == disk
      ensures forall b :: Content(View(), hash, b) == ReadPage(disk, b)
      ensures dpt == map[] && TableMatches(View())
      ensures fresh(bufs) && fresh(lru) && fresh(lru.prev) && fresh(lru.next)
    {
      this.hash := hash;
      bufs := new Buf[n](_ => EMPTY_BUF);
      lru := new LRUList(n);
      index, numAvailable, this.disk, dpt, this.forced := map[], n, disk, map[], forced;
      new;
      AllFree(bufs[..]);
    }

    /** Buffer.flush: the log up to the buffer's pageLSN, the page, and the dirty page table. */
    method FlushBuffer(i: nat)
      requires i < bufs.Length && (bufs[i].Modified() ==> bufs[i].blk.Some?)
      modifies this`disk, this`dpt, this`forced, bufs
      ensures View() == Flushed(old(View()), i)
    {
      var f := bufs[i];
      if f.Modified() {
        forced := Max(forced, f.pageLSN);
        disk := disk[f.blk.value := f.page];
        bufs[i] := f.(txnum := -1, recLSN := NO_LSN);
        dpt := dpt - {f.blk.value};
        assert bufs[..] == old(bufs[..])[i := bufs[i]];
      }
    }

    /** Pin a block: in the buffer that has it, else in the first unpinned buffer.  Without one the caller
        waits, and gives up after the deadline. */
    method TryToPin(b: BlockId) returns (r: Option<nat>)
      requires Valid()
      modifies this, bufs, lru, lru.prev, lru.next
      ensures Valid() && Pinning(old(View()), View(), hash, b, r)
      ensures SameContents(old(View()), View(), hash)
      ensures old(TableMatches(View())) ==> TableMatches(View())
    {
      ghost var p := View();
      TryPinAllowed(p, hash, b);
      r := FindOrReplace(b);
      PinIsPinning(p, View(), hash, b, r);
    }

    method FindOrReplace(b: BlockId) returns (r: Option<nat>)
      requires lru.Valid() && lru.Size() == bufs.Length && (hash(b) in index ==> index[hash(b)] < bufs.Length)
      requires forall i | 0 <= i < bufs.Length && bufs[i].Modified() :: bufs[i].blk.Some?
      modifies this, bufs, lru, lru.prev, lru.next
      ensures lru.Valid() && forall i | 0 <= i < bufs.Length && old(bufs[i]).Modified() :: old(bufs[i]).blk.Some?
      ensures (View(), r) == TryPin(old(View()), hash, b)
    {
      var h := hash(b);
      if h in index {
        Repin(index[h]);
        r := Some(index[h]);
      } else {
        var victim := lru.ChooseVictimBuffer(bufs);
        if victim == NIL { return None; }
        FlushBuffer(victim);
        AssignTo(victim, b);
        r := Some(victim);
      }
    }

    method Repin(i: nat)
      requires lru.Valid() && i < bufs.Length
      modifies this`numAvailable, bufs
      ensures View() == Repinned(old(View()), i)
    {
      var f := bufs[i];
      if !f.Pinned() { numAvailable := numAvailable - 1; }
      bufs[i] := f.(pins := f.pins + 1);
      assert bufs[..] == old(bufs[..])[i := bufs[i]];
    }

    /** Buffer.assignToBlock once the old page is written, and the index entry that goes with it. */
    method AssignTo(i: nat, b: BlockId)
      requires i < bufs.Length
      modifies this`index, this`numAvailable, bufs
      ensures View() == Assigned(old(View()), hash, i, b)
    {
      var f := bufs[i];
      bufs[i] := f.(page := ReadPage(disk, b), blk := Some(b), pins := 1);
      if f.blk.Some? { index := index - {hash(f.blk.value)}; }
      index := index[hash(b) := i];
      numAvailable := numAvailable - 1;
      assert bufs[..] == old(bufs[..])[i := bufs[i]];
    }

    method Unpin(i: nat)
      requires Valid() && i < bufs.Length && bufs[i].Pinned()
      modifies this`numAvailable, bufs
      ensures Valid() && View() == Unpinned(old(View()), i) && SameContents(old(View()), View(), hash)
      ensures bufs[i] == old(bufs[i]).(pins := old(bufs[i]).pins - 1)
      ensures forall j | 0 <= j < bufs.Length && j != i :: bufs[j] == old(bufs[j])
      ensures numAvailable == old(numAvailable) + if old(bufs[i]).pins == 1 then 1 else 0
      ensures old(TableMatches(View())) ==> TableMatches(View())
    {
      UnpinnedOk(View(), hash, i);
      var f := bufs[i];
      bufs[i] := f.(pins := f.pins - 1);
      if f.pins == 1 { numAvailable := numAvailable + 1; }
      assert bufs[..] == old(bufs[..])[i := bufs[i]];
    }

    /** Change a field of a buffered page and record the modification. */
    method SetVal(i: nat, f: Field, v: Value, t: TxNum, lsn: LSN)
      requires Valid() && i < bufs.Length && bufs[i].blk.Some? && t >= 0
      modifies this`dpt, bufs
      ensures Valid() && View() == Changed(old(View()), i, f, v, t, lsn)
      ensures var b := old(bufs[i]).blk.value;
              && Content(View(), hash, b).Get(f) == v
              && (forall g | g != f :: Content(View(), hash, b).Get(g) == Content(old(View()), hash, b).Get(g))
              && forall c | c != b :: Content(View(), hash, c) == Content(old(View()), hash, c)
      ensures ModificationNoted(old(View()), View(), i, t, lsn)
      ensures old(TableMatches(View())) ==> TableMatches(View())
    {
      ChangedOk(View(), hash, i, f, v, t, lsn);
      if TableMatches(View()) { ChangedTable(View(), hash, i, f, v, t, lsn); }
      var u := bufs[i];
      if lsn <= 0 {
        bufs[i] := u.(page := PageImage(u.page.lsn, u.page.fields[f := v]), txnum := t);
      } else {
        var rec := u.recLSN;
        if rec == NO_LSN {
          rec := lsn;
          if u.blk.value !in dpt { dpt := dpt[u.blk.value := lsn]; }
        }
        bufs[i] := u.(page := u.page.Put(f, v, lsn), txnum := t, pageLSN := lsn, recLSN := rec);
      }
      assert bufs[..] == old(bufs[..])[i := bufs[i]];
    }

    // -------------------------------------------------------------- page cleaning

    /** Write out a page exactly if it is in a buffer, dirty and not pinned.  Its buffer is clean afterwards; no
        other buffer and no other page on disk changes. */
    method FlushPage(b: BlockId) returns (done: bool)
      requires Valid()
      modifies this`disk, this`dpt, this`forced, bufs
      ensures Valid() && SameContents(old(View()), View(), hash)
      ensures done <==> exists i :: 0 <= i < bufs.Length && Flushable(old(bufs[i]), b)
      ensures done ==> ReadPage(disk, b) == Content(View(), hash, b) && dpt == old(dpt) - {b}
      ensures forall i | 0 <= i < bufs.Length ::
                bufs[i] == if done && old(bufs[i]).blk == Some(b) then Clean(old(bufs[i])) else old(bufs[i])
      ensures old(TableMatches(View())) ==> TableMatches(View())
      ensures forall c | c != b :: ReadPage(disk, c) == ReadPage(old(disk), c)
      ensures !done ==> View() == old(View())
    {
      var h := hash(b);
      if h !in index {
        NotInPool(View(), hash, b);
        return false;
      }
      IndexFinds(View(), hash, b);
      var i := index[h];
      OnlyBuffer(View(), hash, b, i);
      if bufs[i].Pinned() || !bufs[i].IsDirty() { return false; }
      FlushedOk(View(), hash, i);
      if TableMatches(View()) { FlushedTable(View(), hash, i); }
      assert Flushable(bufs[i], b);
      FlushBuffer(i);
      done := true;
    }

    /** One more buffer after those in `list`. */
    method FlushNext(ghost p: Pool, ghost list: seq<nat>, i: nat)
      requires PoolOk(p, hash) && Injective(hash) && i < |p.bufs| && forall j | 0 <= j < |list| :: list[j] < |p.bufs|
      requires forall i | 0 <= i < |p.bufs| && p.bufs[i].Modified() :: p.bufs[i].blk.Some?
      requires View() == FlushedList(p, list)
      modifies this`disk, this`dpt, this`forced, bufs
      ensures View() == FlushedList(p, list + [i])
    {
      FlushedListOk(p, hash, list);
      FlushedOk(View(), hash, i);
      FlushedSnoc(p, list, i);
      FlushBuffer(i);
    }

    /** Flush buffers in the order given. */
    method FlushListed(list: seq<nat>)
      requires Valid() && forall j | 0 <= j < |list| :: list[j] < bufs.Length
      modifies this`disk, this`dpt, this`forced, bufs
      ensures Valid() && SameContents(old(View()), View(), hash) && OnlyFlushed(old(View()), View(), list)
      ensures forall i | 0 <= i < bufs.Length && old(bufs[i]).Modified() :: old(bufs[i]).blk.Some?
      ensures View() == FlushedList(old(View()), list)
      ensures old(TableMatches(View())) ==> TableMatches(View())
    {
      ghost var p := View();
      FlushedListOk(p, hash, list);
      FlushLoop(list, p);
    }

    method FlushLoop(list: seq<nat>, ghost p: Pool)
      requires PoolOk(p, hash) && Injective(hash) && View() == p && forall j | 0 <= j < |list| :: list[j] < |p.bufs|
      requires forall i | 0 <= i < |p.bufs| && p.bufs[i].Modified() :: p.bufs[i].blk.Some?
      modifies this`disk, this`dpt, this`forced, bufs
      ensures View() == FlushedList(p, list)
    {
      for n := 0 to |list|
        invariant View() == FlushedList(p, list[..n])
      {
        assert list[..n + 1] == list[..n] + [list[n]];
        FlushNext(p, list[..n], list[n]);
      }
      assert list[..|list|] == list;
    }

    /** Write out everything one transaction changed last. */
    method FlushAll(t: TxNum)
      requires Valid()
      modifies this`disk, this`dpt, this`forced, bufs
      ensures Valid() && SameContents(old(View()), View(), hash)
      ensures forall i | 0 <= i < bufs.Length && old(bufs[i]).Modified() :: old(bufs[i]).blk.Some?
      ensures OnlyFlushed(old(View()), View(), ChangedBy(old(bufs[..]), t, bufs.Length))
      ensures View() == FlushedList(old(View()), ChangedBy(old(bufs[..]), t, bufs.Length))
      ensures old(TableMatches(View())) ==> TableMatches(View())
    {
      FlushListed(ChangedBy(bufs[..], t, bufs.Length));
    }

    /** Sort candidates by their first change, oldest first. */
    method SortByRecLSN(list: seq<nat>) returns (sorted: seq<nat>)
      requires forall j | 0 <= j < |list| :: list[j] < bufs.Length
      requires forall i, j | 0 <= i < j < |list| :: list[i] != list[j]
      ensures Rearranges(sorted, list) && ByRecLSN(bufs[..], sorted)
    {
      sorted := [];
      for n := 0 to |list|
        invariant Rearranges(sorted, list[..n]) && ByRecLSN(bufs[..], sorted)
      {
        var x := list[n];
        var k := |sorted|;
        while k > 0 && bufs[sorted[k - 1]].recLSN > bufs[x].recLSN
          invariant 0 <= k <= |sorted|
          invariant forall j | k <= j < |sorted| :: bufs[x].recLSN <= bufs[sorted[j]].recLSN
        {
          k := k - 1;
        }
        InsertSorted(bufs[..], sorted, k, x);
        InsertRearranges(sorted, list, n, k);
        sorted := Inserted(sorted, k, x);
      }
      assert list[..|list|] == list;
    }

    /** The unpinned dirty buffers to write out, at most `limit`, those with the oldest changes. */
    method ChooseOldest(limit: int) returns (chosen: seq<nat>)
      ensures Chosen(bufs[..], limit, chosen)
    {
      if limit <= 0 { return []; }
      var candidates := Candidates(bufs[..], bufs.Length);
      var sorted := SortByRecLSN(candidates);
      var n := if limit < |sorted| then limit else |sorted|;
      OldestChosen(bufs[..], candidates, sorted, n);
      chosen := sorted[..n];
    }

    /** Write out at most `limit` unpinned dirty pages, those with the oldest changes first. */
    method FlushDirtyPages(limit: int) returns (flushed: nat, ghost chosen: seq<nat>)
      requires Valid()
      modifies this`disk, this`dpt, this`forced, bufs
      ensures Valid() && SameContents(old(View()), View(), hash)
      ensures forall i | 0 <= i < bufs.Length && old(bufs[i]).Modified() :: old(bufs[i]).blk.Some?
      ensures Chosen(old(bufs[..]), limit, chosen) && flushed == |chosen|
      ensures OnlyFlushed(old(View()), View(), chosen) && View() == FlushedList(old(View()), chosen)
      ensures old(TableMatches(View())) ==> TableMatches(View())
    {
      var list := ChooseOldest(limit);
      FlushListed(list);
      flushed, chosen := |list|, list;
    }
  }

  predicate Flushable(u: Buf, b: BlockId) { u.blk == Some(b) && u.pins == 0 && u.txnum >= 0 && u.recLSN > 0 }

  lemma OnlyBuffer(p: Pool, hash: BlockId -> int, b: BlockId, i: nat)
    requires IndexOk(p.bufs, p.index, hash) && i < |p.bufs| && p.bufs[i].blk == Some(b)
    ensures forall j: nat | j < |p.bufs| && j != i :: p.bufs[j].blk != Some(b)
  {
    forall j: nat | j < |p.bufs| && j != i && p.bufs[j].blk.Some? ensures p.bufs[j].blk != Some(b) {
      OtherBlock(p, hash, i, j);
    }
  }

  /** One more buffer flushed. */
  lemma FlushedSnoc(p: Pool, list: seq<nat>, i: nat)
    requires (forall j | 0 <= j < |list| :: list[j] < |p.bufs|) && i < |p.bufs|
    requires forall i | 0 <= i < |p.bufs| && p.bufs[i].Modified() :: p.bufs[i].blk.Some?
    requires var q := FlushedList(p, list); i < |q.bufs| && (q.bufs[i].Modified() ==> q.bufs[i].blk.Some?)
    ensures FlushedList(p, list + [i]) == Flushed(FlushedList(p, list), i)
  {
    assert (list + [i])[..|list|] == list;
  }

  lemma PinIsPinning(p: Pool, q: Pool, hash: BlockId -> int, b: BlockId, r: Option<nat>)
    requires PoolOk(p, hash) && Injective(hash)
    requires forall j | 0 <= j < |p.order| :: p.order[j] < |p.bufs|
    requires forall i | 0 <= i < |p.bufs| && p.bufs[i].Modified() :: p.bufs[i].blk.Some?
    requires hash(b) in p.index ==> p.index[hash(b)] < |p.bufs|
    requires (q, r) == TryPin(p, hash, b)
    ensures PoolOk(q, hash) && Pinning(p, q, hash, b, r) && SameContents(p, q, hash)
    ensures TableMatches(p) ==> TableMatches(q)
  {
    TryPinOk(p, hash, b);
  }

  /** As many candidates as the limit and the candidates allow; no candidate left out has an older change
      than a chosen one. */
  ghost predicate Chosen(bufs: seq<Buf>, limit: int, chosen: seq<nat>) {
    var c := Candidates(bufs, |bufs|);
    && |chosen| == (if limit <= 0 then 0 else if limit < |c| then limit else |c|)
    && (forall j | 0 <= j < |chosen| :: chosen[j] in c && chosen[j] < |bufs|)
    && (forall i, j | 0 <= i < |chosen| && 0 <= j < |c| && c[j] !in chosen ::
          bufs[chosen[i]].recLSN <= bufs[c[j]].recLSN)
    && (forall i, j | 0 <= i < j < |chosen| :: chosen[i] != chosen[j])
  }

  function Inserted(sorted: seq<nat>, k: nat, x: nat): (t: seq<nat>)
    requires k <= |sorted|
    ensures |t| == |sorted| + 1
    ensures forall j | 0 <= j < |t| :: t[j] == if j < k then sorted[j] else if j == k then x else sorted[j - 1]
  {
    sorted[..k] + [x] + sorted[k..]
  }

  lemma InsertSorted(bufs: seq<Buf>, sorted: seq<nat>, k: nat, x: nat)
    requires ByRecLSN(bufs, sorted) && k <= |sorted| && x < |bufs|
    requires k > 0 ==> bufs[sorted[k - 1]].recLSN <= bufs[x].recLSN
    requires forall j | k <= j < |sorted| :: bufs[x].recLSN <= bufs[sorted[j]].recLSN
    ensures ByRecLSN(bufs, Inserted(sorted, k, x))
  {
    var t := Inserted(sorted, k, x);
    forall i, j | 0 <= i < j < |t| ensures bufs[t[i]].recLSN <= bufs[t[j]].recLSN {
      if j == k && i < k - 1 { assert bufs[sorted[i]].recLSN <= bufs[sorted[k - 1]].recLSN; }
    }
  }

  lemma InsertRearranges(sorted: seq<nat>, list: seq<nat>, n: nat, k: nat)
    requires n < |list| && Rearranges(sorted, list[..n]) && k <= |sorted|
    requires forall i, j | 0 <= i < j < |list| :: list[i] != list[j]
    ensures Rearranges(Inserted(sorted, k, list[n]), list[..n + 1])
  {
    var t := Inserted(sorted, k, list[n]);
    assert list[..n + 1] == list[..n] + [list[n]];
    assert list[n] !in list[..n];
    forall x: nat ensures x in t <==> x in list[..n + 1] {
      if x in sorted {
        var j :| 0 <= j < |sorted| && sorted[j] == x;
        assert t[if j < k then j else j + 1] == x;
      }
      if x == list[n] { assert t[k] == x; }
    }
  }

  lemma OldestChosen(bufs: seq<Buf>, candidates: seq<nat>, sorted: seq<nat>, n: nat)
    requires Rearranges(sorted, candidates) && ByRecLSN(bufs, sorted) && n <= |sorted|
    requires forall j | 0 <= j < |candidates| :: candidates[j] < |bufs|
    ensures forall j | 0 <= j < n :: sorted[j] in candidates
    ensures forall i, j | 0 <= i < n && 0 <= j < |candidates| && candidates[j] !in sorted[..n] ::
              bufs[sorted[i]].recLSN <= bufs[candidates[j]].recLSN
  {
    forall j | 0 <= j < n ensures sorted[j] in candidates {
      assert sorted[j] in sorted;
    }
    forall i, j | 0 <= i < n && 0 <= j < |candidates| && candidates[j] !in sorted[..n]
      ensures bufs[sorted[i]].recLSN <= bufs[candidates[j]].recLSN
    {
      assert candidates[j] in sorted;
      var k :| 0 <= k < |sorted| && sorted[k] == candidates[j];
      assert sorted == sorted[..n] + sorted[n..];
    }
  }

  lemma {:induction false} AllFree(bufs: seq<Buf>)
    requires forall i | 0 <= i < |bufs| :: !bufs[i].Pinned()
    ensures CountUnpinned(bufs) == |bufs|
  {
    if bufs != [] { AllFree(bufs[..|bufs| - 1]); }
  }

  /** Item `order[k]` is linked to its neighbours in the order. */
  predicate LinkedAt(order: seq<nat>, prev: seq<int>, next: seq<int>, k: int)
    requires |order| == |prev| == |next| && 0 <= k < |order| && order[k] < |order|
  {
    && prev[order[k]] == (if k == 0 then NIL else order[k - 1])
    && next[order[k]] == (if k == |order| - 1 then NIL else order[k + 1])
  }

  predicate Links(order: seq<nat>, prev: seq<int>, next: seq<int>)
    requires |order| == |prev| == |next| && Permutation(order, |order|)
  {
    forall k :: 0 <= k < |order| ==> LinkedAt(order, prev, next, k)
  }

  /** The links after item `order[k]`, not the last, went to the tail. */
  function MovedPrev(order: seq<nat>, k: nat, prev: seq<int>): seq<int>
    requires |order| == |prev| && Permutation(order, |order|) && k < |order| - 1
  {
    prev[order[k + 1] := if k == 0 then NIL else order[k - 1]][order[k] := order[|order| - 1]]
  }

  function MovedNext(order: seq<nat>, k: nat, next: seq<int>): seq<int>
    requires |order| == |next| && Permutation(order, |order|) && k < |order| - 1
  {
    var n := if k == 0 then next else next[order[k - 1] := order[k + 1]];
    n[order[|order| - 1] := order[k]][order[k] := NIL]
  }

  lemma Differ(order: seq<nat>, i: nat, j: nat)
    requires Permutation(order, |order|) && i < |order| && j < |order| && i != j
    ensures order[i] != order[j]
  {
    if i < j { assert order[i] != order[j]; } else { assert order[j] != order[i]; }
  }

  /** Position `j` of the new order, by where its item was before. */
  lemma MovedAt(order: seq<nat>, k: nat, prev: seq<int>, next: seq<int>, i: nat)
    requires |order| == |prev| == |next| && Permutation(order, |order|) && Links(order, prev, next)
    requires k < |order| - 1 && i < |order|
    ensures var ps, ns := MovedPrev(order, k, prev), MovedNext(order, k, next);
            && ps[order[i]] == (if i == k then order[|order| - 1] else if i == k + 1 then (if k == 0 then NIL else order[k - 1])
                                else if i == 0 then NIL else order[i - 1])
            && ns[order[i]] == (if i == k then NIL else if i == |order| - 1 then order[k]
                                else if i == k - 1 then order[k + 1] else order[i + 1])
  {
    var n := |order| - 1;
    assert LinkedAt(order, prev, next, i);
    if i != k { Differ(order, i, k); }
    if i != k + 1 { Differ(order, i, k + 1); }
    if i != n { Differ(order, i, n); }
    if k > 0 && i != k - 1 { Differ(order, i, k - 1); }
  }

  lemma MovedLinks(order: seq<nat>, k: nat, prev: seq<int>, next: seq<int>)
    requires |order| == |prev| == |next| && Permutation(order, |order|) && Links(order, prev, next)
    requires k < |order| - 1
    ensures Permutation(MoveToBack(order, k), |order|)
    ensures Links(MoveToBack(order, k), MovedPrev(order, k, prev), MovedNext(order, k, next))
  {
    var o, ps, ns := MoveToBack(order, k), MovedPrev(order, k, prev), MovedNext(order, k, next);
    var n := |order|;
    MoveToBackPermutes(order, n, k);
    forall j: nat | j < n ensures LinkedAt(o, ps, ns, j) { MovedLink(order, k, prev, next, j); }
  }

  lemma MovedLink(order: seq<nat>, k: nat, prev: seq<int>, next: seq<int>, j: nat)
    requires |order| == |prev| == |next| && Permutation(order, |order|) && Links(order, prev, next)
    requires k < |order| - 1 && j < |order| && Permutation(MoveToBack(order, k), |order|)
    ensures LinkedAt(MoveToBack(order, k), MovedPrev(order, k, prev), MovedNext(order, k, next), j)
  {
    MovesLast(order, k);
    MovedAt(order, k, prev, next, if j < k then j else if j < |order| - 1 then j + 1 else k);
  }

  lemma EndsApart(order: seq<nat>, n: nat, k: nat)
    requires Permutation(order, n) && k < n
    ensures order[k] == order[n - 1] <==> k == n - 1
    ensures order[k] == order[0] <==> k == 0
    ensures k == n - 1 ==> MoveToBack(order, k) == order
  {
    if k < n - 1 { assert order[k] != order[n - 1]; }
    if k > 0 { assert order[0] != order[k]; }
  }
}

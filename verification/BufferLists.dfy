/** The pins of each transaction. */
module BufferLists {
  import opened Storage
  import opened RecoveryObjects
  import opened BufferPool
  import opened BufferManager

  /** A pointer to a block id: two pointers can name the same block. */
  datatype Ref = Ref(id: nat, blk: BlockId)

  /** Buffer list `list` pinned buffer `buf` for `key` and has not unpinned it yet. */
  datatype Pin = Pin(list: nat, key: Ref, buf: nat)

  function Outstanding(held: seq<Pin>, i: nat): nat {
    if held == [] then 0
    else Outstanding(held[..|held| - 1], i) + (if held[|held| - 1].buf == i then 1 else 0)
  }

  /** The keys a list has pinned, in the order of its pins. */
  function Keys(held: seq<Pin>, l: nat): seq<Ref> {
    if held == [] then []
    else if held[0].list == l then [held[0].key] + Keys(held[1..], l)
    else Keys(held[1..], l)
  }

  /** Position of the first pin of `key` by list `l`. */
  function FirstPin(held: seq<Pin>, l: nat, key: Ref): (k: nat)
    ensures k <= |held|
    ensures k < |held| ==> held[k].list == l && held[k].key == key
  {
    if held == [] then 0
    else if held[0].list == l && held[0].key == key then 0
    else 1 + FirstPin(held[1..], l, key)
  }

  function RemoveAt<T>(s: seq<T>, k: nat): seq<T>
    requires k < |s|
  {
    s[..k] + s[k + 1..]
  }

  /** Every buffer has as many pins as all lists together hold, and holds their block. */
  ghost predicate PinsMatch(bufs: seq<Buf>, held: seq<Pin>) {
    && (forall i: nat | i < |bufs| :: bufs[i].pins == Outstanding(held, i))
    && (forall p | p in held :: p.buf < |bufs| && bufs[p.buf].blk == Some(p.key.blk))
  }

  lemma OutstandingSnoc(held: seq<Pin>, p: Pin, i: nat)
    ensures Outstanding(held + [p], i) == Outstanding(held, i) + if p.buf == i then 1 else 0
  {
    assert (held + [p])[..|held|] == held;
  }

  lemma {:induction false} KeysSnoc(held: seq<Pin>, p: Pin, l: nat)
    ensures Keys(held + [p], l) == if p.list == l then Keys(held, l) + [p.key] else Keys(held, l)
  {
    if held == [] {
      assert [] + [p] == [p] && [p][1..] == [];
    } else {
      KeysSnoc(held[1..], p, l);
      assert (held + [p])[1..] == held[1..] + [p];
    }
  }

  lemma {:induction false} OutstandingRemove(held: seq<Pin>, k: nat, i: nat)
    requires k < |held|
    ensures Outstanding(held, i) == Outstanding(RemoveAt(held, k), i) + if held[k].buf == i then 1 else 0
  {
    var n := |held| - 1;
    if k < n {
      OutstandingRemove(held[..n], k, i);
      OutstandingSnoc(RemoveAt(held[..n], k), held[n], i);
      assert RemoveAt(held, k) == RemoveAt(held[..n], k) + [held[n]];
    } else {
      assert RemoveAt(held, k) == held[..n];
    }
  }

  /** Removing a pin of one list leaves the keys of every other. */
  lemma {:induction false} KeysRemoveOther(held: seq<Pin>, k: nat, l: nat)
    requires k < |held| && held[k].list != l
    ensures Keys(RemoveAt(held, k), l) == Keys(held, l)
  {
    if k == 0 {
      assert RemoveAt(held, 0) == held[1..];
    } else {
      KeysRemoveOther(held[1..], k - 1, l);
      assert RemoveAt(held, k)[1..] == RemoveAt(held[1..], k - 1);
    }
  }

  function IndexOf(keys: seq<Ref>, key: Ref): (j: nat)
    ensures j <= |keys| && (j < |keys| ==> keys[j] == key) && key !in keys[..j]
    ensures key in keys ==> j < |keys|
  {
    if keys == [] then 0 else if keys[0] == key then 0 else
    var j := IndexOf(keys[1..], key);
    assert keys[..1 + j] == [keys[0]] + keys[1..][..j];
    1 + j
  }

  /** Removing the first pin of a key removes the first occurrence of the key. */
  lemma {:induction false} KeysRemoveFirst(held: seq<Pin>, l: nat, key: Ref)
    requires key in Keys(held, l)
    ensures FirstPin(held, l, key) < |held|
    ensures Keys(RemoveAt(held, FirstPin(held, l, key)), l) == RemoveAt(Keys(held, l), IndexOf(Keys(held, l), key))
  {
    if held[0].list == l && held[0].key == key {
      assert RemoveAt(held, 0) == held[1..];
      assert RemoveAt(Keys(held, l), 0) == Keys(held[1..], l);
    } else {
      KeysRemoveFirst(held[1..], l, key);
      RemoveAfterFirst(held, l, key);
    }
  }

  lemma RemoveAfterFirst(held: seq<Pin>, l: nat, key: Ref)
    requires held != [] && !(held[0].list == l && held[0].key == key) && key in Keys(held[1..], l)
    requires FirstPin(held[1..], l, key) < |held[1..]|
    requires var ks := Keys(held[1..], l);
             Keys(RemoveAt(held[1..], FirstPin(held[1..], l, key)), l) == RemoveAt(ks, IndexOf(ks, key))
    ensures FirstPin(held, l, key) < |held|
    ensures key in Keys(held, l)
    ensures Keys(RemoveAt(held, FirstPin(held, l, key)), l) == RemoveAt(Keys(held, l), IndexOf(Keys(held, l), key))
  {
    var k := FirstPin(held[1..], l, key);
    var h := RemoveAt(held, k + 1);
    assert h[1..] == RemoveAt(held[1..], k) && h[0] == held[0];
    if held[0].list == l {
      var rest := Keys(held[1..], l);
      RemoveFromTail(held[0].key, rest, key);
      assert Keys(h, l) == [held[0].key] + Keys(h[1..], l);
    }
  }

  /** The first occurrence behind a different first key. */
  lemma RemoveFromTail(x: Ref, rest: seq<Ref>, key: Ref)
    requires x != key && key in rest
    ensures var ks := [x] + rest;
            && key in ks && IndexOf(ks, key) == IndexOf(rest, key) + 1
            && RemoveAt(ks, IndexOf(ks, key)) == [x] + RemoveAt(rest, IndexOf(rest, key))
  {
    var ks := [x] + rest;
    assert ks[1..] == rest;
    var j := IndexOf(rest, key);
    assert RemoveAt(ks, j + 1) == [x] + RemoveAt(rest, j);
  }

  lemma {:induction false} KeyHasPin(held: seq<Pin>, l: nat, key: Ref)
    requires key in Keys(held, l)
    ensures exists k :: 0 <= k < |held| && held[k].list == l && held[k].key == key
  {
    if !(held[0].list == l && held[0].key == key) {
      KeyHasPin(held[1..], l, key);
      var k :| 0 <= k < |held[1..]| && held[1..][k].list == l && held[1..][k].key == key;
      assert held[k + 1].list == l && held[k + 1].key == key;
    }
  }

  lemma {:induction false} OutstandingPositive(held: seq<Pin>, k: nat)
    requires k < |held|
    ensures Outstanding(held, held[k].buf) > 0
  {
    if k < |held| - 1 { OutstandingPositive(held[..|held| - 1], k); }
  }

  lemma RemovedMatches(bufs: seq<Buf>, held: seq<Pin>, k: nat)
    requires PinsMatch(bufs, held) && k < |held|
    ensures held[k].buf < |bufs| && bufs[held[k].buf].Pinned()
    ensures var i := held[k].buf;
            PinsMatch(bufs[i := bufs[i].(pins := bufs[i].pins - 1)], RemoveAt(held, k))
  {
    assert held[k] in held;
    OutstandingPositive(held, k);
    var i := held[k].buf;
    var bufs' := bufs[i := bufs[i].(pins := bufs[i].pins - 1)];
    forall j: nat | j < |bufs'| ensures bufs'[j].pins == Outstanding(RemoveAt(held, k), j) {
      OutstandingRemove(held, k, j);
    }
    forall p | p in RemoveAt(held, k) ensures p.buf < |bufs'| && bufs'[p.buf].blk == Some(p.key.blk) {
      assert p in held;
    }
  }

  /** What a buffer list remembers: its keys in order, and the buffer of each. */
  ghost predicate ListOk(held: seq<Pin>, l: nat, pins: seq<Ref>, buffers: map<Ref, nat>) {
    && pins == Keys(held, l)
    && (forall key :: key in buffers <==> key in pins)
    && (forall p | p in held && p.list == l :: p.key in buffers && buffers[p.key] == p.buf)
  }

  lemma ListPinned(held: seq<Pin>, pins: seq<Ref>, buffers: map<Ref, nat>, pin: Pin)
    requires ListOk(held, pin.list, pins, buffers)
    requires forall x | x in held && x.key == pin.key :: x.buf == pin.buf
    ensures ListOk(held + [pin], pin.list, pins + [pin.key], buffers[pin.key := pin.buf])
    ensures forall l | l != pin.list :: Keys(held + [pin], l) == Keys(held, l)
  {
    forall l: nat ensures Keys(held + [pin], l) == if l == pin.list then Keys(held, l) + [pin.key] else Keys(held, l) {
      KeysSnoc(held, pin, l);
    }
  }

  lemma ListUnpinned(held: seq<Pin>, l: nat, pins: seq<Ref>, buffers: map<Ref, nat>, key: Ref)
    requires ListOk(held, l, pins, buffers) && key in pins
    ensures FirstPin(held, l, key) < |held|
    ensures var held', pins' := RemoveAt(held, FirstPin(held, l, key)), RemoveAt(pins, IndexOf(pins, key));
            && ListOk(held', l, pins', if key in pins' then buffers else buffers - {key})
            && forall m | m != l :: Keys(held', m) == Keys(held, m)
  {
    KeysRemoveFirst(held, l, key);
    var k := FirstPin(held, l, key);
    var held', pins' := RemoveAt(held, k), RemoveAt(pins, IndexOf(pins, key));
    RemovedMembers(pins, IndexOf(pins, key), key);
    PinsHaveKeys(held', l);
    forall p | p in held' ensures p in held { }
    forall m | m != l ensures Keys(held', m) == Keys(held, m) { KeysRemoveOther(held, k, m); }
  }

  /** Giving back the pin of a list's first key. */
  lemma FirstKeyReturned(held: seq<Pin>, l: nat)
    requires Keys(held, l) != []
    ensures var k := FirstPin(held, l, Keys(held, l)[0]);
            && k < |held| && Keys(RemoveAt(held, k), l) == Keys(held, l)[1..]
            && (forall p | p in RemoveAt(held, k) :: p in held)
            && forall m | m != l :: Keys(RemoveAt(held, k), m) == Keys(held, m)
  {
    var key := Keys(held, l)[0];
    KeysRemoveFirst(held, l, key);
    var k := FirstPin(held, l, key);
    assert RemoveAt(Keys(held, l), 0) == Keys(held, l)[1..];
    forall m | m != l ensures Keys(RemoveAt(held, k), m) == Keys(held, m) { KeysRemoveOther(held, k, m); }
  }

  /** All pins of the process; ghost bookkeeping. */
  class Ledger {
    ghost var held: seq<Pin>

    constructor ()
      ensures held == []
    {
      held := [];
    }
  }

  class BufferList {
    const id: nat
    const bm: BufferMgr
    const ledger: Ledger
    var buffers: map<Ref, nat>
    var pins: seq<Ref>

    ghost predicate Valid()
      reads this, ledger, bm, bm.bufs, bm.lru, bm.lru.prev, bm.lru.next
    {
      && bm.Valid() && PinsMatch(bm.bufs[..], ledger.held)
      && ListOk(ledger.held, id, pins, buffers)
    }

    constructor (bm: BufferMgr, ledger: Ledger, id: nat)
      requires bm.Valid() && PinsMatch(bm.bufs[..], ledger.held)
      requires Keys(ledger.held, id) == [] && forall p | p in ledger.held :: p.list != id
      ensures Valid() && this.bm == bm && this.ledger == ledger && this.id == id && pins == []
    {
      this.bm, this.ledger, this.id, buffers, pins := bm, ledger, id, map[], [];
    }

    /** The buffer pinned through this pointer, if any. */
    method GetBuffer(key: Ref) returns (i: Option<nat>)
      requires Valid()
      ensures i.Some? <==> key in pins
      ensures i.Some? ==> i.value < bm.bufs.Length && bm.bufs[i.value].blk == Some(key.blk) && bm.bufs[i.value].Pinned()
    {
      if key in buffers {
        KeyHasPin(ledger.held, id, key);
        ghost var k :| 0 <= k < |ledger.held| && ledger.held[k].list == id && ledger.held[k].key == key;
        assert ledger.held[k] in ledger.held;
        OutstandingPositive(ledger.held, k);
        i := Some(buffers[key]);
      } else {
        i := None;
      }
    }

    /** Pin the block and remember it; when no buffer can be had nothing changes. */
    method PinBlock(key: Ref) returns (ok: bool)
      requires Valid()
      modifies this, ledger, bm, bm.bufs, bm.lru, bm.lru.prev, bm.lru.next
      ensures Valid() && SameContents(old(bm.View()), bm.View(), bm.hash)
      ensures ok <==> exists i :: 0 <= i < bm.bufs.Length && CanHold(old(bm.bufs[i]), key.blk)
      ensures ok ==> pins == old(pins) + [key]
      ensures !ok ==> pins == old(pins) && bm.View() == old(bm.View())
      ensures forall l | l != id :: Keys(ledger.held, l) == old(Keys(ledger.held, l))
    {
      var r := PinFor(key);
      ok := r.Some?;
      if ok {
        buffers := buffers[key := r.value];
        pins := pins + [key];
        ledger.held := ledger.held + [Pin(id, key, r.value)];
      }
    }

    /** The pin in the pool; what the list and the ledger will then hold. */
    method PinFor(key: Ref) returns (r: Option<nat>)
      requires Valid()
      modifies bm, bm.bufs, bm.lru, bm.lru.prev, bm.lru.next
      ensures bm.Valid() && SameContents(old(bm.View()), bm.View(), bm.hash)
      ensures r.Some? <==> exists i :: 0 <= i < bm.bufs.Length && CanHold(old(bm.bufs[i]), key.blk)
      ensures r.None? ==> bm.View() == old(bm.View())
      ensures r.Some? ==>
                && PinsMatch(bm.bufs[..], ledger.held + [Pin(id, key, r.value)])
                && ListOk(ledger.held + [Pin(id, key, r.value)], id, pins + [key], buffers[key := r.value])
                && forall l | l != id :: Keys(ledger.held + [Pin(id, key, r.value)], l) == Keys(ledger.held, l)
    {
      ghost var p := bm.View();
      r := bm.TryToPin(key.blk);
      HoldIff(p, bm.View(), bm.hash, key.blk, r);
      if r.Some? { PinListed(p, bm.View(), bm.hash, ledger.held, pins, buffers, Pin(id, key, r.value), r); }
    }

    /** Give back one pin; a key that is not pinned is ignored. */
    method UnpinBlock(key: Ref)
      requires Valid()
      modifies this, ledger, bm`numAvailable, bm.bufs
      ensures Valid() && SameContents(old(bm.View()), bm.View(), bm.hash)
      ensures pins == if key in old(pins) then RemoveAt(old(pins), IndexOf(old(pins), key)) else old(pins)
      ensures forall l | l != id :: Keys(ledger.held, l) == old(Keys(ledger.held, l))
    {
      if key !in buffers { return; }
      ghost var k := FirstPin(ledger.held, id, key);
      ListUnpinned(ledger.held, id, pins, buffers, key);
      assert ledger.held[k] in ledger.held;
      DropPin(buffers[key], k);
      ForgetPin(key);
    }

    /** Strike one pin of the key off the list; the buffer is forgotten with the last of them. */
    method ForgetPin(key: Ref)
      requires key in pins
      modifies this
      ensures pins == RemoveAt(old(pins), IndexOf(old(pins), key))
      ensures buffers == if key in pins then old(buffers) else old(buffers) - {key}
    {
      var j := FindFirst(key);
      pins := pins[..j] + pins[j + 1..];
      if key !in pins { buffers := buffers - {key}; }
    }

    /** Give back every pin this list holds, and no other. */
    method UnpinAll()
      requires Valid()
      modifies this, ledger, bm`numAvailable, bm.bufs
      ensures Valid() && pins == [] && Keys(ledger.held, id) == []
      ensures SameContents(old(bm.View()), bm.View(), bm.hash)
      ensures forall l | l != id :: Keys(ledger.held, l) == old(Keys(ledger.held, l))
    {
      ghost var p, held := bm.View(), ledger.held;
      var i := 0;
      while i < |pins|
        invariant i <= |pins| && pins == old(pins) && buffers == old(buffers)
        invariant Returning(pins[i..]) && SameContents(p, bm.View(), bm.hash)
        invariant forall l | l != id :: Keys(ledger.held, l) == Keys(held, l)
      {
        ghost var q := bm.View();
        ReturnPin(pins[i], pins[i..]);
        SameThrough(p, p, q, bm.View(), bm.hash);
        assert pins[i..][1..] == pins[i + 1..];
        i := i + 1;
      }
      buffers, pins := map[], [];
      PinsHaveKeys(ledger.held, id);
    }

    /** In the middle of UnpinAll: `left` is still to be given back. */
    ghost predicate Returning(left: seq<Ref>)
      reads this, ledger, bm, bm.bufs, bm.lru, bm.lru.prev, bm.lru.next
    {
      && bm.Valid() && PinsMatch(bm.bufs[..], ledger.held) && Keys(ledger.held, id) == left
      && (forall p | p in ledger.held && p.list == id :: p.key in buffers && buffers[p.key] == p.buf)
    }

    method ReturnPin(key: Ref, ghost left: seq<Ref>)
      requires left != [] && left[0] == key && Returning(left)
      modifies ledger, bm`numAvailable, bm.bufs
      ensures Returning(left[1..]) && SameContents(old(bm.View()), bm.View(), bm.hash)
      ensures forall l | l != id :: Keys(ledger.held, l) == old(Keys(ledger.held, l))
    {
      ghost var k := FirstPin(ledger.held, id, key);
      FirstKeyReturned(ledger.held, id);
      assert ledger.held[k] in ledger.held;
      DropPin(buffers[key], k);
    }

    /** Drop the pin at position `k` of the ledger. */
    method DropPin(i: nat, ghost k: nat)
      requires bm.Valid() && PinsMatch(bm.bufs[..], ledger.held) && k < |ledger.held| && ledger.held[k].buf == i
      modifies ledger, bm`numAvailable, bm.bufs
      ensures bm.Valid() && PinsMatch(bm.bufs[..], ledger.held) && ledger.held == RemoveAt(old(ledger.held), k)
      ensures SameContents(old(bm.View()), bm.View(), bm.hash)
    {
      RemovedMatches(bm.bufs[..], ledger.held, k);
      bm.Unpin(i);
      ledger.held := RemoveAt(ledger.held, k);
    }

    method FindFirst(key: Ref) returns (j: nat)
      requires key in pins
      ensures j == IndexOf(pins, key) < |pins|
    {
      j := 0;
      while pins[j] != key
        invariant 0 <= j < |pins| && key !in pins[..j]
        decreases |pins| - j
      {
        NotYet(pins, key, j);
        j := j + 1;
      }
      FirstIsUnique(pins, key, j);
    }
  }

  lemma {:induction false} FirstIsUnique(keys: seq<Ref>, key: Ref, j: nat)
    requires j < |keys| && keys[j] == key && key !in keys[..j]
    ensures IndexOf(keys, key) == j
  {
    if j > 0 {
      assert keys[0] == keys[..j][0];
      assert keys[1..][..j - 1] == keys[..j][1..];
      FirstIsUnique(keys[1..], key, j - 1);
    }
  }

  lemma NotYet(keys: seq<Ref>, key: Ref, j: nat)
    requires key in keys && j < |keys| && key !in keys[..j] && keys[j] != key
    ensures j + 1 < |keys| && key !in keys[..j + 1]
  {
    var q := keys[..j + 1];
    assert q == keys[..j] + [keys[j]];
    assert |q| == |keys| ==> q == keys;
  }

  lemma RemovedMembers(keys: seq<Ref>, j: nat, key: Ref)
    requires j < |keys| && keys[j] == key
    ensures forall x | x != key :: x in RemoveAt(keys, j) <==> x in keys
  {
    assert keys == keys[..j] + [key] + keys[j + 1..];
  }

  /** A list's pins are pins of its keys. */
  lemma {:induction false} PinsHaveKeys(held: seq<Pin>, l: nat)
    ensures forall p | p in held && p.list == l :: p.key in Keys(held, l)
  {
    if held != [] {
      PinsHaveKeys(held[1..], l);
      assert held == [held[0]] + held[1..];
    }
  }

  /** The buffer has the block already, or can be given to it. */
  predicate CanHold(u: Buf, b: BlockId) { u.blk == Some(b) || !u.Pinned() }

  lemma HoldIff(p: Pool, q: Pool, hash: BlockId -> int, b: BlockId, r: Option<nat>)
    requires Pinning(p, q, hash, b, r)
    ensures r.Some? <==> exists i :: 0 <= i < |p.bufs| && CanHold(p.bufs[i], b)
  {
    if r.None? {
      forall i | 0 <= i < |p.bufs| ensures !CanHold(p.bufs[i], b) {
      }
    } else {
      var i :| 0 <= i < |p.bufs| && !(p.bufs[i].pins > 0 && p.bufs[i].blk != Some(b));
      assert CanHold(p.bufs[i], b);
    }
  }

  lemma PinnedMatches(p: Pool, q: Pool, hash: BlockId -> int, held: seq<Pin>, pin: Pin, r: Option<nat>)
    requires PinsMatch(p.bufs, held) && r == Some(pin.buf) && Pinning(p, q, hash, pin.key.blk, r)
    ensures PinsMatch(q.bufs, held + [pin])
  {
    forall i: nat | i < |q.bufs| ensures q.bufs[i].pins == Outstanding(held + [pin], i) { OutstandingSnoc(held, pin, i); }
    forall x | x in held + [pin] ensures x.buf < |q.bufs| && q.bufs[x.buf].blk == Some(x.key.blk) {
      if x in held {
        var k :| 0 <= k < |held| && held[k] == x;
        OutstandingPositive(held, k);
      }
    }
  }

  /** The new pin in the ledger and in its list. */
  lemma PinListed(p: Pool, q: Pool, hash: BlockId -> int, held: seq<Pin>, pins: seq<Ref>, buffers: map<Ref, nat>,
                  pin: Pin, r: Option<nat>)
    requires PinsMatch(p.bufs, held) && r == Some(pin.buf) && Pinning(p, q, hash, pin.key.blk, r) && PoolOk(q, hash)
    requires ListOk(held, pin.list, pins, buffers)
    ensures PinsMatch(q.bufs, held + [pin])
    ensures ListOk(held + [pin], pin.list, pins + [pin.key], buffers[pin.key := pin.buf])
    ensures forall l | l != pin.list :: Keys(held + [pin], l) == Keys(held, l)
  {
    PinnedMatches(p, q, hash, held, pin, r);
    SameKeySameBuffer(q, hash, held, pin);
    ListPinned(held, pins, buffers, pin);
  }

  /** A block pinned twice is pinned in the same buffer. */
  lemma SameKeySameBuffer(q: Pool, hash: BlockId -> int, held: seq<Pin>, pin: Pin)
    requires PoolOk(q, hash) && PinsMatch(q.bufs, held + [pin])
    ensures forall x | x in held && x.key == pin.key :: x.buf == pin.buf
  {
    forall x | x in held && x.key == pin.key ensures x.buf == pin.buf {
      assert x in held + [pin] && pin in held + [pin];
      if x.buf != pin.buf { OtherBlock(q, hash, x.buf, pin.buf); }
    }
  }
}

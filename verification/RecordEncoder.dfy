/** Writing log records into a buffer whose size is computed beforehand. */
module RecordEncoder {
  import opened Storage
  import opened ByteCodec
  import opened Pages
  import opened LogModel
  import opened RecordCodec

  class Encoder {
    const p: Page
    var pos: nat

    /** The bytes put so far. */
    ghost var done: Bytes

    ghost predicate Valid()
      reads this, p.bb
    {
      p.headerSize == 0 && |done| == pos <= p.bb.Length && p.Image()[..pos] == done
    }

    ghost predicate Room(n: nat)
      reads this
    {
      pos + n <= p.bb.Length
    }

    constructor (size: nat)
      ensures Valid() && done == [] && p.bb.Length == size && fresh(p) && fresh(p.bb)
    {
      p := new Page.Log(Zeros(size));
      pos, done := 0, [];
    }

    method PutInt32(v: int) returns (ok: bool)
      requires Valid() && IsInt32(v)
      modifies this, p.bb
      ensures Valid() && ok == old(Room(4))
      ensures done == if ok then old(done) + I32(v) else old(done)
    {
      ok := p.SetInt32(pos, v);
      if ok { pos, done := pos + 4, done + I32(v); }
    }

    method PutInt16(v: int) returns (ok: bool)
      requires Valid() && IsInt16(v)
      modifies this, p.bb
      ensures Valid() && ok == old(Room(2))
      ensures done == if ok then old(done) + I16(v) else old(done)
    {
      ok := p.SetInt16(pos, v);
      if ok { pos, done := pos + 2, done + I16(v); }
    }

    method PutBool(v: bool) returns (ok: bool)
      requires Valid()
      modifies this, p.bb
      ensures Valid() && ok == old(Room(1))
      ensures done == if ok then old(done) + BoolByte(v) else old(done)
    {
      ok := p.SetBool(pos, v);
      if ok { pos, done := pos + 1, done + BoolByte(v); }
    }

    method PutDate(v: int) returns (ok: bool)
      requires Valid() && IsInt64(v)
      modifies this, p.bb
      ensures Valid() && ok == old(Room(8))
      ensures done == if ok then old(done) + I64(v) else old(done)
    {
      ok := p.SetDate(pos, v);
      if ok { pos, done := pos + 8, done + I64(v); }
    }

    method PutStr(s: Bytes) returns (ok: bool)
      requires Valid() && IsInt32(|s|)
      modifies this, p.bb
      ensures Valid() && ok == old(Room(4 + |s|))
      ensures done == if ok then old(done) + EncStr(s) else old(done)
    {
      ok := p.SetBytes(pos, s);
      if ok { pos, done := pos + 4 + |s|, done + EncStr(s); }
    }

    method PutBlock(b: BlockId) returns (ok: bool)
      requires Valid() && FitsBlock(b)
      modifies this, p.bb
      ensures Valid() && ok == old(Room(|EncBlock(b)|))
      ensures ok ==> done == old(done) + EncBlock(b)
    {
      ok := PutStr(b.filename);
      if ok { ok := PutInt32(b.number); }
    }

    method PutValue(v: Value) returns (ok: bool)
      requires Valid() && FitsValue(v)
      modifies this, p.bb
      ensures Valid() && ok == old(Room(|EncValue(v)|))
      ensures ok ==> done == old(done) + EncValue(v)
    {
      match v
      case Int16(i) => ok := PutInt16(i);
      case Int32(i) => ok := PutInt32(i);
      case Str(s) => ok := PutStr(s);
      case Bool(b) => ok := PutBool(b);
      case Date(d) => ok := PutDate(d);
    }

    /** The buffer once it is full. */
    method Bytes() returns (b: Bytes)
      requires Valid() && pos == p.bb.Length
      ensures b == done
    {
      b := p.bb[..];
    }

    method PutTx(op: int, prev: LSN, t: TxNum) returns (ok: bool)
      requires Valid() && IsInt32(op) && IsInt32(prev) && IsInt32(t) && Room(12)
      modifies this, p.bb
      ensures Valid() && ok && done == old(done) + EncTx(op, prev, t)
    {
      ok := PutInt32(op);
      ok := PutInt32(prev);
      ok := PutInt32(t);
    }

    method PutChange(op: int, t: TxNum, prev: LSN, b: BlockId, f: Field, was: Value, now: Value) returns (ok: bool)
      requires Valid() && IsInt32(op) && FitsChange(t, prev, b, f, was, now)
      requires Room(16 + |EncBlock(b)| + |EncValue(was)| + |EncValue(now)|)
      modifies this, p.bb
      ensures Valid() && ok && done == old(done) + EncChange(op, t, prev, b, f, was, now)
    {
      ghost var before := done;
      ok := PutTx(op, prev, t);
      ok := PutBlock(b);
      ok := PutInt32(f.offset);
      ok := PutValue(was);
      ok := PutValue(now);
      RegroupFive(before, EncTx(op, prev, t), EncBlock(b), I32(f.offset), EncValue(was), EncValue(now));
    }
  }

  lemma NilLeft(c: seq<byte>)
    ensures [] + c == c
  {
  }

  lemma Regroup(a: seq<byte>, b: seq<byte>, c: seq<byte>, d: seq<byte>, e: seq<byte>)
    ensures a + b + c + d + e == a + (b + c + d + e)
    ensures a + b + c + d == a + (b + c + d)
  {
  }

  lemma RegroupFive(a: seq<byte>, b: seq<byte>, c: seq<byte>, d: seq<byte>, e: seq<byte>, f: seq<byte>)
    ensures a + b + c + d + e + f == a + (b + c + d + e + f)
  {
    Regroup(a, b, c, d, e);
    assert a + (b + c + d + e) + f == a + ((b + c + d + e) + f);
  }

  // ---------------------------------------------------------------- sizes

  function ValueSize(v: Value): nat {
    match v
    case Int16(_) => 2
    case Int32(_) => 4
    case Str(s) => 4 + |s|
    case Bool(_) => 1
    case Date(_) => 8
  }

  function BlockSize(b: BlockId): nat { 4 + |b.filename| + 4 }

  function ChangeSize(b: BlockId, was: Value, now: Value): nat {
    4 + 4 + 4 + BlockSize(b) + 4 + ValueSize(was) + ValueSize(now)
  }

  // ---------------------------------------------------------------- writers

  /** START, END, COMMIT and ABORT records. */
  method WriteTx(op: int, prev: LSN, t: TxNum) returns (b: Bytes)
    requires IsInt32(op) && IsInt32(prev) && IsInt32(t)
    ensures b == EncTx(op, prev, t)
  {
    var enc := new Encoder(12);
    var ok := enc.PutTx(op, prev, t);
    b := enc.Bytes();
  }

  method WriteCheckpointBegin() returns (b: Bytes)
    ensures b == Encode(CheckpointBegin, [], [])
  {
    var enc := new Encoder(4);
    var ok := enc.PutInt32(OP_CHECKPOINT_BEGIN);
    b := enc.Bytes();
  }

  /** The size computed beforehand is what the encoding takes. */
  lemma ChangeLength(op: int, t: TxNum, prev: LSN, b: BlockId, f: Field, was: Value, now: Value)
    requires IsInt32(op) && FitsChange(t, prev, b, f, was, now)
    ensures |EncChange(op, t, prev, b, f, was, now)| == ChangeSize(b, was, now)
    ensures 16 + |EncBlock(b)| + |EncValue(was)| + |EncValue(now)| == ChangeSize(b, was, now)
  {
    ValueLength(was);
    ValueLength(now);
  }

  lemma ValueLength(v: Value)
    requires FitsValue(v)
    ensures |EncValue(v)| == ValueSize(v)
  {
  }

  method WriteSet(t: TxNum, prev: LSN, blk: BlockId, f: Field, was: Value, now: Value) returns (b: Bytes)
    requires FitsChange(t, prev, blk, f, was, now)
    ensures b == Encode(Update(t, prev, blk, f, was, now), [], [])
    ensures |b| == ChangeSize(blk, was, now)
  {
    var op := OP_SET + KindCode(f.kind);
    ChangeLength(op, t, prev, blk, f, was, now);
    b := WriteChange(op, t, prev, blk, f, was, now);
  }

  method WriteChange(op: int, t: TxNum, prev: LSN, blk: BlockId, f: Field, was: Value, now: Value) returns (b: Bytes)
    requires IsInt32(op) && FitsChange(t, prev, blk, f, was, now)
    requires 16 + |EncBlock(blk)| + |EncValue(was)| + |EncValue(now)| == ChangeSize(blk, was, now)
    ensures b == EncChange(op, t, prev, blk, f, was, now)
  {
    var enc := new Encoder(ChangeSize(blk, was, now));
    var ok := enc.PutChange(op, t, prev, blk, f, was, now);
    NilLeft(EncChange(op, t, prev, blk, f, was, now));
    b := enc.Bytes();
  }

  method WriteCompensation(t: TxNum, prev: LSN, blk: BlockId, f: Field, was: Value, now: Value, undo: LSN)
    returns (b: Bytes)
    requires FitsChange(t, prev, blk, f, was, now) && IsInt32(undo)
    ensures b == Encode(Compensation(t, prev, blk, f, was, now, undo), [], [])
    ensures |b| == ChangeSize(blk, was, now) + 4
  {
    var op := OP_COMPENSATION + KindCode(f.kind);
    ChangeLength(op, t, prev, blk, f, was, now);
    var enc := new Encoder(ChangeSize(blk, was, now) + 4);
    PutClr(enc, op, t, prev, blk, f, was, now, undo);
    b := enc.Bytes();
  }

  method PutClr(enc: Encoder, op: int, t: TxNum, prev: LSN, blk: BlockId, f: Field, was: Value, now: Value, undo: LSN)
    requires enc.Valid() && enc.done == [] && IsInt32(op) && FitsChange(t, prev, blk, f, was, now) && IsInt32(undo)
    requires 16 + |EncBlock(blk)| + |EncValue(was)| + |EncValue(now)| == |EncChange(op, t, prev, blk, f, was, now)|
    requires enc.p.bb.Length == |EncChange(op, t, prev, blk, f, was, now)| + 4
    modifies enc, enc.p.bb
    ensures enc.Valid() && enc.pos == enc.p.bb.Length
    ensures enc.done == EncChange(op, t, prev, blk, f, was, now) + I32(undo)
  {
    var ok := enc.PutChange(op, t, prev, blk, f, was, now);
    NilLeft(EncChange(op, t, prev, blk, f, was, now));
    ok := enc.PutInt32(undo);
  }

  // ---------------------------------------------------------------- checkpoints

  function EntrySize(b: BlockId): nat { BlockSize(b) + 4 }

  /** Sum of the entry sizes. */
  function DptSize(order: seq<BlockId>): nat {
    if order == [] then 0 else DptSize(order[..|order| - 1]) + EntrySize(order[|order| - 1])
  }

  lemma {:induction false} DptSizeRemove(order: seq<BlockId>, j: nat)
    requires j < |order|
    ensures DptSize(order) == DptSize(order[..j] + order[j + 1..]) + EntrySize(order[j])
  {
    var n := |order| - 1;
    if j < n {
      DptSizeRemove(order[..n], j);
      var rest := order[..j] + order[j + 1..];
      assert rest[..n - 1] == order[..n][..j] + order[..n][j + 1..];
      assert rest[n - 1] == order[n];
    } else {
      assert order[..j] + order[j + 1..] == order[..n];
    }
  }

  /** The size does not depend on the order in which the map is iterated. */
  lemma {:induction false} DptSizeAnyOrder(order: seq<BlockId>, other: seq<BlockId>, keys: set<BlockId>)
    requires Enumerates(order, keys) && Enumerates(other, keys)
    ensures DptSize(order) == DptSize(other)
    decreases |order|
  {
    if order == [] {
      EnumerationLength(order, keys);
      EnumerationLength(other, keys);
    } else {
      var n := |order| - 1;
      var k := order[n];
      assert k in order;
      var j :| 0 <= j < |other| && other[j] == k;
      var rest := other[..j] + other[j + 1..];
      DptSizeRemove(other, j);
      WithoutLast(order, keys);
      Without(other, keys, j);
      DptSizeAnyOrder(order[..n], rest, keys - {k});
    }
  }

  lemma WithoutLast(order: seq<BlockId>, keys: set<BlockId>)
    requires order != [] && Enumerates(order, keys)
    ensures Enumerates(order[..|order| - 1], keys - {order[|order| - 1]})
  {
    Without(order, keys, |order| - 1);
    assert order[..|order| - 1] + order[|order|..] == order[..|order| - 1];
  }

  lemma Without(order: seq<BlockId>, keys: set<BlockId>, j: nat)
    requires Enumerates(order, keys) && j < |order|
    ensures Enumerates(order[..j] + order[j + 1..], keys - {order[j]})
  {
    var rest := order[..j] + order[j + 1..];
    forall i | 0 <= i < |rest| ensures rest[i] == order[if i < j then i else i + 1] && rest[i] != order[j] {
    }
    forall x ensures x in rest <==> x in keys - {order[j]} {
      if x in rest {
        var i :| 0 <= i < |rest| && rest[i] == x;
        assert order[if i < j then i else i + 1] in order;
      }
      if x in keys - {order[j]} {
        assert x in order;
        var i :| 0 <= i < |order| && order[i] == x;
        assert rest[if i < j then i else i - 1] == x;
      }
    }
  }

  lemma {:induction false} EncDptLength(dpt: Dpt, order: seq<BlockId>)
    requires FitsDpt(dpt) && forall b | b in order :: b in dpt
    ensures |EncDpt(dpt, order)| == DptSize(order)
  {
    if order != [] {
      forall b | b in order[..|order| - 1] ensures b in dpt { assert b in order; }
      EncDptLength(dpt, order[..|order| - 1]);
      assert order[|order| - 1] in order;
    }
  }

  /** The keys of a map in some order. */
  method IterateDpt(dpt: Dpt) returns (order: seq<BlockId>)
    ensures Enumerates(order, dpt.Keys)
  {
    order := [];
    var rest := dpt.Keys;
    while rest != {}
      invariant rest <= dpt.Keys && Enumerates(order, dpt.Keys - rest)
      decreases |rest|
    {
      var b :| b in rest;
      rest, order := rest - {b}, order + [b];
    }
  }

  method IterateAtt(att: Att) returns (order: seq<TxNum>)
    ensures Enumerates(order, att.Keys)
  {
    order := [];
    var rest := att.Keys;
    while rest != {}
      invariant rest <= att.Keys && Enumerates(order, att.Keys - rest)
      decreases |rest|
    {
      SomeMember(rest);
      var t :| t in rest;
      rest, order := rest - {t}, order + [t];
    }
  }

  lemma {:induction false} EncAttLength(att: Att, order: seq<TxNum>)
    requires FitsAtt(att) && forall t | t in order :: t in att
    ensures |EncAtt(att, order)| == 12 * |order|
  {
    if order != [] {
      forall t | t in order[..|order| - 1] ensures t in att { assert t in order; }
      EncAttLength(att, order[..|order| - 1]);
    }
  }

  method PutAttEntry(enc: Encoder, t: TxNum, e: AttEntry)
    requires enc.Valid() && enc.Room(12) && IsInt32(t) && IsInt32(e.lastLSN)
    modifies enc, enc.p.bb
    ensures enc.Valid() && enc.done == old(enc.done) + I32(t) + I32(StatusCode(e.status)) + I32(e.lastLSN)
  {
    var ok := enc.PutInt32(t);
    ok := enc.PutInt32(StatusCode(e.status));
    ok := enc.PutInt32(e.lastLSN);
  }

  method PutAtt(enc: Encoder, att: Att) returns (ghost order: seq<TxNum>)
    requires enc.Valid() && FitsAtt(att) && enc.Room(12 * |att|)
    modifies enc, enc.p.bb
    ensures enc.Valid() && Enumerates(order, att.Keys) && enc.done == old(enc.done) + EncAtt(att, order)
  {
    var ts := IterateAtt(att);
    EnumerationLength(ts, att.Keys);
    for i := 0 to |ts|
      invariant enc.Valid() && (forall t | t in ts[..i] :: t in att) && enc.done == old(enc.done) + EncAtt(att, ts[..i])
    {
      var t := ts[i];
      EncAttLength(att, ts[..i]);
      assert t in ts;
      assert ts[..i + 1][..i] == ts[..i];
      PutAttEntry(enc, t, att[t]);
      Regroup(old(enc.done), EncAtt(att, ts[..i]), I32(t), I32(StatusCode(att[t].status)), I32(att[t].lastLSN));
    }
    assert ts[..|ts|] == ts;
    order := ts;
  }

  method PutDpt(enc: Encoder, dpt: Dpt, ghost sized: seq<BlockId>) returns (ghost order: seq<BlockId>)
    requires enc.Valid() && FitsDpt(dpt) && Enumerates(sized, dpt.Keys) && enc.Room(DptSize(sized))
    modifies enc, enc.p.bb
    ensures enc.Valid() && Enumerates(order, dpt.Keys) && enc.done == old(enc.done) + EncDpt(dpt, order)
  {
    var bs := IterateDpt(dpt);
    DptSizeAnyOrder(bs, sized, dpt.Keys);
    for i := 0 to |bs|
      invariant enc.Valid() && (forall b | b in bs[..i] :: b in dpt) && enc.done == old(enc.done) + EncDpt(dpt, bs[..i])
    {
      var b := bs[i];
      PrefixFits(dpt, bs, i);
      assert b in bs;
      assert bs[..i + 1][..i] == bs[..i];
      var ok := enc.PutBlock(b);
      ok := enc.PutInt32(dpt[b]);
      Regroup(old(enc.done), EncDpt(dpt, bs[..i]), EncBlock(b), I32(dpt[b]), []);
    }
    assert bs[..|bs|] == bs;
    order := bs;
  }

  lemma {:induction false} DptSizePrefix(order: seq<BlockId>, i: nat)
    requires i <= |order|
    ensures DptSize(order[..i]) <= DptSize(order)
    decreases |order| - i
  {
    if i < |order| {
      assert order[..i + 1][..i] == order[..i];
      DptSizePrefix(order, i + 1);
    } else {
      assert order[..i] == order;
    }
  }

  /** There is room for the next entry. */
  lemma PrefixFits(dpt: Dpt, order: seq<BlockId>, i: nat)
    requires i < |order| && FitsDpt(dpt) && forall b | b in order[..i] :: b in dpt
    ensures |EncDpt(dpt, order[..i])| + EntrySize(order[i]) <= DptSize(order)
  {
    EncDptLength(dpt, order[..i]);
    DptSizePrefix(order, i + 1);
    assert order[..i + 1][..i] == order[..i];
  }

  method SizeOfDpt(dpt: Dpt) returns (total: nat, ghost order: seq<BlockId>)
    ensures Enumerates(order, dpt.Keys) && total == DptSize(order)
  {
    var bs := IterateDpt(dpt);
    total := 0;
    for i := 0 to |bs|
      invariant total == DptSize(bs[..i])
    {
      assert bs[..i + 1][..i] == bs[..i];
      total := total + EntrySize(bs[i]);
    }
    assert bs[..|bs|] == bs;
    order := bs;
  }

  /** Size first, then the entries; the two passes over a map may see it in different orders. */
  method WriteCheckpointEnd(begin: LSN, att: Att, dpt: Dpt)
    returns (b: Bytes, ghost atts: seq<TxNum>, ghost dpts: seq<BlockId>)
    requires Fits(CheckpointEnd(begin, att, dpt))
    ensures Enumerates(atts, att.Keys) && Enumerates(dpts, dpt.Keys)
    ensures b == Encode(CheckpointEnd(begin, att, dpt), atts, dpts)
    ensures CreateLogRecord(b) == Decoded(CheckpointEnd(begin, att, dpt))
  {
    var dptSize;
    ghost var sized;
    dptSize, sized := SizeOfDpt(dpt);
    var enc := new Encoder(4 + 4 + 4 + 12 * |att| + 4 + dptSize);
    var ok := enc.PutInt32(OP_CHECKPOINT_END);
    NilLeft(I32(OP_CHECKPOINT_END));
    ok := enc.PutInt32(begin);
    ok := enc.PutInt32(|att|);
    atts := PutAtt(enc, att);
    EnumerationLength(atts, att.Keys);
    EncAttLength(att, atts);
    ok := enc.PutInt32(|dpt|);
    dpts := PutDpt(enc, dpt, sized);
    EncDptLength(dpt, dpts);
    DptSizeAnyOrder(dpts, sized, dpt.Keys);
    b := enc.Bytes();
    CodecRoundTrip(CheckpointEnd(begin, att, dpt), atts, dpts);
  }
}

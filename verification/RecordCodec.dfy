/** Log records as bytes. */
module RecordCodec {
  import opened Storage
  import opened ByteCodec
  import opened LogModel

  const OP_CHECKPOINT_BEGIN := 0
  const OP_CHECKPOINT_END := 1
  const OP_START := 2
  const OP_END := 3
  const OP_COMMIT := 4
  const OP_ABORT := 5
  const OP_SET := 6
  const OP_COMPENSATION := 11

  /** The five kinds of value have consecutive op codes. */
  function KindCode(k: Kind): int {
    match k
    case Int16Kind => 0
    case Int32Kind => 1
    case StrKind => 2
    case BoolKind => 3
    case DateKind => 4
  }

  function KindOf(code: int): Kind {
    if code == 0 then Int16Kind else if code == 1 then Int32Kind else if code == 2 then StrKind
    else if code == 3 then BoolKind else DateKind
  }

  function StatusCode(s: Status): int {
    match s
    case Running => 0
    case Committed => 1
    case Aborting => 2
  }

  // ---------------------------------------------------------------- what can be stored

  predicate FitsValue(v: Value) {
    match v
    case Int16(i) => IsInt16(i)
    case Int32(i) => IsInt32(i)
    case Str(s) => IsInt32(|s|)
    case Bool(_) => true
    case Date(d) => IsInt64(d)
  }

  predicate FitsBlock(b: BlockId) { IsInt32(|b.filename|) && IsInt32(b.number) }

  predicate FitsAtt(att: Att) {
    IsInt32(|att|) && forall t | t in att :: IsInt32(t) && IsInt32(att[t].lastLSN)
  }

  predicate FitsDpt(dpt: Dpt) {
    IsInt32(|dpt|) && forall b | b in dpt :: FitsBlock(b) && IsInt32(dpt[b])
  }

  /** The numbers of the record fit their 32 bits and both values are of the field's kind. */
  predicate Fits(r: Record) {
    match r
    case CheckpointBegin => true
    case CheckpointEnd(begin, att, dpt) => IsInt32(begin) && FitsAtt(att) && FitsDpt(dpt)
    case Start(t) => IsInt32(t)
    case End(t, prev) => IsInt32(t) && IsInt32(prev)
    case Commit(t, prev) => IsInt32(t) && IsInt32(prev)
    case Abort(t, prev) => IsInt32(t) && IsInt32(prev)
    case Update(t, prev, b, f, was, now) => FitsChange(t, prev, b, f, was, now)
    case Compensation(t, prev, b, f, was, now, undo) => FitsChange(t, prev, b, f, was, now) && IsInt32(undo)
  }

  predicate FitsChange(t: TxNum, prev: LSN, b: BlockId, f: Field, was: Value, now: Value) {
    && IsInt32(t) && IsInt32(prev) && FitsBlock(b) && IsInt32(f.offset)
    && was.Kind() == f.kind == now.Kind() && FitsValue(was) && FitsValue(now)
  }

  // ---------------------------------------------------------------- encoding

  function EncStr(s: Bytes): Bytes
    requires IsInt32(|s|)
  {
    I32(|s|) + s
  }

  function EncValue(v: Value): Bytes
    requires FitsValue(v)
  {
    match v
    case Int16(i) => I16(i)
    case Int32(i) => I32(i)
    case Str(s) => EncStr(s)
    case Bool(b) => BoolByte(b)
    case Date(d) => I64(d)
  }

  function EncBlock(b: BlockId): Bytes
    requires FitsBlock(b)
  {
    EncStr(b.filename) + I32(b.number)
  }

  function EncTx(op: int, prev: LSN, t: TxNum): Bytes
    requires IsInt32(op) && IsInt32(prev) && IsInt32(t)
  {
    I32(op) + I32(prev) + I32(t)
  }

  function EncChange(op: int, t: TxNum, prev: LSN, b: BlockId, f: Field, was: Value, now: Value): Bytes
    requires IsInt32(op) && FitsChange(t, prev, b, f, was, now)
  {
    EncTx(op, prev, t) + EncBlock(b) + I32(f.offset) + EncValue(was) + EncValue(now)
  }

  /** Map entries in the order given. */
  function EncAtt(att: Att, order: seq<TxNum>): Bytes
    requires FitsAtt(att) && forall t | t in order :: t in att
  {
    if order == [] then []
    else
      var t := order[|order| - 1];
      assert t in order;
      EncAtt(att, order[..|order| - 1]) + I32(t) + I32(StatusCode(att[t].status)) + I32(att[t].lastLSN)
  }

  function EncDpt(dpt: Dpt, order: seq<BlockId>): Bytes
    requires FitsDpt(dpt) && forall b | b in order :: b in dpt
  {
    if order == [] then []
    else
      var b := order[|order| - 1];
      assert b in order;
      EncDpt(dpt, order[..|order| - 1]) + EncBlock(b) + I32(dpt[b])
  }

  /** Every key exactly once, in any order. */
  ghost predicate Enumerates<K(!new)>(order: seq<K>, keys: set<K>) {
    (forall k :: k in order <==> k in keys) && forall i, j | 0 <= i < j < |order| :: order[i] != order[j]
  }

  /** The bytes of a record.  The orders only matter for CHECKPOINT-END, whose maps are written in the order
      in which they happen to be iterated. */
  function Encode(r: Record, atts: seq<TxNum>, dpts: seq<BlockId>): Bytes
    requires Fits(r)
    requires r.CheckpointEnd? ==> (forall t | t in atts :: t in r.att) && forall b | b in dpts :: b in r.dpt
  {
    match r
    case CheckpointBegin => I32(OP_CHECKPOINT_BEGIN)
    case CheckpointEnd(begin, att, dpt) =>
      I32(OP_CHECKPOINT_END) + I32(begin) + I32(|att|) + EncAtt(att, atts) + I32(|dpt|) + EncDpt(dpt, dpts)
    case Start(t) => EncTx(OP_START, NO_LSN, t)
    case End(t, prev) => EncTx(OP_END, prev, t)
    case Commit(t, prev) => EncTx(OP_COMMIT, prev, t)
    case Abort(t, prev) => EncTx(OP_ABORT, prev, t)
    case Update(t, prev, b, f, was, now) => EncChange(OP_SET + KindCode(f.kind), t, prev, b, f, was, now)
    case Compensation(t, prev, b, f, was, now, undo) =>
      EncChange(OP_COMPENSATION + KindCode(f.kind), t, prev, b, f, was, now) + I32(undo)
  }

  // ---------------------------------------------------------------- decoding

  /** What was read at a position, and the position behind it. */
  datatype Got<T> = Got(value: T, pos: nat) | Short

  function GetI32(b: Bytes, pos: nat): Got<int> {
    if pos + 4 <= |b| then Got(ToI32(b[pos..pos + 4]), pos + 4) else Short
  }

  function GetStr(b: Bytes, pos: nat): Got<Bytes> {
    var n := GetI32(b, pos);
    if n.Got? && 0 <= n.value && n.pos + n.value <= |b| then Got(b[n.pos..n.pos + n.value], n.pos + n.value) else Short
  }

  function GetBlock(b: Bytes, pos: nat): Got<BlockId> {
    var name := GetStr(b, pos);
    if name.Short? then Short
    else
      var n := GetI32(b, name.pos);
      if n.Short? then Short else Got(BlockId(name.value, n.value), n.pos)
  }

  function GetValue(b: Bytes, pos: nat, k: Kind): Got<Value> {
    match k
    case Int16Kind => if pos + 2 <= |b| then Got(Int16(ToI16(b[pos..pos + 2])), pos + 2) else Short
    case Int32Kind => var n := GetI32(b, pos); if n.Short? then Short else Got(Int32(n.value), n.pos)
    case StrKind => var s := GetStr(b, pos); if s.Short? then Short else Got(Str(s.value), s.pos)
    case BoolKind => if pos + 1 <= |b| then Got(Bool(b[pos] == 1), pos + 1) else Short
    case DateKind => if pos + 8 <= |b| then Got(Date(ToI64(b[pos..pos + 8])), pos + 8) else Short
  }

  function StatusOf(code: int): Status { if code == 0 then Running else if code == 1 then Committed else Aborting }

  /** `n` entries into the table, later ones winning. */
  function GetAtt(b: Bytes, pos: nat, n: nat, att: Att): Got<Att>
    decreases n
  {
    if n == 0 then Got(att, pos)
    else
      var t := GetI32(b, pos);
      if t.Short? then Short else
      var s := GetI32(b, t.pos);
      if s.Short? then Short else
      var l := GetI32(b, s.pos);
      if l.Short? then Short else
      GetAtt(b, l.pos, n - 1, att[t.value := AttEntry(StatusOf(s.value), l.value)])
  }

  function GetDpt(b: Bytes, pos: nat, n: nat, dpt: Dpt): Got<Dpt>
    decreases n
  {
    if n == 0 then Got(dpt, pos)
    else
      var k := GetBlock(b, pos);
      if k.Short? then Short else
      var l := GetI32(b, k.pos);
      if l.Short? then Short else
      GetDpt(b, l.pos, n - 1, dpt[k.value := l.value])
  }

  datatype Decoded = Decoded(rec: Record) | Unknown

  function DecodeTx(op: int, b: Bytes): Decoded {
    var prev := GetI32(b, 4);
    if prev.Short? then Unknown else
    var t := GetI32(b, prev.pos);
    if t.Short? then Unknown else
    Decoded(if op == OP_START then Start(t.value) else if op == OP_END then End(t.value, prev.value)
            else if op == OP_COMMIT then Commit(t.value, prev.value) else Abort(t.value, prev.value))
  }

  function DecodeChange(b: Bytes, k: Kind, clr: bool): Decoded {
    var prev := GetI32(b, 4);
    if prev.Short? then Unknown else
    var t := GetI32(b, prev.pos);
    if t.Short? then Unknown else
    var blk := GetBlock(b, t.pos);
    if blk.Short? then Unknown else
    var off := GetI32(b, blk.pos);
    if off.Short? then Unknown else
    var was := GetValue(b, off.pos, k);
    if was.Short? then Unknown else
    var now := GetValue(b, was.pos, k);
    if now.Short? then Unknown else
    if !clr then Decoded(Update(t.value, prev.value, blk.value, Field(off.value, k), was.value, now.value)) else
    var undo := GetI32(b, now.pos);
    if undo.Short? then Unknown else
    Decoded(Compensation(t.value, prev.value, blk.value, Field(off.value, k), was.value, now.value, undo.value))
  }

  function DecodeCheckpointEnd(b: Bytes): Decoded {
    var begin := GetI32(b, 4);
    if begin.Short? then Unknown else
    var n := GetI32(b, begin.pos);
    if n.Short? then Unknown else
    var att := GetAtt(b, n.pos, if n.value < 0 then 0 else n.value, map[]);
    if att.Short? then Unknown else
    var m := GetI32(b, att.pos);
    if m.Short? then Unknown else
    var dpt := GetDpt(b, m.pos, if m.value < 0 then 0 else m.value, map[]);
    if dpt.Short? then Unknown else
    Decoded(CheckpointEnd(begin.value, att.value, dpt.value))
  }

  /** Dispatch on the op code. */
  function CreateLogRecord(b: Bytes): Decoded {
    var op := GetI32(b, 0);
    if op.Short? then Unknown
    else if op.value == OP_CHECKPOINT_BEGIN then Decoded(CheckpointBegin)
    else if op.value == OP_CHECKPOINT_END then DecodeCheckpointEnd(b)
    else if OP_START <= op.value <= OP_ABORT then DecodeTx(op.value, b)
    else if OP_SET <= op.value < OP_COMPENSATION then DecodeChange(b, KindOf(op.value - OP_SET), false)
    else if OP_COMPENSATION <= op.value < OP_COMPENSATION + 5 then DecodeChange(b, KindOf(op.value - OP_COMPENSATION), true)
    else Unknown
  }

  // ---------------------------------------------------------------- reading what was put there

  /** `c` lies in `b` at position `pos`. */
  predicate At(b: Bytes, pos: nat, c: Bytes) { pos + |c| <= |b| && b[pos..pos + |c|] == c }

  lemma AtParts(b: Bytes, pos: nat, c: Bytes, d: Bytes)
    requires At(b, pos, c + d)
    ensures At(b, pos, c) && At(b, pos + |c|, d)
  {
    assert b[pos..pos + |c|] == b[pos..pos + |c + d|][..|c|];
    assert b[pos + |c|..pos + |c| + |d|] == b[pos..pos + |c + d|][|c|..];
  }

  lemma AtThree(b: Bytes, pos: nat, c: Bytes, d: Bytes, e: Bytes)
    requires At(b, pos, c + d + e)
    ensures At(b, pos, c) && At(b, pos + |c|, d) && At(b, pos + |c| + |d|, e)
  {
    AtParts(b, pos, c + d, e);
    AtParts(b, pos, c, d);
  }

  lemma AtFour(b: Bytes, pos: nat, c: Bytes, d: Bytes, e: Bytes, f: Bytes)
    requires At(b, pos, c + d + e + f)
    ensures At(b, pos, c) && At(b, pos + |c|, d) && At(b, pos + |c| + |d|, e) && At(b, pos + |c| + |d| + |e|, f)
  {
    AtParts(b, pos, c + d + e, f);
    AtThree(b, pos, c, d, e);
  }

  lemma ReadI32(b: Bytes, pos: nat, v: int)
    requires IsInt32(v) && At(b, pos, I32(v))
    ensures GetI32(b, pos) == Got(v, pos + 4)
  {
    I32RoundTrip(v);
  }

  lemma ReadStr(b: Bytes, pos: nat, s: Bytes)
    requires IsInt32(|s|) && At(b, pos, EncStr(s))
    ensures GetStr(b, pos) == Got(s, pos + 4 + |s|)
  {
    AtParts(b, pos, I32(|s|), s);
    ReadI32(b, pos, |s|);
  }

  lemma ReadBlock(b: Bytes, pos: nat, k: BlockId)
    requires FitsBlock(k) && At(b, pos, EncBlock(k))
    ensures GetBlock(b, pos) == Got(k, pos + |EncBlock(k)|)
  {
    AtParts(b, pos, EncStr(k.filename), I32(k.number));
    ReadStr(b, pos, k.filename);
    ReadI32(b, pos + |EncStr(k.filename)|, k.number);
  }

  lemma ReadValue(b: Bytes, pos: nat, v: Value)
    requires FitsValue(v) && At(b, pos, EncValue(v))
    ensures GetValue(b, pos, v.Kind()) == Got(v, pos + |EncValue(v)|)
  {
    match v
    case Int16(i) => I16RoundTrip(i);
    case Int32(i) => ReadI32(b, pos, i);
    case Str(s) => ReadStr(b, pos, s);
    case Bool(x) => assert b[pos..pos + 1][0] == b[pos];
    case Date(d) => I64RoundTrip(d);
  }

  lemma ReadTx(b: Bytes, op: int, prev: LSN, t: TxNum)
    requires IsInt32(op) && IsInt32(prev) && IsInt32(t) && At(b, 0, EncTx(op, prev, t))
    ensures GetI32(b, 0) == Got(op, 4) && GetI32(b, 4) == Got(prev, 8) && GetI32(b, 8) == Got(t, 12)
  {
    AtParts(b, 0, I32(op) + I32(prev), I32(t));
    AtParts(b, 0, I32(op), I32(prev));
    ReadI32(b, 0, op);
    ReadI32(b, 4, prev);
    ReadI32(b, 8, t);
  }

  /** Where the fields of a page change lie. */
  lemma ChangeParts(b: Bytes, op: int, t: TxNum, prev: LSN, k: BlockId, f: Field, was: Value, now: Value)
    requires IsInt32(op) && FitsChange(t, prev, k, f, was, now) && At(b, 0, EncChange(op, t, prev, k, f, was, now))
    ensures At(b, 0, EncTx(op, prev, t)) && At(b, 12, EncBlock(k)) && At(b, 12 + |EncBlock(k)|, I32(f.offset))
    ensures At(b, 16 + |EncBlock(k)|, EncValue(was)) && At(b, 16 + |EncBlock(k)| + |EncValue(was)|, EncValue(now))
    ensures |EncChange(op, t, prev, k, f, was, now)| == 16 + |EncBlock(k)| + |EncValue(was)| + |EncValue(now)|
  {
    var head, blk, off, x, y := EncTx(op, prev, t), EncBlock(k), I32(f.offset), EncValue(was), EncValue(now);
    AtParts(b, 0, head + blk + off + x, y);
    AtFour(b, 0, head, blk, off, x);
  }

  function ValueCode(v: Value): int {
    match v
    case Int16(_) => 0
    case Int32(_) => 1
    case Str(_) => 2
    case Bool(_) => 3
    case Date(_) => 4
  }

  /** The head of a record of a transaction: op code, LSN of the record before, transaction. */
  predicate HeadAt(b: Bytes, op: int, prev: LSN, t: TxNum) {
    && IsInt32(op) && IsInt32(prev) && IsInt32(t)
    && At(b, 0, I32(op)) && At(b, 4, I32(prev)) && At(b, 8, I32(t))
  }

  /** A block at a position: length and bytes of its file name, then its number. */
  predicate BlockAt(b: Bytes, pos: nat, k: BlockId) {
    && FitsBlock(k) && At(b, pos, I32(|k.filename|)) && At(b, pos + 4, k.filename)
    && At(b, pos + 4 + |k.filename|, I32(k.number))
  }

  /** Block, offset, old and new value behind the head, with nothing in between; `end` is behind the new value. */
  predicate ChangeAt(b: Bytes, k: BlockId, f: Field, was: Value, now: Value, end: nat) {
    && BlockAt(b, 12, k) && IsInt32(f.offset) && FitsValue(was) && FitsValue(now)
    && var pos := 20 + |k.filename|;
    && At(b, pos, I32(f.offset)) && At(b, pos + 4, EncValue(was)) && At(b, pos + 4 + |EncValue(was)|, EncValue(now))
    && end == pos + 4 + |EncValue(was)| + |EncValue(now)|
  }

  /** Where the parts of each kind of record lie, with the op codes in numbers. */
  predicate LaysOut(b: Bytes, r: Record) {
    match r
    case CheckpointBegin => At(b, 0, I32(0)) && |b| == 4
    case CheckpointEnd(begin, att, dpt) =>
      && IsInt32(begin) && IsInt32(|att|) && At(b, 0, I32(1)) && At(b, 4, I32(begin)) && At(b, 8, I32(|att|))
    case Start(t) => HeadAt(b, 2, -1, t) && |b| == 12
    case End(t, prev) => HeadAt(b, 3, prev, t) && |b| == 12
    case Commit(t, prev) => HeadAt(b, 4, prev, t) && |b| == 12
    case Abort(t, prev) => HeadAt(b, 5, prev, t) && |b| == 12
    case Update(t, prev, k, f, was, now) => HeadAt(b, 6 + ValueCode(now), prev, t) && ChangeAt(b, k, f, was, now, |b|)
    case Compensation(t, prev, k, f, was, now, undo) =>
      && HeadAt(b, 11 + ValueCode(now), prev, t) && |b| >= 4 && ChangeAt(b, k, f, was, now, |b| - 4)
      && IsInt32(undo) && At(b, |b| - 4, I32(undo))
  }

  lemma TxLayout(b: Bytes, op: int, prev: LSN, t: TxNum)
    requires IsInt32(op) && IsInt32(prev) && IsInt32(t) && At(b, 0, EncTx(op, prev, t))
    ensures HeadAt(b, op, prev, t)
  {
    AtThree(b, 0, I32(op), I32(prev), I32(t));
  }

  lemma BlockLayout(b: Bytes, pos: nat, k: BlockId)
    requires FitsBlock(k) && At(b, pos, EncBlock(k))
    ensures BlockAt(b, pos, k)
  {
    AtThree(b, pos, I32(|k.filename|), k.filename, I32(k.number));
  }

  lemma ChangeLayout(b: Bytes, op: int, t: TxNum, prev: LSN, k: BlockId, f: Field, was: Value, now: Value)
    requires IsInt32(op) && FitsChange(t, prev, k, f, was, now) && At(b, 0, EncChange(op, t, prev, k, f, was, now))
    ensures HeadAt(b, op, prev, t) && ChangeAt(b, k, f, was, now, |EncChange(op, t, prev, k, f, was, now)|)
  {
    ChangeParts(b, op, t, prev, k, f, was, now);
    TxLayout(b, op, prev, t);
    BlockLayout(b, 12, k);
  }

  /** The encoding has the layout of the source, byte for byte. */
  lemma RecordLayout(r: Record, atts: seq<TxNum>, dpts: seq<BlockId>)
    requires Fits(r)
    requires r.CheckpointEnd? ==> Enumerates(atts, r.att.Keys) && Enumerates(dpts, r.dpt.Keys)
    ensures LaysOut(Encode(r, atts, dpts), r)
  {
    var b := Encode(r, atts, dpts);
    ReadWhole(b);
    match r
    case CheckpointBegin =>
    case CheckpointEnd(begin, att, dpt) =>
      CheckpointEndParts(b, I32(OP_CHECKPOINT_END), I32(begin), I32(|att|), EncAtt(att, atts), I32(|dpt|), EncDpt(dpt, dpts));
    case Start(t) => TxLayout(b, OP_START, NO_LSN, t);
    case End(t, prev) => TxLayout(b, OP_END, prev, t);
    case Commit(t, prev) => TxLayout(b, OP_COMMIT, prev, t);
    case Abort(t, prev) => TxLayout(b, OP_ABORT, prev, t);
    case Update(t, prev, k, f, was, now) => ChangeLayout(b, OP_SET + KindCode(f.kind), t, prev, k, f, was, now);
    case Compensation(t, prev, k, f, was, now, undo) => CompensationLayout(r);
  }

  lemma CompensationLayout(r: Record)
    requires Fits(r) && r.Compensation?
    ensures LaysOut(Encode(r, [], []), r)
  {
    var b, op := Encode(r, [], []), OP_COMPENSATION + KindCode(r.fld.kind);
    ReadWhole(b);
    AtParts(b, 0, EncChange(op, r.txnum, r.prevLSN, r.blk, r.fld, r.oldVal, r.newVal), I32(r.undoNextLSN));
    ChangeLayout(b, op, r.txnum, r.prevLSN, r.blk, r.fld, r.oldVal, r.newVal);
  }

  lemma ReadChange(b: Bytes, op: int, t: TxNum, prev: LSN, k: BlockId, f: Field, was: Value, now: Value)
    requires IsInt32(op) && FitsChange(t, prev, k, f, was, now) && At(b, 0, EncChange(op, t, prev, k, f, was, now))
    ensures GetI32(b, 0) == Got(op, 4)
    ensures DecodeChange(b, f.kind, false) == Decoded(Update(t, prev, k, f, was, now))
    ensures var end := |EncChange(op, t, prev, k, f, was, now)|;
            DecodeChange(b, f.kind, true) ==
            (if GetI32(b, end).Short? then Unknown
             else Decoded(Compensation(t, prev, k, f, was, now, GetI32(b, end).value)))
  {
    ChangeParts(b, op, t, prev, k, f, was, now);
    ReadTx(b, op, prev, t);
    ReadBlock(b, 12, k);
    ReadI32(b, 12 + |EncBlock(k)|, f.offset);
    ReadValue(b, 16 + |EncBlock(k)|, was);
    ReadValue(b, 16 + |EncBlock(k)| + |EncValue(was)|, now);
  }

  // ---------------------------------------------------------------- the maps of CHECKPOINT-END

  lemma {:induction false} GetAttLast(b: Bytes, pos: nat, n: nat, att: Att)
    ensures GetAtt(b, pos, n + 1, att) ==
            var g := GetAtt(b, pos, n, att); if g.Short? then Short else GetAtt(b, g.pos, 1, g.value)
    decreases n
  {
    if n > 0 {
      var t := GetI32(b, pos);
      if t.Got? {
        var s := GetI32(b, t.pos);
        if s.Got? {
          var l := GetI32(b, s.pos);
          if l.Got? { GetAttLast(b, l.pos, n - 1, att[t.value := AttEntry(StatusOf(s.value), l.value)]); }
        }
      }
    }
  }

  lemma {:induction false} GetDptLast(b: Bytes, pos: nat, n: nat, dpt: Dpt)
    ensures GetDpt(b, pos, n + 1, dpt) ==
            var g := GetDpt(b, pos, n, dpt); if g.Short? then Short else GetDpt(b, g.pos, 1, g.value)
    decreases n
  {
    if n > 0 {
      var k := GetBlock(b, pos);
      if k.Got? {
        var l := GetI32(b, k.pos);
        if l.Got? { GetDptLast(b, l.pos, n - 1, dpt[k.value := l.value]); }
      }
    }
  }

  /** The entries of the listed keys. */
  function ListedAtt(att: Att, order: seq<TxNum>): Att
    requires forall t | t in order :: t in att
  {
    map t | t in order :: att[t]
  }

  function ListedDpt(dpt: Dpt, order: seq<BlockId>): Dpt
    requires forall k | k in order :: k in dpt
  {
    map k | k in order :: dpt[k]
  }

  lemma ListedAttSnoc(att: Att, order: seq<TxNum>)
    requires order != [] && forall t | t in order :: t in att
    ensures var n := |order| - 1;
            && (forall t | t in order[..n] :: t in att) && order[n] in att
            && ListedAtt(att, order) == ListedAtt(att, order[..n])[order[n] := att[order[n]]]
  {
    var n := |order| - 1;
    assert order == order[..n] + [order[n]];
    var last := order[n];
    assert last in order;
    assert last in att;
    forall t | t in order[..n] ensures t in att { assert t in order; }
  }

  lemma ListedDptSnoc(dpt: Dpt, order: seq<BlockId>)
    requires order != [] && forall k | k in order :: k in dpt
    ensures var n := |order| - 1;
            && (forall k | k in order[..n] :: k in dpt) && order[n] in dpt
            && ListedDpt(dpt, order) == ListedDpt(dpt, order[..n])[order[n] := dpt[order[n]]]
  {
    var n := |order| - 1;
    assert order == order[..n] + [order[n]];
    assert order[n] in order;
    forall k | k in order[..n] ensures k in dpt { assert k in order; }
  }

  lemma ReadAttEntry(b: Bytes, pos: nat, t: TxNum, e: AttEntry, att: Att)
    requires IsInt32(t) && IsInt32(e.lastLSN)
    requires At(b, pos, I32(t)) && At(b, pos + 4, I32(StatusCode(e.status))) && At(b, pos + 8, I32(e.lastLSN))
    ensures GetAtt(b, pos, 1, att) == Got(att[t := e], pos + 12)
  {
    ReadI32(b, pos, t);
    ReadI32(b, pos + 4, StatusCode(e.status));
    ReadI32(b, pos + 8, e.lastLSN);
    assert GetAtt(b, pos + 12, 0, att[t := e]) == Got(att[t := e], pos + 12);
  }

  lemma ReadDptEntry(b: Bytes, pos: nat, k: BlockId, lsn: LSN, dpt: Dpt)
    requires FitsBlock(k) && IsInt32(lsn) && At(b, pos, EncBlock(k)) && At(b, pos + |EncBlock(k)|, I32(lsn))
    ensures GetDpt(b, pos, 1, dpt) == Got(dpt[k := lsn], pos + |EncBlock(k)| + 4)
  {
    ReadBlock(b, pos, k);
    ReadI32(b, pos + |EncBlock(k)|, lsn);
    assert GetDpt(b, pos + |EncBlock(k)| + 4, 0, dpt[k := lsn]) == Got(dpt[k := lsn], pos + |EncBlock(k)| + 4);
  }

  lemma {:induction false} ReadAtt(b: Bytes, pos: nat, att: Att, order: seq<TxNum>)
    requires FitsAtt(att) && (forall t | t in order :: t in att) && At(b, pos, EncAtt(att, order))
    ensures GetAtt(b, pos, |order|, map[]) == Got(ListedAtt(att, order), pos + |EncAtt(att, order)|)
  {
    if order == [] {
      assert ListedAtt(att, order) == map[];
    } else {
      var n := |order| - 1;
      var t := order[n];
      ListedAttSnoc(att, order);
      var rest := EncAtt(att, order[..n]);
      AtFour(b, pos, rest, I32(t), I32(StatusCode(att[t].status)), I32(att[t].lastLSN));
      ReadAtt(b, pos, att, order[..n]);
      ReadOneMoreTrx(b, pos, n, ListedAtt(att, order[..n]), pos + |rest|, t, att[t]);
    }
  }

  lemma ReadOneMoreTrx(b: Bytes, pos: nat, n: nat, before: Att, end: nat, t: TxNum, e: AttEntry)
    requires GetAtt(b, pos, n, map[]) == Got(before, end) && IsInt32(t) && IsInt32(e.lastLSN)
    requires At(b, end, I32(t)) && At(b, end + 4, I32(StatusCode(e.status))) && At(b, end + 8, I32(e.lastLSN))
    ensures GetAtt(b, pos, n + 1, map[]) == Got(before[t := e], end + 12)
  {
    ReadAttEntry(b, end, t, e, before);
    GetAttLast(b, pos, n, map[]);
  }

  lemma {:induction false} ReadDpt(b: Bytes, pos: nat, dpt: Dpt, order: seq<BlockId>)
    requires FitsDpt(dpt) && (forall k | k in order :: k in dpt) && At(b, pos, EncDpt(dpt, order))
    ensures GetDpt(b, pos, |order|, map[]) == Got(ListedDpt(dpt, order), pos + |EncDpt(dpt, order)|)
  {
    if order == [] {
      assert ListedDpt(dpt, order) == map[];
    } else {
      var n := |order| - 1;
      var k := order[n];
      ListedDptSnoc(dpt, order);
      var rest := EncDpt(dpt, order[..n]);
      AtThree(b, pos, rest, EncBlock(k), I32(dpt[k]));
      ReadDpt(b, pos, dpt, order[..n]);
      ReadOneMore(b, pos, n, ListedDpt(dpt, order[..n]), pos + |rest|, k, dpt[k]);
    }
  }

  lemma ReadOneMore(b: Bytes, pos: nat, n: nat, before: Dpt, end: nat, k: BlockId, lsn: LSN)
    requires GetDpt(b, pos, n, map[]) == Got(before, end)
    requires FitsBlock(k) && IsInt32(lsn) && At(b, end, EncBlock(k)) && At(b, end + |EncBlock(k)|, I32(lsn))
    ensures GetDpt(b, pos, n + 1, map[]) == Got(before[k := lsn], end + |EncBlock(k)| + 4)
  {
    ReadDptEntry(b, end, k, lsn, before);
    GetDptLast(b, pos, n, map[]);
  }

  lemma {:induction false} EnumerationLength<K(!new)>(order: seq<K>, keys: set<K>)
    requires Enumerates(order, keys)
    ensures |order| == |keys|
    decreases |order|
  {
    if order == [] {
      assert keys == {};
    } else {
      var n := |order| - 1;
      var k := order[n];
      assert order == order[..n] + [k];
      assert k in order;
      forall i | 0 <= i < n ensures order[i] != k {
      }
      forall x ensures x in order[..n] <==> x in keys - {k} {
        if x in order[..n] { assert x in order; }
        if x in keys - {k} { assert x in order; }
      }
      EnumerationLength(order[..n], keys - {k});
    }
  }

  /** The bytes of a CHECKPOINT-END given by the bytes of its parts. */
  lemma CheckpointEndParts(b: Bytes, op: Bytes, begin: Bytes, n: Bytes, a: Bytes, m: Bytes, d: Bytes)
    requires b == op + begin + n + a + m + d && |op| == |begin| == |n| == |m| == 4
    ensures At(b, 0, op) && At(b, 4, begin) && At(b, 8, n) && At(b, 12, a) && At(b, 12 + |a|, m) && At(b, 16 + |a|, d)
  {
    AtParts(b, 0, op + begin + n + a + m, d);
    AtParts(b, 0, op + begin + n + a, m);
    AtFour(b, 0, op, begin, n, a);
  }

  lemma ReadCheckpointParts(b: Bytes, begin: LSN, att: Att, dpt: Dpt, atts: seq<TxNum>, dpts: seq<BlockId>)
    requires IsInt32(begin) && FitsAtt(att) && FitsDpt(dpt)
    requires Enumerates(atts, att.Keys) && Enumerates(dpts, dpt.Keys)
    requires At(b, 4, I32(begin)) && At(b, 8, I32(|att|)) && At(b, 12, EncAtt(att, atts))
    requires At(b, 12 + |EncAtt(att, atts)|, I32(|dpt|)) && At(b, 16 + |EncAtt(att, atts)|, EncDpt(dpt, dpts))
    ensures DecodeCheckpointEnd(b) == Decoded(CheckpointEnd(begin, att, dpt))
  {
    var n := |EncAtt(att, atts)|;
    ReadI32(b, 4, begin);
    ReadI32(b, 8, |att|);
    EnumerationLength(atts, att.Keys);
    EnumerationLength(dpts, dpt.Keys);
    ReadAtt(b, 12, att, atts);
    ReadI32(b, 12 + n, |dpt|);
    ReadDpt(b, 16 + n, dpt, dpts);
    assert ListedAtt(att, atts) == att && ListedDpt(dpt, dpts) == dpt;
  }

  lemma ReadCheckpointEnd(r: Record, atts: seq<TxNum>, dpts: seq<BlockId>)
    requires Fits(r) && r.CheckpointEnd? && Enumerates(atts, r.att.Keys) && Enumerates(dpts, r.dpt.Keys)
    ensures GetI32(Encode(r, atts, dpts), 0) == Got(OP_CHECKPOINT_END, 4)
    ensures DecodeCheckpointEnd(Encode(r, atts, dpts)) == Decoded(r)
  {
    var b := Encode(r, atts, dpts);
    CheckpointEndParts(b, I32(OP_CHECKPOINT_END), I32(r.beginLSN), I32(|r.att|), EncAtt(r.att, atts), I32(|r.dpt|),
                       EncDpt(r.dpt, dpts));
    ReadI32(b, 0, OP_CHECKPOINT_END);
    ReadCheckpointParts(b, r.beginLSN, r.att, r.dpt, atts, dpts);
  }

  // ---------------------------------------------------------------- round trip

  lemma ReadWhole(b: Bytes)
    ensures At(b, 0, b)
  {
  }

  lemma ReadPlain(r: Record)
    requires Fits(r) && (r.CheckpointBegin? || r.Start? || r.End? || r.Commit? || r.Abort?)
    ensures CreateLogRecord(Encode(r, [], [])) == Decoded(r)
  {
    var b := Encode(r, [], []);
    ReadWhole(b);
    match r
    case CheckpointBegin => ReadI32(b, 0, OP_CHECKPOINT_BEGIN);
    case Start(t) => ReadTx(b, OP_START, NO_LSN, t);
    case End(t, prev) => ReadTx(b, OP_END, prev, t);
    case Commit(t, prev) => ReadTx(b, OP_COMMIT, prev, t);
    case Abort(t, prev) => ReadTx(b, OP_ABORT, prev, t);
    case _ =>
  }

  lemma ReadUpdate(r: Record)
    requires Fits(r) && r.Update?
    ensures CreateLogRecord(Encode(r, [], [])) == Decoded(r)
  {
    var b := Encode(r, [], []);
    ReadWhole(b);
    ReadChange(b, OP_SET + KindCode(r.fld.kind), r.txnum, r.prevLSN, r.blk, r.fld, r.oldVal, r.newVal);
  }

  lemma ReadClr(b: Bytes, op: int, t: TxNum, prev: LSN, k: BlockId, f: Field, was: Value, now: Value, undo: LSN)
    requires IsInt32(op) && FitsChange(t, prev, k, f, was, now) && IsInt32(undo)
    requires At(b, 0, EncChange(op, t, prev, k, f, was, now))
    requires At(b, |EncChange(op, t, prev, k, f, was, now)|, I32(undo))
    ensures GetI32(b, 0) == Got(op, 4)
    ensures DecodeChange(b, f.kind, true) == Decoded(Compensation(t, prev, k, f, was, now, undo))
  {
    ReadChange(b, op, t, prev, k, f, was, now);
    ReadI32(b, |EncChange(op, t, prev, k, f, was, now)|, undo);
  }

  lemma ReadCompensation(r: Record)
    requires Fits(r) && r.Compensation?
    ensures CreateLogRecord(Encode(r, [], [])) == Decoded(r)
  {
    var b := Encode(r, [], []);
    var op := OP_COMPENSATION + KindCode(r.fld.kind);
    ReadWhole(b);
    AtParts(b, 0, EncChange(op, r.txnum, r.prevLSN, r.blk, r.fld, r.oldVal, r.newVal), I32(r.undoNextLSN));
    ReadClr(b, op, r.txnum, r.prevLSN, r.blk, r.fld, r.oldVal, r.newVal, r.undoNextLSN);
  }

  /** Decoding inverts encoding for every kind of record, whatever order its maps were written in. */
  lemma CodecRoundTrip(r: Record, atts: seq<TxNum>, dpts: seq<BlockId>)
    requires Fits(r)
    requires r.CheckpointEnd? ==> Enumerates(atts, r.att.Keys) && Enumerates(dpts, r.dpt.Keys)
    ensures CreateLogRecord(Encode(r, atts, dpts)) == Decoded(r)
  {
    match r
    case CheckpointEnd(_, _, _) => ReadCheckpointEnd(r, atts, dpts);
    case Update(_, _, _, _, _, _) => ReadUpdate(r);
    case Compensation(_, _, _, _, _, _, _) => ReadCompensation(r);
    case _ => ReadPlain(r);
  }

  /** Different records never share their bytes. */
  lemma EncodingInjective(r: Record, atts: seq<TxNum>, dpts: seq<BlockId>, q: Record, atts': seq<TxNum>, dpts': seq<BlockId>)
    requires Fits(r) && (r.CheckpointEnd? ==> Enumerates(atts, r.att.Keys) && Enumerates(dpts, r.dpt.Keys))
    requires Fits(q) && (q.CheckpointEnd? ==> Enumerates(atts', q.att.Keys) && Enumerates(dpts', q.dpt.Keys))
    requires Encode(r, atts, dpts) == Encode(q, atts', dpts')
    ensures r == q
  {
    CodecRoundTrip(r, atts, dpts);
    CodecRoundTrip(q, atts', dpts');
  }
}

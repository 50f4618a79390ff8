/** Slotted pages and the scan over them. */
module TableScans {
  import opened Storage
  import opened ByteCodec
  import Pages
  import RecordCodec

  const EMPTY := 0
  const USED := 1

  /** The flags of the slots of each block. */
  type Blocks = seq<seq<int>>

  datatype Pos = Pos(blk: nat, slot: nat)

  // ---------------------------------------------------------------- slots of a block

  /** Slot `slot` lies completely behind the page header. */
  predicate IsValidSlot(blockSize: nat, slotSize: nat, slot: int) {
    (slot + 1) * slotSize <= blockSize - Pages.PAGE_HEADER_SIZE
  }

  /** How many slots a block has. */
  function SlotCount(blockSize: nat, slotSize: nat): nat
    requires slotSize > 0
  {
    if blockSize < Pages.PAGE_HEADER_SIZE then 0 else (blockSize - Pages.PAGE_HEADER_SIZE) / slotSize
  }

  lemma ProductMonotone(a: int, b: int, c: nat)
    requires a <= b
    ensures a * c <= b * c
  {
  }

  /** The valid slots are those below the slot count; a block has one exactly if a slot fits at all. */
  lemma ValidSlots(blockSize: nat, slotSize: nat, slot: nat)
    requires slotSize > 0
    ensures IsValidSlot(blockSize, slotSize, slot) <==> slot < SlotCount(blockSize, slotSize)
    ensures SlotCount(blockSize, slotSize) >= 1 <==> slotSize <= blockSize - Pages.PAGE_HEADER_SIZE
  {
    if blockSize >= Pages.PAGE_HEADER_SIZE {
      var room := blockSize - Pages.PAGE_HEADER_SIZE;
      var n := SlotCount(blockSize, slotSize);
      assert room == n * slotSize + room % slotSize;
      if slot < n { ProductMonotone(slot + 1, n, slotSize); }
      if slot >= n { ProductMonotone(n + 1, slot + 1, slotSize); }
      if n >= 1 { ProductMonotone(1, n, slotSize); }
    } else {
      ProductMonotone(1, slot + 1, slotSize);
    }
  }

  /** A block whose slots are all empty. */
  function Empties(n: nat): (flags: seq<int>)
    ensures |flags| == n && forall i | 0 <= i < n :: flags[i] == EMPTY
  {
    seq(n, _ => EMPTY)
  }

  // ---------------------------------------------------------------- used slots in order

  function UsedInBlock(flags: seq<int>, blk: nat, from: nat): seq<Pos>
    decreases |flags| - from
  {
    if from >= |flags| then []
    else (if flags[from] == USED then [Pos(blk, from)] else []) + UsedInBlock(flags, blk, from + 1)
  }

  function UsedFromBlock(blocks: Blocks, b: nat): seq<Pos>
    decreases |blocks| - b
  {
    if b >= |blocks| then [] else UsedInBlock(blocks[b], b, 0) + UsedFromBlock(blocks, b + 1)
  }

  /** The used slots behind a cursor. */
  function UsedAfter(blocks: Blocks, blk: nat, slot: int): seq<Pos>
    requires blk < |blocks| && slot >= -1
  {
    UsedInBlock(blocks[blk], blk, slot + 1) + UsedFromBlock(blocks, blk + 1)
  }

  predicate IsUsed(blocks: Blocks, p: Pos) {
    p.blk < |blocks| && p.slot < |blocks[p.blk]| && blocks[p.blk][p.slot] == USED
  }

  predicate Before(p: Pos, q: Pos) { p.blk < q.blk || (p.blk == q.blk && p.slot < q.slot) }

  lemma {:induction false} UsedInBlockFacts(flags: seq<int>, blk: nat, from: nat)
    ensures var u := UsedInBlock(flags, blk, from);
            && (forall p :: p in u <==> p.blk == blk && from <= p.slot < |flags| && flags[p.slot] == USED)
            && (forall i, j | 0 <= i < j < |u| :: Before(u[i], u[j]))
    decreases |flags| - from
  {
    if from < |flags| {
      UsedInBlockFacts(flags, blk, from + 1);
      var u, rest := UsedInBlock(flags, blk, from), UsedInBlock(flags, blk, from + 1);
      forall i, j | 0 <= i < j < |u| ensures Before(u[i], u[j]) {
        if flags[from] == USED {
          assert u[j] == rest[j - 1] && rest[j - 1] in rest;
          if i > 0 { assert u[i] == rest[i - 1]; }
        }
      }
    }
  }

  /** The list of used slots has each used slot once, in (block, slot) order. */
  lemma {:induction false} UsedFromBlockFacts(blocks: Blocks, b: nat)
    ensures var u := UsedFromBlock(blocks, b);
            && (forall p :: p in u <==> b <= p.blk && IsUsed(blocks, p))
            && (forall i, j | 0 <= i < j < |u| :: Before(u[i], u[j]))
    decreases |blocks| - b
  {
    if b < |blocks| {
      UsedFromBlockFacts(blocks, b + 1);
      UsedInBlockFacts(blocks[b], b, 0);
      var u, here, rest := UsedFromBlock(blocks, b), UsedInBlock(blocks[b], b, 0), UsedFromBlock(blocks, b + 1);
      forall i, j | 0 <= i < j < |u| ensures Before(u[i], u[j]) {
        if i < |here| { assert u[i] == here[i] && here[i] in here; } else { assert u[i] == rest[i - |here|]; }
        if j < |here| { assert u[j] == here[j]; } else { assert u[j] == rest[j - |here|] && rest[j - |here|] in rest; }
      }
    }
  }

  // ---------------------------------------------------------------- first empty slot

  datatype Found = At(pos: Pos) | Nowhere

  function EmptyInBlock(flags: seq<int>, blk: nat, from: nat): Found
    decreases |flags| - from
  {
    if from >= |flags| then Nowhere else if flags[from] == EMPTY then At(Pos(blk, from)) else EmptyInBlock(flags, blk, from + 1)
  }

  function EmptyFromBlock(blocks: Blocks, b: nat): Found
    decreases |blocks| - b
  {
    if b >= |blocks| then Nowhere
    else if EmptyInBlock(blocks[b], b, 0).At? then EmptyInBlock(blocks[b], b, 0)
    else EmptyFromBlock(blocks, b + 1)
  }

  /** The first empty slot behind a cursor. */
  function EmptyAfter(blocks: Blocks, blk: nat, slot: int): Found
    requires blk < |blocks| && slot >= -1
  {
    if EmptyInBlock(blocks[blk], blk, slot + 1).At? then EmptyInBlock(blocks[blk], blk, slot + 1)
    else EmptyFromBlock(blocks, blk + 1)
  }

  predicate IsEmpty(blocks: Blocks, p: Pos) {
    p.blk < |blocks| && p.slot < |blocks[p.blk]| && blocks[p.blk][p.slot] == EMPTY
  }

  lemma {:induction false} EmptyInBlockFacts(flags: seq<int>, blk: nat, from: nat)
    ensures var e := EmptyInBlock(flags, blk, from);
            if e.At? then e.pos.blk == blk && from <= e.pos.slot < |flags| && flags[e.pos.slot] == EMPTY
                          && forall s | from <= s < e.pos.slot :: flags[s] != EMPTY
            else forall s | from <= s < |flags| :: flags[s] != EMPTY
    decreases |flags| - from
  {
    if from < |flags| && flags[from] != EMPTY { EmptyInBlockFacts(flags, blk, from + 1); }
  }

  lemma {:induction false} EmptyFromBlockFacts(blocks: Blocks, b: nat)
    ensures var e := EmptyFromBlock(blocks, b);
            if e.At? then b <= e.pos.blk && IsEmpty(blocks, e.pos)
                          && forall p: Pos | b <= p.blk && IsEmpty(blocks, p) :: p == e.pos || Before(e.pos, p)
            else forall p: Pos | b <= p.blk :: !IsEmpty(blocks, p)
    decreases |blocks| - b
  {
    if b < |blocks| {
      EmptyInBlockFacts(blocks[b], b, 0);
      EmptyFromBlockFacts(blocks, b + 1);
    }
  }

  /** It is the first one: no empty slot lies between the cursor and it. */
  lemma EmptyAfterIsFirst(blocks: Blocks, blk: nat, slot: int)
    requires blk < |blocks| && slot >= -1
    ensures var e := EmptyAfter(blocks, blk, slot);
            if e.At? then IsEmpty(blocks, e.pos) && (e.pos.blk > blk || (e.pos.blk == blk && e.pos.slot > slot))
                          && forall p: Pos | IsEmpty(blocks, p) && (p.blk > blk || (p.blk == blk && p.slot > slot)) ::
                               p == e.pos || Before(e.pos, p)
            else forall p: Pos | IsEmpty(blocks, p) :: p.blk < blk || (p.blk == blk && p.slot <= slot)
  {
    EmptyInBlockFacts(blocks[blk], blk, slot + 1);
    EmptyFromBlockFacts(blocks, blk + 1);
  }

  // ---------------------------------------------------------------- the scan

  /** A table file: every block has the same number of slots. */
  class TableFile {
    const blockSize: nat
    const slotSize: nat
    var blocks: Blocks

    ghost predicate Valid()
      reads this
    {
      slotSize > 0 && forall b | 0 <= b < |blocks| :: |blocks[b]| == SlotCount(blockSize, slotSize)
    }

    constructor (blockSize: nat, slotSize: nat)
      requires slotSize > 0
      ensures Valid() && blocks == [] && this.blockSize == blockSize && this.slotSize == slotSize
    {
      this.blockSize, this.slotSize, blocks := blockSize, slotSize, [];
    }

    /** A new block, formatted: every slot empty. */
    method AppendFormatted() returns (b: nat)
      requires Valid()
      modifies this
      ensures Valid() && b == |old(blocks)|
      ensures blocks == old(blocks) + [Empties(SlotCount(blockSize, slotSize))]
    {
      b := |blocks|;
      var flags: seq<int> := [];
      var slot: nat := 0;
      ghost var n := SlotCount(blockSize, slotSize);
      ValidSlots(blockSize, slotSize, 0);
      while IsValidSlot(blockSize, slotSize, slot)
        invariant slot <= n && (IsValidSlot(blockSize, slotSize, slot) <==> slot < n)
        invariant flags == Empties(slot) && blocks == old(blocks)
        decreases n - slot
      {
        flags := flags + [EMPTY];
        slot := slot + 1;
        ValidSlots(blockSize, slotSize, slot);
      }
      assert slot == n;
      blocks := blocks + [flags];
    }

    method SetFlag(b: nat, slot: nat, flag: int)
      requires Valid() && b < |blocks| && slot < |blocks[b]|
      modifies this
      ensures Valid() && blocks == old(blocks)[b := old(blocks)[b][slot := flag]]
    {
      blocks := blocks[b := blocks[b][slot := flag]];
    }

    /** The first slot behind `slot` with the flag, or -1. */
    method SearchAfter(b: nat, slot: int, flag: int) returns (r: int)
      requires Valid() && b < |blocks| && slot >= -1
      ensures r == -1 ==> forall s | slot < s < |blocks[b]| :: blocks[b][s] != flag
      ensures r != -1 ==> slot < r < |blocks[b]| && blocks[b][r] == flag
                          && forall s | slot < s < r :: blocks[b][s] != flag
    {
      var s := slot + 1;
      ValidSlots(blockSize, slotSize, s);
      while IsValidSlot(blockSize, slotSize, s)
        invariant slot < s && (IsValidSlot(blockSize, slotSize, s) <==> s < |blocks[b]|)
        invariant forall k | slot < k < s && k < |blocks[b]| :: blocks[b][k] != flag
        decreases |blocks[b]| - s
      {
        if blocks[b][s] == flag { return s; }
        s := s + 1;
        ValidSlots(blockSize, slotSize, s);
      }
      r := -1;
    }
  }

  lemma {:induction false} UsedSkip(flags: seq<int>, blk: nat, from: int, end: int)
    requires 0 <= from <= end && forall s | from <= s < end && s < |flags| :: flags[s] != USED
    ensures UsedInBlock(flags, blk, from) == UsedInBlock(flags, blk, end)
    decreases end - from
  {
    if from < end { UsedSkip(flags, blk, from + 1, end); }
  }

  lemma {:induction false} EmptySkip(flags: seq<int>, blk: nat, from: int, end: int)
    requires 0 <= from <= end && forall s | from <= s < end && s < |flags| :: flags[s] != EMPTY
    ensures EmptyInBlock(flags, blk, from) == EmptyInBlock(flags, blk, end)
    decreases end - from
  {
    if from < end { EmptySkip(flags, blk, from + 1, end); }
  }

  class TableScan {
    const table: TableFile
    var blk: nat
    var currentslot: int

    ghost predicate Valid()
      reads this, table
    {
      table.Valid() && blk < |table.blocks| && -1 <= currentslot < |table.blocks[blk]|
    }

    constructor (table: TableFile)
      requires table.Valid()
      modifies table
      ensures this.table == table && Valid() && blk == 0 && currentslot == -1
      ensures table.blocks == if old(table.blocks) != [] then old(table.blocks)
                              else [Empties(SlotCount(table.blockSize, table.slotSize))]
    {
      this.table := table;
      blk, currentslot := 0, -1;
      new;
      if |table.blocks| == 0 { var b := table.AppendFormatted(); }
    }

    method MoveToBlock(b: nat)
      requires table.Valid() && b < |table.blocks|
      modifies this
      ensures Valid() && blk == b && currentslot == -1
    {
      blk, currentslot := b, -1;
    }

    method BeforeFirst()
      requires Valid()
      modifies this
      ensures Valid() && UsedAfter(table.blocks, blk, currentslot) == UsedFromBlock(table.blocks, 0)
    {
      MoveToBlock(0);
    }

    /** Move to the next used slot.  At the end the cursor stands before the last block's first slot. */
    method Next() returns (found: bool)
      requires Valid()
      modifies this
      ensures Valid()
      ensures found ==> currentslot >= 0
                        && UsedAfter(table.blocks, old(blk), old(currentslot)) ==
                           [Pos(blk, currentslot)] + UsedAfter(table.blocks, blk, currentslot)
      ensures !found ==> UsedAfter(table.blocks, old(blk), old(currentslot)) == []
                         && blk == |table.blocks| - 1 && currentslot == -1
    {
      currentslot := NextAfter();
      while currentslot < 0
        invariant Valid()
        invariant currentslot < 0 ==>
                    UsedAfter(table.blocks, old(blk), old(currentslot)) == UsedFromBlock(table.blocks, blk + 1)
        invariant currentslot >= 0 ==>
                    UsedAfter(table.blocks, old(blk), old(currentslot)) ==
                    [Pos(blk, currentslot)] + UsedAfter(table.blocks, blk, currentslot)
        decreases |table.blocks| - blk, if currentslot < 0 then 1 else 0
      {
        if blk == |table.blocks| - 1 { return false; }
        MoveToBlock(blk + 1);
        currentslot := NextAfter();
      }
      found := true;
    }

    method NextAfter() returns (r: int)
      requires Valid()
      ensures -1 <= r < |table.blocks[blk]|
      ensures r == -1 ==> UsedAfter(table.blocks, blk, currentslot) == UsedFromBlock(table.blocks, blk + 1)
      ensures r >= 0 ==> UsedAfter(table.blocks, blk, currentslot) == [Pos(blk, r)] + UsedAfter(table.blocks, blk, r)
    {
      r := table.SearchAfter(blk, currentslot, USED);
      ghost var flags := table.blocks[blk];
      UsedSkip(flags, blk, currentslot + 1, if r == -1 then |flags| else r);
    }

    /** Mark the first empty slot behind the cursor used and move there; without one, the first slot of a
        new block. */
    method Insert()
      requires Valid() && table.slotSize <= table.blockSize - Pages.PAGE_HEADER_SIZE
      modifies this, table
      ensures Valid() && currentslot >= 0
      ensures Inserted(old(table.blocks), table.blocks, EmptyAfter(old(table.blocks), old(blk), old(currentslot)),
                       Pos(blk, currentslot), SlotCount(table.blockSize, table.slotSize))
    {
      ghost var was := table.blocks;
      ghost var e := EmptyAfter(was, blk, currentslot);
      ValidSlots(table.blockSize, table.slotSize, 0);
      var grown := false;
      currentslot := FindEmpty();
      while currentslot < 0
        invariant Valid()
        invariant !grown ==> table.blocks == was && e == (if currentslot < 0 then EmptyFromBlock(was, blk + 1) else At(Pos(blk, currentslot)))
        invariant grown ==> e == Nowhere && currentslot == 0 && blk == |was|
                            && table.blocks == was + [Empties(SlotCount(table.blockSize, table.slotSize))]
        decreases |table.blocks| - blk, if currentslot < 0 then 1 else 0
      {
        if blk == |table.blocks| - 1 {
          var b := table.AppendFormatted();
          grown := true;
          MoveToBlock(b);
        } else {
          MoveToBlock(blk + 1);
        }
        currentslot := FindEmpty();
      }
      table.SetFlag(blk, currentslot, USED);
    }

    method FindEmpty() returns (r: int)
      requires Valid()
      ensures -1 <= r < |table.blocks[blk]|
      ensures r == -1 ==> EmptyInBlock(table.blocks[blk], blk, currentslot + 1) == Nowhere
      ensures r >= 0 ==> EmptyInBlock(table.blocks[blk], blk, currentslot + 1) == At(Pos(blk, r))
    {
      r := table.SearchAfter(blk, currentslot, EMPTY);
      ghost var flags := table.blocks[blk];
      EmptySkip(flags, blk, currentslot + 1, if r == -1 then |flags| else r);
    }

    method Delete()
      requires Valid() && currentslot >= 0
      modifies table
      ensures Valid() && table.blocks == old(table.blocks)[blk := old(table.blocks)[blk][currentslot := EMPTY]]
    {
      table.SetFlag(blk, currentslot, EMPTY);
    }
  }

  /** Exactly one slot was marked: the first empty one, else the first of one new block. */
  ghost predicate Inserted(was: Blocks, now: Blocks, e: Found, at: Pos, slots: nat) {
    if e.At? then at == e.pos && at.blk < |was| && at.slot < |was[at.blk]| && now == was[at.blk := was[at.blk][at.slot := USED]]
    else at == Pos(|was|, 0) && slots > 0 && now == was + [Empties(slots)[0 := USED]]
  }

  /** A whole scan visits the used slots, each once, in (block, slot) order. */
  method ScanAll(scan: TableScan) returns (visited: seq<Pos>)
    requires scan.Valid()
    modifies scan
    ensures visited == UsedFromBlock(scan.table.blocks, 0)
    ensures forall p :: p in visited <==> IsUsed(scan.table.blocks, p)
    ensures forall i, j | 0 <= i < j < |visited| :: Before(visited[i], visited[j])
  {
    ghost var all := UsedFromBlock(scan.table.blocks, 0);
    visited := [];
    scan.BeforeFirst();
    var more := scan.Next();
    while more
      invariant scan.Valid() && (more ==> scan.currentslot >= 0)
      invariant more ==> all == visited + [Pos(scan.blk, scan.currentslot)]
                                + UsedAfter(scan.table.blocks, scan.blk, scan.currentslot)
      invariant !more ==> all == visited
      decreases |all| - |visited|, if more then 1 else 0
    {
      visited := visited + [Pos(scan.blk, scan.currentslot)];
      more := scan.Next();
    }
    UsedFromBlockFacts(scan.table.blocks, 0);
  }

  // ---------------------------------------------------------------- field layout

  datatype FieldType = Integer | SmallInt | Varchar(length: nat) | Boolean | Timestamp

  function LengthInBytes(t: FieldType): nat {
    match t
    case Integer => 4
    case SmallInt => 2
    case Varchar(n) => 4 + n
    case Boolean => 1
    case Timestamp => 8
  }

  /** Field names in the order they were added, and what is known of each.  A name can be added twice: it is
      then listed twice, and what was said last holds. */
  datatype Schema = Schema(fields: seq<string>, info: map<string, FieldType>) {
    ghost predicate Valid() { forall name :: name in fields <==> name in info }

    function AddField(name: string, t: FieldType): (s: Schema)
      requires Valid()
      ensures s.Valid() && name in s.info && s.info[name] == t
      ensures forall other | other != name :: other in s.info <==> other in info
      ensures forall other | other != name && other in info :: s.info[other] == info[other]
    {
      Schema(fields + [name], info[name := t])
    }
  }

  /** The values a field of this type takes; a string has at most as many bytes as were declared. */
  predicate OfType(v: Value, t: FieldType) {
    && RecordCodec.FitsValue(v)
    && match t
       case Integer => v.Int32?
       case SmallInt => v.Int16?
       case Varchar(n) => v.Str? && |v.str| <= n
       case Boolean => v.Bool?
       case Timestamp => v.Date?
  }

  /** The bytes a page keeps for a value. */
  function Stored(v: Value): Bytes
    requires RecordCodec.FitsValue(v)
  {
    RecordCodec.EncValue(v)
  }

  /** A field is long enough for each of its values, and no longer than its longest value. */
  lemma LengthIsTight(t: FieldType)
    requires t.Varchar? ==> IsInt32(t.length)
    ensures forall v | OfType(v, t) :: |Stored(v)| <= LengthInBytes(t)
    ensures exists v :: OfType(v, t) && |Stored(v)| == LengthInBytes(t)
  {
    var v := match t
             case Integer => Int32(0)
             case SmallInt => Int16(0)
             case Varchar(n) => Str(seq(n, _ => 0))
             case Boolean => Bool(false)
             case Timestamp => Date(0);
    assert OfType(v, t) && |Stored(v)| == LengthInBytes(t);
  }

  function LengthAt(schema: Schema, i: nat): nat
    requires i < |schema.fields|
  {
    if schema.fields[i] in schema.info then LengthInBytes(schema.info[schema.fields[i]]) else 0
  }

  /** What the first `n` entries of the schema take. */
  function TotalLength(schema: Schema, n: nat): nat
    requires n <= |schema.fields|
  {
    if n == 0 then 0 else TotalLength(schema, n - 1) + LengthAt(schema, n - 1)
  }

  /** A field lies behind the flag and before `end`. */
  predicate FieldInside(t: FieldType, offset: nat, end: nat) {
    4 <= offset && offset + LengthInBytes(t) <= end
  }

  predicate FieldsDisjoint(t: FieldType, offset: nat, u: FieldType, other: nat) {
    offset + LengthInBytes(t) <= other || other + LengthInBytes(u) <= offset
  }

  /** Where the fields of a slot lie: behind the flag, inside the slot, and apart from each other. */
  ghost predicate FieldsApart(schema: Schema, offsets: map<string, nat>, slotSize: nat)
    requires offsets.Keys <= schema.info.Keys
  {
    && (forall f | f in offsets :: FieldInside(schema.info[f], offsets[f], slotSize))
    && (forall f, g | f in offsets && g in offsets && f != g ::
          FieldsDisjoint(schema.info[f], offsets[f], schema.info[g], offsets[g]))
  }

  /** A value in its field lies behind the flag and inside the slot. */
  predicate ValueInside(schema: Schema, offsets: map<string, nat>, slotSize: nat, f: string, v: Value) {
    f in offsets && f in schema.info && OfType(v, schema.info[f]) ==>
      4 <= offsets[f] && offsets[f] + |Stored(v)| <= slotSize
  }

  predicate ValuesDisjoint(schema: Schema, offsets: map<string, nat>, f: string, v: Value, g: string, w: Value) {
    f in offsets && g in offsets && f != g
    && f in schema.info && g in schema.info && OfType(v, schema.info[f]) && OfType(w, schema.info[g]) ==>
      offsets[f] + |Stored(v)| <= offsets[g] || offsets[g] + |Stored(w)| <= offsets[f]
  }

  /** The bytes of any two values in different fields do not meet, nor do they meet the flag or the next slot. */
  ghost predicate ValuesApart(schema: Schema, offsets: map<string, nat>, slotSize: nat) {
    && (forall f, v :: ValueInside(schema, offsets, slotSize, f, v))
    && (forall f, v, g, w :: ValuesDisjoint(schema, offsets, f, v, g, w))
  }

  lemma StoredFits(v: Value, t: FieldType)
    requires OfType(v, t)
    ensures |Stored(v)| <= LengthInBytes(t)
  {
  }

  lemma ApartForValues(schema: Schema, offsets: map<string, nat>, slotSize: nat)
    requires offsets.Keys <= schema.info.Keys && FieldsApart(schema, offsets, slotSize)
    ensures ValuesApart(schema, offsets, slotSize)
  {
    forall f, v ensures ValueInside(schema, offsets, slotSize, f, v) {
      if f in offsets && OfType(v, schema.info[f]) {
        StoredFits(v, schema.info[f]);
        assert FieldInside(schema.info[f], offsets[f], slotSize);
      }
    }
    forall f, v, g, w ensures ValuesDisjoint(schema, offsets, f, v, g, w) {
      if f in offsets && g in offsets && f != g && OfType(v, schema.info[f]) && OfType(w, schema.info[g]) {
        StoredFits(v, schema.info[f]);
        StoredFits(w, schema.info[g]);
        assert FieldsDisjoint(schema.info[f], offsets[f], schema.info[g], offsets[g]);
      }
    }
  }

  /** Writing a value into its field of the slot at `base` of a page: it can be read there, every other field, the
      flag and everything outside the slot keep their bytes. */
  lemma FieldWrite(schema: Schema, offsets: map<string, nat>, slotSize: nat, img: Bytes, base: nat, f: string, v: Value,
                   g: string, w: Value)
    requires ValuesApart(schema, offsets, slotSize) && base + slotSize <= |img|
    requires offsets.Keys <= schema.info.Keys
    requires f in offsets && OfType(v, schema.info[f]) && g in offsets && g != f && OfType(w, schema.info[g])
    requires RecordCodec.At(img, base + offsets[g], Stored(w))
    ensures 4 <= slotSize && base + offsets[f] + |Stored(v)| <= |img|
    ensures var img' := Splice(img, base + offsets[f], Stored(v));
            && RecordCodec.At(img', base + offsets[f], Stored(v)) && RecordCodec.At(img', base + offsets[g], Stored(w))
            && img'[0..base + 4] == img[0..base + 4] && img'[base + slotSize..|img|] == img[base + slotSize..|img|]
  {
    ValueRanges(schema, offsets, slotSize, f, v, g, w);
    var at, other := base + offsets[f], base + offsets[g];
    SpliceThere(img, at, Stored(v));
    SpliceElsewhere(img, at, Stored(v), other, other + |Stored(w)|);
    SpliceElsewhere(img, at, Stored(v), 0, base + 4);
    SpliceElsewhere(img, at, Stored(v), base + slotSize, |img|);
  }

  lemma ValueRanges(schema: Schema, offsets: map<string, nat>, slotSize: nat, f: string, v: Value, g: string, w: Value)
    requires offsets.Keys <= schema.info.Keys && ValuesApart(schema, offsets, slotSize)
    requires f in offsets && OfType(v, schema.info[f]) && g in offsets && g != f && OfType(w, schema.info[g])
    ensures 4 <= offsets[f] && offsets[f] + |Stored(v)| <= slotSize
    ensures 4 <= offsets[g] && offsets[g] + |Stored(w)| <= slotSize
    ensures offsets[f] + |Stored(v)| <= offsets[g] || offsets[g] + |Stored(w)| <= offsets[f]
  {
    assert ValueInside(schema, offsets, slotSize, f, v) && ValueInside(schema, offsets, slotSize, g, w);
    assert ValuesDisjoint(schema, offsets, f, v, g, w);
  }

  predicate LastOfName(fields: seq<string>, i: nat, n: nat)
    requires i < n <= |fields|
  {
    forall j | i < j < n :: fields[j] != fields[i]
  }

  /** Entry `i`, unless its name comes again, lies behind the entries before it. */
  predicate EntryPlaced(schema: Schema, offsets: map<string, nat>, n: nat, i: nat)
    requires n <= |schema.fields|
  {
    i < n && LastOfName(schema.fields, i, n) ==>
      schema.fields[i] in offsets && offsets[schema.fields[i]] == 4 + TotalLength(schema, i)
  }

  /** The first `n` entries lie one behind the other in the order of the schema; of a name added twice the last
      place holds. */
  ghost predicate InOrder(schema: Schema, offsets: map<string, nat>, n: nat)
    requires n <= |schema.fields|
  {
    forall i: nat :: EntryPlaced(schema, offsets, n, i)
  }

  lemma NextInOrder(schema: Schema, offsets: map<string, nat>, n: nat)
    requires n < |schema.fields| && InOrder(schema, offsets, n)
    ensures InOrder(schema, offsets[schema.fields[n] := 4 + TotalLength(schema, n)], n + 1)
  {
    var offsets', end := offsets[schema.fields[n] := 4 + TotalLength(schema, n)], n + 1;
    forall i: nat ensures EntryPlaced(schema, offsets', end, i) {
      if i < n && LastOfName(schema.fields, i, end) {
        StillLast(schema.fields, i, n);
        assert EntryPlaced(schema, offsets, n, i);
      }
    }
  }

  lemma StillLast(fields: seq<string>, i: nat, n: nat)
    requires i < n < |fields| && LastOfName(fields, i, n + 1)
    ensures LastOfName(fields, i, n) && fields[n] != fields[i]
  {
  }

  /** The layout with one more field behind the others. */
  lemma NextApart(schema: Schema, offsets: map<string, nat>, pos: nat, f: string)
    requires pos >= 4 && offsets.Keys <= schema.info.Keys && f in schema.info && FieldsApart(schema, offsets, pos)
    ensures FieldsApart(schema, offsets[f := pos], pos + LengthInBytes(schema.info[f]))
  {
    var offsets' := offsets[f := pos];
    forall g | g in offsets && g != f ensures FieldsDisjoint(schema.info[g], offsets'[g], schema.info[f], pos) {
      assert FieldInside(schema.info[g], offsets[g], pos);
    }
  }

  /** The layout of the first `n` entries. */
  ghost predicate LaidOut(schema: Schema, offsets: map<string, nat>, pos: nat, n: nat)
    requires n <= |schema.fields|
  {
    && pos == 4 + TotalLength(schema, n) && offsets.Keys <= schema.info.Keys
    && (forall f :: f in offsets <==> f in schema.fields[..n])
    && FieldsApart(schema, offsets, pos) && InOrder(schema, offsets, n)
  }

  lemma NothingLaidOut(schema: Schema)
    ensures LaidOut(schema, map[], 4, 0)
  {
  }

  lemma NextLaidOut(schema: Schema, offsets: map<string, nat>, pos: nat, n: nat)
    requires schema.Valid() && n < |schema.fields| && LaidOut(schema, offsets, pos, n)
    ensures schema.fields[n] in schema.info
    ensures LaidOut(schema, offsets[schema.fields[n] := pos], pos + LengthInBytes(schema.info[schema.fields[n]]), n + 1)
  {
    assert schema.fields[n] in schema.fields;
    assert schema.fields[..n + 1] == schema.fields[..n] + [schema.fields[n]];
    NextInOrder(schema, offsets, n);
    NextApart(schema, offsets, pos, schema.fields[n]);
  }

  lemma AllLaidOut(schema: Schema, offsets: map<string, nat>, slotSize: nat)
    requires schema.Valid() && LaidOut(schema, offsets, slotSize, |schema.fields|)
    ensures offsets.Keys == schema.info.Keys && slotSize == 4 + TotalLength(schema, |schema.fields|)
    ensures FieldsApart(schema, offsets, slotSize) && ValuesApart(schema, offsets, slotSize)
    ensures InOrder(schema, offsets, |schema.fields|)
  {
    assert schema.fields[..|schema.fields|] == schema.fields;
    assert forall f :: f in offsets <==> f in schema.info;
    ApartForValues(schema, offsets, slotSize);
  }

  method NewLayOut(schema: Schema) returns (offsets: map<string, nat>, slotSize: nat)
    requires schema.Valid()
    ensures offsets.Keys == schema.info.Keys && slotSize == 4 + TotalLength(schema, |schema.fields|)
    ensures FieldsApart(schema, offsets, slotSize) && ValuesApart(schema, offsets, slotSize)
    ensures InOrder(schema, offsets, |schema.fields|)
  {
    offsets := map[];
    var pos: nat := 4;
    NothingLaidOut(schema);
    for i := 0 to |schema.fields|
      invariant LaidOut(schema, offsets, pos, i)
    {
      NextLaidOut(schema, offsets, pos, i);
      offsets := offsets[schema.fields[i] := pos];
      pos := pos + LengthInBytes(schema.info[schema.fields[i]]);
    }
    slotSize := pos;
    AllLaidOut(schema, offsets, slotSize);
  }
}

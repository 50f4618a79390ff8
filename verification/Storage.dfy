/** Blocks, typed field values and the field-level view of a page.

    The five kinds of logged value (int16, int32, string, bool, date) are the constructors of
    `Value`.  A field is an offset together with the kind of value kept there; distinct fields
    are taken not to overlap.  A page that was never written holds zero bytes, so an unwritten
    field reads as the zero of its kind. */
module Storage {
  newtype byte = x: int | 0 <= x < 256

  type Bytes = seq<byte>

  datatype BlockId = BlockId(filename: Bytes, number: int)

  datatype Kind = Int16Kind | Int32Kind | StrKind | BoolKind | DateKind

  datatype Value =
    | Int16(i16: int)
    | Int32(i32: int)
    | Str(str: Bytes)
    | Bool(b: bool)
    | Date(unixSeconds: int)
  {
    function Kind(): Kind {
      match this
      case Int16(_) => Int16Kind
      case Int32(_) => Int32Kind
      case Str(_) => StrKind
      case Bool(_) => BoolKind
      case Date(_) => DateKind
    }
  }

  function ZeroOf(k: Kind): Value {
    match k
    case Int16Kind => Int16(0)
    case Int32Kind => Int32(0)
    case StrKind => Str([])
    case BoolKind => Bool(false)
    case DateKind => Date(0)
  }

  datatype Field = Field(offset: int, kind: Kind)

  /** A data page: the LSN in its header and the fields written so far. */
  datatype PageImage = PageImage(lsn: int, fields: map<Field, Value>) {
    function Get(f: Field): Value {
      if f in fields then fields[f] else ZeroOf(f.kind)
    }

    function Put(f: Field, v: Value, newLsn: int): PageImage {
      PageImage(newLsn, fields[f := v])
    }
  }

  const BlankPage := PageImage(0, map[])

  type Disk = map<BlockId, PageImage>

  /** Reading a block that was never written gives a blank page. */
  function ReadPage(d: Disk, b: BlockId): PageImage {
    if b in d then d[b] else BlankPage
  }
}

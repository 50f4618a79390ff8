/** A page: a byte buffer read and written at offsets behind its header. */
module Pages {
  import opened Storage
  import opened ByteCodec

  const PAGE_HEADER_SIZE := 64

  function Zeros(n: nat): (z: Bytes)
    ensures |z| == n
  {
    seq(n, _ => 0)
  }

  class Page {
    const bb: array<byte>
    const headerSize: nat

    ghost function Image(): Bytes
      reads bb
    {
      bb[..]
    }

    /** A data page keeps a header in front of its contents. */
    constructor (blockSize: nat)
      ensures fresh(bb) && headerSize == PAGE_HEADER_SIZE && Image() == Zeros(blockSize)
    {
      bb := new byte[blockSize](_ => 0);
      headerSize := PAGE_HEADER_SIZE;
      new;
      assert bb[..] == Zeros(blockSize);
    }

    /** A log page has no header; its buffer starts with the given bytes. */
    constructor Log(b: Bytes)
      ensures fresh(bb) && headerSize == 0 && Image() == b
    {
      bb := new byte[|b|](i requires 0 <= i < |b| => b[i]);
      headerSize := 0;
      new;
      assert bb[..] == b;
    }

    method GetInt32(offset: nat) returns (v: int)
      requires headerSize + offset + 4 <= bb.Length
      ensures v == ToI32(Image()[headerSize + offset..headerSize + offset + 4])
    {
      v := ToI32(bb[headerSize + offset..headerSize + offset + 4]);
    }

    method SetInt32(offset: int, val: int) returns (ok: bool)
      requires IsInt32(val)
      modifies bb
      ensures ok == (offset >= 0 && headerSize + offset + 4 <= bb.Length)
      ensures Image() == if ok then Splice(old(Image()), headerSize + offset, I32(val)) else old(Image())
    {
      var at := headerSize + offset;
      if offset < 0 || at + 4 > bb.Length { return false; }
      var u := Unsigned(val, TWO_32);
      bb[at], bb[at + 1], bb[at + 2], bb[at + 3] :=
        (u % 256) as byte, (u / 256 % 256) as byte, (u / 256 / 256 % 256) as byte, (u / 256 / 256 / 256 % 256) as byte;
      FourBytes(u);
      assert bb[..] == Splice(old(bb[..]), at, I32(val));
      ok := true;
    }

    method GetInt16(offset: nat) returns (v: int)
      requires headerSize + offset + 2 <= bb.Length
      ensures v == ToI16(Image()[headerSize + offset..headerSize + offset + 2])
    {
      v := ToI16(bb[headerSize + offset..headerSize + offset + 2]);
    }

    method SetInt16(offset: int, val: int) returns (ok: bool)
      requires IsInt16(val)
      modifies bb
      ensures ok == (offset >= 0 && headerSize + offset + 2 <= bb.Length)
      ensures Image() == if ok then Splice(old(Image()), headerSize + offset, I16(val)) else old(Image())
    {
      var at := headerSize + offset;
      if offset < 0 || at + 2 > bb.Length { return false; }
      var u := Unsigned(val, TWO_16);
      bb[at], bb[at + 1] := (u % 256) as byte, (u / 256 % 256) as byte;
      assert Le(u, 2) == [(u % 256) as byte] + Le(u / 256, 1);
      assert bb[..] == Splice(old(bb[..]), at, I16(val));
      ok := true;
    }

    method SetBool(offset: int, val: bool) returns (ok: bool)
      modifies bb
      ensures ok == (offset >= 0 && headerSize + offset + 1 <= bb.Length)
      ensures Image() == if ok then Splice(old(Image()), headerSize + offset, BoolByte(val)) else old(Image())
    {
      var at := headerSize + offset;
      if offset < 0 || at + 1 > bb.Length { return false; }
      bb[at] := if val then 1 else 0;
      assert bb[..] == Splice(old(bb[..]), at, BoolByte(val));
      ok := true;
    }

    /** Dates are kept as 64-bit unix seconds. */
    method SetDate(offset: int, unix: int) returns (ok: bool)
      requires IsInt64(unix)
      modifies bb
      ensures ok == (offset >= 0 && headerSize + offset + 8 <= bb.Length)
      ensures Image() == if ok then Splice(old(Image()), headerSize + offset, I64(unix)) else old(Image())
    {
      var at := headerSize + offset;
      if offset < 0 || at + 8 > bb.Length { return false; }
      Copy(at, I64(unix));
      ok := true;
    }

    /** Overwrite the bytes from position `at` on. */
    method Copy(at: nat, c: Bytes)
      requires at + |c| <= bb.Length
      modifies bb
      ensures Image() == Splice(old(Image()), at, c)
    {
      ghost var was := bb[..];
      for i := 0 to |c|
        invariant forall k :: (0 <= k < at || at + i <= k < bb.Length) ==> bb[k] == was[k]
        invariant forall k :: 0 <= k < i ==> bb[at + k] == c[k]
      {
        bb[at + i] := c[i];
      }
      assert bb[..] == Splice(was, at, c);
    }

    /** The bytes behind a length prefix. */
    method GetBytes(offset: nat) returns (b: Bytes)
      requires headerSize + offset + 4 <= bb.Length
      requires 0 <= ToI32(Image()[headerSize + offset..headerSize + offset + 4]) <= bb.Length - headerSize - offset - 4
      ensures var at := headerSize + offset + 4;
              b == Image()[at..at + ToI32(Image()[at - 4..at])]
    {
      var n := GetInt32(offset);
      b := bb[headerSize + offset + 4..headerSize + offset + 4 + n];
    }

    method SetBytes(offset: int, b: Bytes) returns (ok: bool)
      requires IsInt32(|b|)
      modifies bb
      ensures ok == (offset >= 0 && headerSize + offset + 4 + |b| <= bb.Length)
      ensures Image() == if ok then Splice(old(Image()), headerSize + offset, I32(|b|) + b) else old(Image())
    {
      var at := headerSize + offset;
      if offset < 0 || at + 4 + |b| > bb.Length { return false; }
      ok := SetInt32(offset, |b|);
      Copy(at + 4, b);
      SpliceTwice(old(bb[..]), at, I32(|b|), b);
    }

    /** Reading a block from disk replaces the whole buffer. */
    method Fill(b: Bytes)
      requires |b| == bb.Length
      modifies bb
      ensures Image() == b
    {
      for i := 0 to |b|
        invariant bb[..i] == b[..i]
      {
        bb[i] := b[i];
      }
    }
  }

  lemma SpliceTwice(s: Bytes, at: nat, c: Bytes, d: Bytes)
    requires at + |c| + |d| <= |s|
    ensures Splice(Splice(s, at, c), at + |c|, d) == Splice(s, at, c + d)
  {
  }

  lemma FourBytes(u: nat)
    ensures Le(u, 4) == [(u % 256) as byte, (u / 256 % 256) as byte, (u / 256 / 256 % 256) as byte,
                         (u / 256 / 256 / 256 % 256) as byte]
  {
    assert Le(u, 4) == [(u % 256) as byte] + Le(u / 256, 3);
    assert Le(u / 256, 3) == [(u / 256 % 256) as byte] + Le(u / 256 / 256, 2);
    assert Le(u / 256 / 256, 2) == [(u / 256 / 256 % 256) as byte] + Le(u / 256 / 256 / 256, 1);
  }
}

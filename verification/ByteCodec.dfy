/** Fixed-width little-endian integers as bytes, and writing into the middle of a byte sequence. */
module ByteCodec {
  import opened Storage

  const TWO_16 := 0x1_0000
  const TWO_32 := 0x1_0000_0000
  const TWO_64 := 0x1_0000_0000_0000_0000

  predicate IsInt16(v: int) { -0x8000 <= v < 0x8000 }

  predicate IsInt32(v: int) { -0x8000_0000 <= v < 0x8000_0000 }

  predicate IsInt64(v: int) { -0x8000_0000_0000_0000 <= v < 0x8000_0000_0000_0000 }

  /** The low `n` bytes of `u`, lowest first. */
  function Le(u: nat, n: nat): (b: Bytes)
    ensures |b| == n
  {
    if n == 0 then [] else [(u % 256) as byte] + Le(u / 256, n - 1)
  }

  function FromLe(b: Bytes): nat {
    if b == [] then 0 else b[0] as nat + 256 * FromLe(b[1..])
  }

  function Pow256(n: nat): (p: nat)
    ensures p > 0
  {
    if n == 0 then 1 else 256 * Pow256(n - 1)
  }

  lemma {:induction false} LeRoundTrip(u: nat, n: nat)
    requires u < Pow256(n)
    ensures FromLe(Le(u, n)) == u
  {
    if n > 0 {
      LeRoundTrip(u / 256, n - 1);
      assert Le(u, n)[1..] == Le(u / 256, n - 1);
    }
  }

  lemma Widths()
    ensures Pow256(2) == TWO_16 && Pow256(4) == TWO_32 && Pow256(8) == TWO_64
  {
    assert Pow256(4) == 256 * 256 * Pow256(2);
    assert Pow256(6) == 256 * 256 * Pow256(4);
    assert Pow256(8) == 256 * 256 * Pow256(6);
  }

  /** Two's complement: the unsigned number stored for `v`, and the signed number read back. */
  function Unsigned(v: int, m: nat): nat
    requires m > 0 && 0 <= v + m && v < m
  {
    if v < 0 then v + m else v
  }

  function Signed(u: nat, m: nat): int {
    if u < m / 2 then u else u - m
  }

  function I16(v: int): (b: Bytes)
    requires IsInt16(v)
    ensures |b| == 2
  {
    Le(Unsigned(v, TWO_16), 2)
  }

  function I32(v: int): (b: Bytes)
    requires IsInt32(v)
    ensures |b| == 4
  {
    Le(Unsigned(v, TWO_32), 4)
  }

  function I64(v: int): (b: Bytes)
    requires IsInt64(v)
    ensures |b| == 8
  {
    Le(Unsigned(v, TWO_64), 8)
  }

  function BoolByte(v: bool): (b: Bytes)
    ensures |b| == 1
  {
    [if v then 1 else 0]
  }

  function ToI16(b: Bytes): int { Signed(FromLe(b), TWO_16) }

  function ToI32(b: Bytes): int { Signed(FromLe(b), TWO_32) }

  function ToI64(b: Bytes): int { Signed(FromLe(b), TWO_64) }

  /** The lowest byte comes first. */
  lemma {:induction false} LowestFirst(u: nat, n: nat, k: nat)
    requires k < n
    ensures Le(u, n)[k] as int == u / Pow256(k) % 256
  {
    if k > 0 {
      LowestFirst(u / 256, n - 1, k - 1);
      DivideTwice(u, Pow256(k - 1));
    }
  }

  /** Integers are kept lowest byte first, negative ones as two's complement. */
  lemma IntegersLowestFirst(v: int, k: nat)
    ensures IsInt16(v) && k < 2 ==> I16(v)[k] as int == (if v < 0 then v + TWO_16 else v) / Pow256(k) % 256
    ensures IsInt32(v) && k < 4 ==> I32(v)[k] as int == (if v < 0 then v + TWO_32 else v) / Pow256(k) % 256
    ensures IsInt64(v) && k < 8 ==> I64(v)[k] as int == (if v < 0 then v + TWO_64 else v) / Pow256(k) % 256
  {
    if IsInt16(v) && k < 2 { LowestFirst(Unsigned(v, TWO_16), 2, k); }
    if IsInt32(v) && k < 4 { LowestFirst(Unsigned(v, TWO_32), 4, k); }
    if IsInt64(v) && k < 8 { LowestFirst(Unsigned(v, TWO_64), 8, k); }
  }

  lemma DivideTwice(u: nat, p: nat)
    requires p > 0
    ensures 256 * p > 0 && u / 256 / p == u / (256 * p)
  {
    var q, r := u / 256 / p, u / 256 % p;
    assert u / 256 == p * q + r;
    assert 256 * (p * q) == (256 * p) * q;
    DivisionUnique(256 * p, q, 256 * r + u % 256);
  }

  lemma Multiple(d: nat, x: int)
    ensures x >= 1 ==> d * x >= d
    ensures x <= -1 ==> d * x + d <= 0
  {
    if x >= 1 { assert d * x == d + d * (x - 1); }
    if x <= -1 { assert d * x + d == d * (x + 1); }
  }

  lemma DivisionUnique(d: nat, q: nat, r: nat)
    requires r < d
    ensures (d * q + r) / d == q && (d * q + r) % d == r
  {
    var n := d * q + r;
    var x := n / d - q;
    assert n == d * (n / d) + n % d;
    assert d * (n / d) == d * q + d * x;
    Multiple(d, x);
  }

  lemma I16RoundTrip(v: int)
    requires IsInt16(v)
    ensures ToI16(I16(v)) == v
  {
    Widths();
    LeRoundTrip(Unsigned(v, TWO_16), 2);
  }

  lemma I32RoundTrip(v: int)
    requires IsInt32(v)
    ensures ToI32(I32(v)) == v
  {
    Widths();
    LeRoundTrip(Unsigned(v, TWO_32), 4);
  }

  lemma I64RoundTrip(v: int)
    requires IsInt64(v)
    ensures ToI64(I64(v)) == v
  {
    Widths();
    LeRoundTrip(Unsigned(v, TWO_64), 8);
  }

  /** `s` with the bytes from position `at` on overwritten by `c`. */
  function Splice(s: Bytes, at: nat, c: Bytes): (t: Bytes)
    requires at + |c| <= |s|
    ensures |t| == |s|
  {
    s[..at] + c + s[at + |c|..]
  }

  lemma SpliceElsewhere(s: Bytes, at: nat, c: Bytes, lo: nat, hi: nat)
    requires at + |c| <= |s| && lo <= hi <= |s| && (hi <= at || at + |c| <= lo)
    ensures Splice(s, at, c)[lo..hi] == s[lo..hi]
  {
  }

  lemma SpliceThere(s: Bytes, at: nat, c: Bytes)
    requires at + |c| <= |s|
    ensures Splice(s, at, c)[at..at + |c|] == c
  {
  }
}

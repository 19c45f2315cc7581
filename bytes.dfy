/**
 * Fixed-width unsigned integers and little-endian byte access.
 *
 * The loader overlays C structures on raw memory; every multi-byte field it
 * reads or writes is a little-endian integer of 2, 4 or 8 bytes. Here a buffer
 * is a sequence of bytes, a field read is `ReadLE` and a field write is
 * `Splice` of `ToLE`.
 */
module Bytes {

  type byte = b: int | 0 <= b < 0x100
  type u16 = x: int | 0 <= x < 0x1_0000
  type u32 = x: int | 0 <= x < 0x1_0000_0000
  type u64 = x: int | 0 <= x < 0x1_0000_0000_0000_0000

  const TWO_16: nat := 0x1_0000
  const TWO_32: nat := 0x1_0000_0000
  const TWO_64: nat := 0x1_0000_0000_0000_0000

  /** The value a 32-bit unsigned quantity takes when stored in a C `int`: two's complement. */
  function Int32(x: u32): (r: int)
    ensures -0x8000_0000 <= r < 0x8000_0000
    ensures r < 0 <==> x >= 0x8000_0000
    ensures r == x || r == x - TWO_32
  {
    if x < 0x8000_0000 then x else x - TWO_32
  }

  /** The value a 64-bit unsigned quantity takes when cast to a signed `INTN`: two's complement. */
  function Int64(x: u64): (r: int)
    ensures -0x8000_0000_0000_0000 <= r < 0x8000_0000_0000_0000
    ensures r < 0 <==> x >= 0x8000_0000_0000_0000
    ensures r == x || r == x - TWO_64
  {
    if x < 0x8000_0000_0000_0000 then x else x - TWO_64
  }

  /** 256 to the power n: one more than the largest n-byte value. */
  function Pow256(n: nat): (p: nat)
    ensures p > 0
  {
    if n == 0 then 1 else 256 * Pow256(n - 1)
  }

  lemma Pow256Values()
    ensures Pow256(2) == TWO_16 && Pow256(4) == TWO_32 && Pow256(8) == TWO_64
  {
    assert Pow256(1) == 256;
    assert Pow256(2) == 256 * 256;
    assert Pow256(3) == 256 * 256 * 256;
    assert Pow256(4) == 256 * 256 * 256 * 256;
  }

  /** The value of a little-endian byte string. */
  function FromLE(s: seq<byte>): (v: nat)
    ensures v < Pow256(|s|)
  {
    if s == [] then 0 else s[0] + 256 * FromLE(s[1..])
  }

  /** The n-byte little-endian encoding of v, truncated to n bytes as a C store is. */
  function ToLE(v: nat, n: nat): (s: seq<byte>)
    ensures |s| == n
  {
    if n == 0 then [] else [v % 256] + ToLE(v / 256, n - 1)
  }

  /** Division and remainder are determined by any decomposition v == m * k + t with 0 <= t < m. */
  lemma DivModUnique(v: nat, m: nat, k: nat, t: nat)
    requires m > 0 && 0 <= t < m && v == m * k + t
    ensures v / m == k && v % m == t
  {
    var q, r := v / m, v % m;
    assert m * q + r == m * k + t;
    if q > k {
      assert m * q >= m * (k + 1) by { MulMono(m, k + 1, q); }
      assert false;
    } else if q < k {
      assert m * k >= m * (q + 1) by { MulMono(m, q + 1, k); }
      assert false;
    }
  }

  lemma MulMono(m: nat, a: nat, b: nat)
    requires a <= b
    ensures m * a <= m * b
  {
  }

  lemma {:induction false} ModSplit(v: nat, p: nat)
    requires p > 0
    ensures v % (256 * p) == v % 256 + 256 * ((v / 256) % p)
  {
    var q := v / 256;
    var a, b := q / p, q % p;
    assert q == p * a + b;
    assert v == 256 * q + v % 256;
    assert v == (256 * p) * a + (256 * b + v % 256);
    assert 256 * b + v % 256 < 256 * p by { MulMono(256, b + 1, p); }
    DivModUnique(v, 256 * p, a, 256 * b + v % 256);
  }

  /** Decoding an encoding gives back the value modulo the field width. */
  lemma {:induction false} FromLEToLE(v: nat, n: nat)
    ensures FromLE(ToLE(v, n)) == v % Pow256(n)
  {
    if n > 0 {
      var s := ToLE(v, n);
      assert s[0] == v % 256 && s[1..] == ToLE(v / 256, n - 1);
      FromLEToLE(v / 256, n - 1);
      ModSplit(v, Pow256(n - 1));
    }
  }

  /** Encoding a decoded byte string at its own width gives back the bytes. */
  lemma {:induction false} ToLEFromLE(s: seq<byte>)
    ensures ToLE(FromLE(s), |s|) == s
  {
    if s != [] {
      var v := FromLE(s);
      DivModUnique(v, 256, FromLE(s[1..]), s[0]);
      ToLEFromLE(s[1..]);
    }
  }

  /** The field of n bytes at offset off. */
  function ReadLE(s: seq<byte>, off: nat, n: nat): (v: nat)
    requires off + n <= |s|
    ensures v < Pow256(n)
  {
    FromLE(s[off..off + n])
  }

  /** The 16-, 32- and 64-bit little-endian fields at offset off. */
  function U16At(s: seq<byte>, off: nat): u16
    requires off + 2 <= |s|
  {
    Pow256Values();
    ReadLE(s, off, 2)
  }

  function U32At(s: seq<byte>, off: nat): u32
    requires off + 4 <= |s|
  {
    Pow256Values();
    ReadLE(s, off, 4)
  }

  function U64At(s: seq<byte>, off: nat): u64
    requires off + 8 <= |s|
  {
    Pow256Values();
    ReadLE(s, off, 8)
  }

  /** s with the bytes from off on replaced by bs: what a store or CopyMem leaves behind. */
  function Splice(s: seq<byte>, off: nat, bs: seq<byte>): (r: seq<byte>)
    requires off + |bs| <= |s|
    ensures |r| == |s|
  {
    s[..off] + bs + s[off + |bs|..]
  }

  /** A splice holds bs at off and the old bytes everywhere else. */
  lemma SpliceContents(s: seq<byte>, off: nat, bs: seq<byte>)
    requires off + |bs| <= |s|
    ensures Splice(s, off, bs)[off..off + |bs|] == bs
    ensures forall i :: 0 <= i < |s| && !(off <= i < off + |bs|) ==> Splice(s, off, bs)[i] == s[i]
    ensures forall i :: off <= i < off + |bs| ==> Splice(s, off, bs)[i] == bs[i - off]
  {
  }

  /** Storing a field and reading it back yields the stored value modulo the width. */
  lemma ReadSplicedField(s: seq<byte>, off: nat, v: nat, n: nat)
    requires off + n <= |s|
    ensures ReadLE(Splice(s, off, ToLE(v, n)), off, n) == v % Pow256(n)
  {
    SpliceContents(s, off, ToLE(v, n));
    FromLEToLE(v, n);
  }

  /** Storing back the value just read leaves the buffer as it was. */
  lemma SpliceSameField(s: seq<byte>, off: nat, n: nat)
    requires off + n <= |s|
    ensures Splice(s, off, ToLE(ReadLE(s, off, n), n)) == s
  {
    ToLEFromLE(s[off..off + n]);
    assert ToLE(ReadLE(s, off, n), n) == s[off..off + n];
  }

  /** n zero bytes, what ZeroMem stores. */
  function Zeros(n: nat): (z: seq<byte>)
    ensures |z| == n && forall i :: 0 <= i < n ==> z[i] == 0
  {
    seq(n, _ => 0)
  }

  /** Stores bs into the array from offset off on (a field store, CopyMem or ZeroMem). */
  method Store(a: array<byte>, off: nat, bs: seq<byte>)
    requires off + |bs| <= a.Length
    modifies a
    ensures a[..] == Splice(old(a[..]), off, bs)
  {
    SpliceContents(a[..], off, bs);
    forall i | 0 <= i < |bs| {
      a[off + i] := bs[i];
    }
  }
}

/** Bytes, fixed-width little-endian integers and the reads and writes of byte ranges that
    both the shared-memory store and the binary parser are built from. */
module Bytes {

  type byte = x: int | 0 <= x < 0x100
  type u16 = x: int | 0 <= x < 0x1_0000
  type u32 = x: int | 0 <= x < 0x1_0000_0000
  type u64 = x: int | 0 <= x < 0x1_0000_0000_0000_0000
  type i8 = x: int | -0x80 <= x < 0x80
  type i64 = x: int | -0x8000_0000_0000_0000 <= x < 0x8000_0000_0000_0000

  const U64_MAX: u64 := 0xFFFF_FFFF_FFFF_FFFF
  const I64_MAX: i64 := 0x7FFF_FFFF_FFFF_FFFF

  function Min(a: int, b: int): int {
    if a <= b then a else b
  }

  function Max(a: int, b: int): int {
    if a <= b then b else a
  }

  // ---------------------------------------------------------------------------
  // Little-endian integers
  // ---------------------------------------------------------------------------

  function Pow256(n: nat): (p: nat)
    ensures p > 0
  {
    if n == 0 then 1 else 256 * Pow256(n - 1)
  }

  lemma Pow256Widths()
    ensures Pow256(1) == 0x100 && Pow256(2) == 0x1_0000 && Pow256(4) == 0x1_0000_0000
    ensures Pow256(8) == 0x1_0000_0000_0000_0000
  {
    assert Pow256(3) == 256 * Pow256(2);
    assert Pow256(5) == 256 * Pow256(4);
    assert Pow256(7) == 256 * Pow256(6);
  }

  function LeValue(s: seq<byte>): (v: nat)
    ensures v < Pow256(|s|)
  {
    if s == [] then 0 else s[0] + 256 * LeValue(s[1..])
  }

  function LeBytes(n: nat, v: nat): (s: seq<byte>)
    ensures |s| == n
  {
    seq(n, i requires i >= 0 => (v / Pow256(i)) % 256)
  }

  lemma DivTwice(v: nat, p: nat)
    requires p > 0
    ensures v / (256 * p) == (v / 256) / p
  {
    var q, r := (v / 256) / p, (v / 256) % p;
    assert v == 256 * (p * q + r) + v % 256 == (256 * p) * q + (256 * r + v % 256);
    QuotientUnique(v, 256 * p, q, 256 * r + v % 256);
  }

  lemma QuotientUnique(v: nat, d: nat, q: nat, r: nat)
    requires d > 0 && v == d * q + r && r < d
    ensures v / d == q
  {
    var k := v / d - q;
    assert d * k == r - v % d;
    assert k > 0 ==> d * k >= d;
    assert k <= -1 ==> d * k <= d * -1;
  }

  lemma LeBytesTail(n: nat, v: nat)
    requires n > 0
    ensures LeBytes(n, v) == [v % 256] + LeBytes(n - 1, v / 256)
  {
    var tail := LeBytes(n - 1, v / 256);
    forall i: nat | i < |tail|
      ensures LeBytes(n, v)[1 + i] == tail[i]
    {
      DivTwice(v, Pow256(i));
    }
  }

  lemma {:induction false} LeRoundTrip(n: nat, v: nat)
    requires v < Pow256(n)
    ensures LeValue(LeBytes(n, v)) == v
  {
    if n > 0 {
      LeBytesTail(n, v);
      LeRoundTrip(n - 1, v / 256);
    }
  }

  /** Two's complement: the bits of a signed value read as unsigned, and back (`as u64`, `as i64`). */
  function U64OfI64(v: i64): u64 {
    if v < 0 then v + 0x1_0000_0000_0000_0000 else v
  }

  function I64OfU64(v: u64): i64 {
    if v <= I64_MAX then v else v - 0x1_0000_0000_0000_0000
  }

  function I8OfByte(b: byte): i8 {
    if b < 0x80 then b else b - 0x100
  }

  function ByteOfI8(v: i8): byte {
    if v < 0 then v + 0x100 else v
  }

  /** The casts keep every value modulo 2^64, and modulo 2^8; the types leave one such value. */
  lemma TwosComplement(v: u64, b: byte)
    ensures (v - I64OfU64(v)) % 0x1_0000_0000_0000_0000 == 0 && U64OfI64(I64OfU64(v)) == v
    ensures (b - I8OfByte(b)) % 0x100 == 0 && ByteOfI8(I8OfByte(b)) == b
  {
  }

  /** Byte `k` of a little-endian number has the weight 256^k. */
  lemma {:induction false} ByteWeight(s: seq<byte>, k: nat)
    requires k < |s|
    ensures LeValue(s) / Pow256(k) % 256 == s[k]
  {
    var head: nat, rest := s[0], LeValue(s[1..]);
    assert LeValue(s) == head + 256 * rest;
    if k > 0 {
      ByteWeight(s[1..], k - 1);
      DivTwice(LeValue(s), Pow256(k - 1));
    }
  }

  const WORD: nat := 8
  const HALF_WORD: nat := 4

  function U64Bytes(v: u64): (s: seq<byte>)
    ensures |s| == 8
  {
    LeBytes(WORD, v)
  }

  function I64Bytes(v: i64): (s: seq<byte>)
    ensures |s| == 8
  {
    U64Bytes(U64OfI64(v))
  }

  function U32Bytes(v: u32): (s: seq<byte>)
    ensures |s| == 4
  {
    LeBytes(HALF_WORD, v)
  }

  function U16Bytes(v: u16): (s: seq<byte>)
    ensures |s| == 2
  {
    LeBytes(2, v)
  }

  // ---------------------------------------------------------------------------
  // Readers
  // ---------------------------------------------------------------------------

  function ReadI64Le(data: seq<byte>, offset: nat): i64
    requires offset + 8 <= |data|
  {
    Pow256Widths();
    I64OfU64(LeValue(data[offset..offset + 8]))
  }

  function ReadU16Le(data: seq<byte>, offset: nat): u16
    requires offset + 2 <= |data|
  {
    Pow256Widths();
    LeValue(data[offset..offset + 2])
  }

  function ReadU32Le(data: seq<byte>, offset: nat): u32
    requires offset + 4 <= |data|
  {
    Pow256Widths();
    LeValue(data[offset..offset + 4])
  }

  /** A little-endian field that lies in the data as its encoding is read back as its value. */
  lemma ReadBackI64(data: seq<byte>, offset: nat, v: i64)
    requires offset + 8 <= |data| && data[offset..offset + 8] == I64Bytes(v)
    ensures ReadI64Le(data, offset) == v
  {
    Pow256Widths();
    LeRoundTrip(WORD, U64OfI64(v));
  }

  lemma ReadBackU16(data: seq<byte>, offset: nat, v: u16)
    requires offset + 2 <= |data| && data[offset..offset + 2] == U16Bytes(v)
    ensures ReadU16Le(data, offset) == v
  {
    Pow256Widths();
    LeRoundTrip(2, v);
  }

  lemma ReadBackU32(data: seq<byte>, offset: nat, v: u32)
    requires offset + 4 <= |data| && data[offset..offset + 4] == U32Bytes(v)
    ensures ReadU32Le(data, offset) == v
  {
    Pow256Widths();
    LeRoundTrip(HALF_WORD, v);
  }

  // ---------------------------------------------------------------------------
  // Runs of 64-bit words
  // ---------------------------------------------------------------------------

  function WordBytes(ws: seq<u64>): (s: seq<byte>)
    ensures |s| == 8 * |ws|
  {
    if ws == [] then [] else WordBytes(ws[..|ws| - 1]) + U64Bytes(ws[|ws| - 1])
  }

  function WordAt(s: seq<byte>, k: nat): u64
    requires 8 * k + 8 <= |s|
  {
    Pow256Widths();
    LeValue(s[8 * k..8 * k + 8])
  }

  lemma {:induction false} WordReadsBack(ws: seq<u64>, k: nat)
    requires k < |ws|
    ensures WordAt(WordBytes(ws), k) == ws[k]
  {
    var n := |ws| - 1;
    var s, front := WordBytes(ws), WordBytes(ws[..n]);
    if k == n {
      assert s[8 * n..8 * n + 8] == U64Bytes(ws[n]);
      Pow256Widths();
      LeRoundTrip(WORD, ws[n]);
    } else {
      assert s[8 * k..8 * k + 8] == front[8 * k..8 * k + 8];
      WordReadsBack(ws[..n], k);
    }
  }

  // ---------------------------------------------------------------------------
  // Byte ranges
  // ---------------------------------------------------------------------------

  lemma SubRange(m: seq<byte>, at: nat, n: nat, lo: nat, hi: nat)
    requires at + n <= |m| && lo <= hi <= n
    ensures m[at..at + n][lo..hi] == m[at + lo..at + hi]
  {
    var inner := m[at..at + n];
    var a, b := inner[lo..hi], m[at + lo..at + hi];
    assert forall i | 0 <= i < |a| :: a[i] == inner[lo + i] == b[i];
  }

  /** The memory `m` after `s` has been stored at `offset`. */
  function Patch(m: seq<byte>, offset: nat, s: seq<byte>): (r: seq<byte>)
    requires offset + |s| <= |m|
    ensures |r| == |m|
  {
    m[..offset] + s + m[offset + |s|..]
  }

  lemma PatchReadsBack(m: seq<byte>, offset: nat, s: seq<byte>)
    requires offset + |s| <= |m|
    ensures Patch(m, offset, s)[offset..offset + |s|] == s
  {
  }

  lemma PatchElsewhere(m: seq<byte>, offset: nat, s: seq<byte>, lo: nat, hi: nat)
    requires offset + |s| <= |m| && lo <= hi <= |m|
    requires hi <= offset || offset + |s| <= lo
    ensures Patch(m, offset, s)[lo..hi] == m[lo..hi]
  {
  }

  /** Copy a byte image into memory (`ptr::write`, `copy_from_slice`). */
  method Store(mem: array<byte>, offset: nat, s: seq<byte>)
    requires offset + |s| <= mem.Length
    modifies mem
    ensures mem[..] == Patch(old(mem[..]), offset, s)
  {
    forall i | 0 <= i < |s| {
      mem[offset + i] := s[i];
    }
    assert mem[..] == Patch(old(mem[..]), offset, s);
  }
}

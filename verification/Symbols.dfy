/** Strings as validated UTF-8 and the fixed 32-byte symbol buffers that key the whole pipeline. */
module Symbols {
  import opened Bytes

  const SYMBOL_LEN: nat := 32

  // ---------------------------------------------------------------------------
  // UTF-8
  // ---------------------------------------------------------------------------

  predicate InRange(s: seq<byte>, i: nat, lo: byte, hi: byte) {
    i < |s| && lo <= s[i] <= hi
  }

  /** Length of the well-formed UTF-8 character at the head of `s`, or 0 when there is none. */
  function CharLen(s: seq<byte>): (n: nat)
    ensures n <= |s| && n <= 4
  {
    if s == [] then 0
    else if s[0] < 0x80 then 1
    else if InRange(s, 0, 0xC2, 0xDF) then
      if InRange(s, 1, 0x80, 0xBF) then 2 else 0
    else if InRange(s, 0, 0xE0, 0xEF) then
      var lo := if s[0] == 0xE0 then 0xA0 else 0x80;
      var hi := if s[0] == 0xED then 0x9F else 0xBF;
      if InRange(s, 1, lo, hi) && InRange(s, 2, 0x80, 0xBF) then 3 else 0
    else if InRange(s, 0, 0xF0, 0xF4) then
      var lo := if s[0] == 0xF0 then 0x90 else 0x80;
      var hi := if s[0] == 0xF4 then 0x8F else 0xBF;
      if InRange(s, 1, lo, hi) && InRange(s, 2, 0x80, 0xBF) && InRange(s, 3, 0x80, 0xBF) then 4 else 0
    else 0
  }

  predicate Utf8Valid(s: seq<byte>) {
    s == [] || (CharLen(s) > 0 && Utf8Valid(s[CharLen(s)..]))
  }

  // ---------------------------------------------------------------------------
  // ... by the code points it encodes
  // ---------------------------------------------------------------------------

  /** A Unicode scalar value: any code point but the surrogates. */
  predicate IsScalar(c: nat) {
    c < 0xD800 || 0xE000 <= c < 0x11_0000
  }

  function EncodeChar(c: nat): (s: seq<byte>)
    requires IsScalar(c)
    ensures 1 <= |s| <= 4
  {
    if c < 0x80 then [c]
    else if c < 0x800 then [0xC0 + c / 0x40, 0x80 + c % 0x40]
    else if c < 0x1_0000 then [0xE0 + c / 0x1000, 0x80 + c / 0x40 % 0x40, 0x80 + c % 0x40]
    else [0xF0 + c / 0x4_0000, 0x80 + c / 0x1000 % 0x40, 0x80 + c / 0x40 % 0x40, 0x80 + c % 0x40]
  }

  predicate AllScalar(cs: seq<nat>) {
    forall i | 0 <= i < |cs| :: IsScalar(cs[i])
  }

  function EncodeText(cs: seq<nat>): seq<byte>
    requires AllScalar(cs)
  {
    if cs == [] then [] else EncodeChar(cs[0]) + EncodeText(cs[1..])
  }

  lemma TwoByteChar(x: nat, y: nat) returns (c: nat)
    requires 2 <= x < 0x20 && y < 0x40
    ensures 0x80 <= c < 0x800 && EncodeChar(c) == [0xC0 + x, 0x80 + y]
  {
    c := x * 0x40 + y;
  }

  lemma ThreeByteChar(x: nat, y: nat, z: nat) returns (c: nat)
    requires x < 0x10 && y < 0x40 && z < 0x40 && (x == 0 ==> y >= 0x20) && (x == 0xD ==> y < 0x20)
    ensures IsScalar(c) && EncodeChar(c) == [0xE0 + x, 0x80 + y, 0x80 + z]
  {
    c := x * 0x1000 + y * 0x40 + z;
    assert c / 0x40 == x * 0x40 + y;
  }

  lemma FourByteChar(x: nat, y: nat, z: nat, t: nat) returns (c: nat)
    requires x < 5 && y < 0x40 && z < 0x40 && t < 0x40 && (x == 0 ==> y >= 0x10) && (x == 4 ==> y < 0x10)
    ensures IsScalar(c) && EncodeChar(c) == [0xF0 + x, 0x80 + y, 0x80 + z, 0x80 + t]
  {
    c := x * 0x4_0000 + y * 0x1000 + z * 0x40 + t;
    assert c / 0x1000 == x * 0x40 + y && c / 0x40 == (x * 0x40 + y) * 0x40 + z;
  }

  lemma CharDecodes(s: seq<byte>) returns (c: nat)
    requires CharLen(s) > 0
    ensures IsScalar(c) && s[..CharLen(s)] == EncodeChar(c)
  {
    if CharLen(s) == 1 {
      c := s[0];
    } else if CharLen(s) == 2 {
      c := TwoByteChar(s[0] - 0xC0, s[1] - 0x80);
    } else if CharLen(s) == 3 {
      c := ThreeByteChar(s[0] - 0xE0, s[1] - 0x80, s[2] - 0x80);
    } else {
      c := FourByteChar(s[0] - 0xF0, s[1] - 0x80, s[2] - 0x80, s[3] - 0x80);
    }
  }

  lemma ThreeByteRanges(c: nat)
    requires 0x800 <= c < 0x1_0000 && IsScalar(c)
    ensures var x, y := c / 0x1000, c / 0x40 % 0x40; x < 0x10 && (x == 0 ==> y >= 0x20) && (x == 0xD ==> y < 0x20)
  {
  }

  lemma FourByteRanges(c: nat)
    requires 0x1_0000 <= c < 0x11_0000
    ensures var x, y := c / 0x4_0000, c / 0x1000 % 0x40; x < 5 && (x == 0 ==> y >= 0x10) && (x == 4 ==> y < 0x10)
  {
  }

  lemma CharEncodes(c: nat, rest: seq<byte>)
    requires IsScalar(c)
    ensures CharLen(EncodeChar(c) + rest) == |EncodeChar(c)|
  {
    var e, s := EncodeChar(c), EncodeChar(c) + rest;
    assert s[0] == e[0];
    if c < 0x80 {
    } else if c < 0x800 {
      assert s[1] == e[1];
    } else if c < 0x1_0000 {
      assert s[1] == e[1] && s[2] == e[2];
      ThreeByteRanges(c);
    } else {
      assert s[1] == e[1] && s[2] == e[2] && s[3] == e[3];
      FourByteRanges(c);
    }
  }

  lemma {:induction false} TextDecodes(s: seq<byte>) returns (cs: seq<nat>)
    requires Utf8Valid(s)
    ensures AllScalar(cs) && s == EncodeText(cs)
  {
    if s == [] {
      cs := [];
    } else {
      var c := CharDecodes(s);
      var rest := TextDecodes(s[CharLen(s)..]);
      cs := [c] + rest;
      assert s == s[..CharLen(s)] + s[CharLen(s)..];
    }
  }

  lemma {:induction false} TextEncodes(cs: seq<nat>)
    requires AllScalar(cs)
    ensures Utf8Valid(EncodeText(cs))
  {
    if cs != [] {
      TextEncodes(cs[1..]);
      CharEncodes(cs[0], EncodeText(cs[1..]));
    }
  }

  /** What is accepted as text is exactly the encodings of sequences of scalar values. */
  lemma Utf8Exactly(s: seq<byte>)
    ensures Utf8Valid(s) <==> exists cs :: AllScalar(cs) && s == EncodeText(cs)
  {
    if Utf8Valid(s) {
      var cs := TextDecodes(s);
    }
    if cs :| AllScalar(cs) && s == EncodeText(cs) {
      TextEncodes(cs);
    }
  }

  /** A Rust `&str`. */
  type Str = s: seq<byte> | Utf8Valid(s)

  /** `std::str::from_utf8(..).unwrap_or("")` */
  function StrOrEmpty(s: seq<byte>): Str {
    if Utf8Valid(s) then s else []
  }

  lemma {:induction false} AsciiIsUtf8(s: seq<byte>)
    requires forall i | 0 <= i < |s| :: s[i] < 0x80
    ensures Utf8Valid(s)
  {
    if s != [] {
      AsciiIsUtf8(s[1..]);
    }
  }

  /** Cutting a string at a NUL never cuts through a character. */
  lemma {:induction false} CutAtNulIsUtf8(s: seq<byte>, k: nat)
    requires Utf8Valid(s) && k < |s| && s[k] == 0
    ensures Utf8Valid(s[..k])
  {
    if k > 0 {
      var n := CharLen(s);
      assert k >= n;
      var t := s[n..];
      CutAtNulIsUtf8(t, k - n);
      assert s[..k][n..] == t[..k - n];
      assert CharLen(s[..k]) == n;
    }
  }

  // ---------------------------------------------------------------------------
  // Symbol buffers
  // ---------------------------------------------------------------------------

  type SymbolBuf = b: seq<byte> | |b| == SYMBOL_LEN witness Zeros(SYMBOL_LEN)

  function Zeros(n: nat): (z: seq<byte>)
    ensures |z| == n && forall i | 0 <= i < n :: z[i] == 0
  {
    seq(n, _ => 0)
  }

  function SymbolToBytes(s: Str): SymbolBuf {
    var len := Min(|s|, SYMBOL_LEN);
    s[..len] + Zeros(SYMBOL_LEN - len)
  }

  /** Position of the first NUL, or the length when there is none. */
  function FirstNul(s: seq<byte>): (k: nat)
    ensures k <= |s| && (forall i | 0 <= i < k :: s[i] != 0) && (k < |s| ==> s[k] == 0)
  {
    if s == [] || s[0] == 0 then 0 else 1 + FirstNul(s[1..])
  }

  function SymbolFromBytes(buf: SymbolBuf): Str {
    StrOrEmpty(buf[..FirstNul(buf)])
  }

  lemma FirstNulUnique(s: seq<byte>, k: nat)
    requires k <= |s| && (forall i | 0 <= i < k :: s[i] != 0) && (k < |s| ==> s[k] == 0)
    ensures FirstNul(s) == k
  {
  }

  /** A symbol survives the fixed buffer exactly when it fits and holds no NUL. */
  lemma SymbolRoundTrip(s: Str)
    ensures SymbolFromBytes(SymbolToBytes(s)) == s <==> |s| <= SYMBOL_LEN && 0 !in s
  {
    var buf := SymbolToBytes(s);
    if |s| <= SYMBOL_LEN && 0 !in s {
      assert buf[..|s|] == s;
      FirstNulUnique(buf, |s|);
    } else if 0 in s {
      assert 0 !in SymbolFromBytes(buf);
    }
  }

  /** What comes back for every string: the text before the first NUL of its first 32 bytes,
      or nothing when the 32-byte cut falls inside a character. */
  lemma SymbolReadBack(s: Str)
    ensures var cut := s[..Min(|s|, SYMBOL_LEN)];
            var k := FirstNul(cut);
            SymbolFromBytes(SymbolToBytes(s)) == if k < |cut| || |s| <= SYMBOL_LEN || Utf8Valid(cut) then s[..k] else []
  {
    var buf := SymbolToBytes(s);
    var cut := s[..Min(|s|, SYMBOL_LEN)];
    var k := FirstNul(cut);
    assert cut == buf[..|cut|];
    assert buf[..k] == cut[..k];
    FirstNulUnique(buf, k);
    if k < |cut| {
      CutAtNulIsUtf8(s, k);
      assert s[..k] == buf[..k];
    } else {
      assert buf[..k] == cut && s[..k] == cut;
      if |s| <= SYMBOL_LEN {
        assert cut == s;
      }
    }
  }

  /** Two different symbols that survive the buffer never share one. */
  lemma SymbolKeysDistinct(s: Str, t: Str)
    requires |s| <= SYMBOL_LEN && 0 !in s && |t| <= SYMBOL_LEN && 0 !in t && s != t
    ensures SymbolToBytes(s) != SymbolToBytes(t)
  {
    SymbolRoundTrip(s);
    SymbolRoundTrip(t);
  }
}

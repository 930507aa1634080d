/**
 * The Base64 encoding of section 4 of RFC 4648, written with plain arithmetic on the
 * 6-bit values of a quantum instead of the codec's shifted and or-ed block, and the
 * lemmas that tie the codec to it: the encoder emits exactly the standard's symbols,
 * and the decoder reads the standard's byte fields back out of a group.
 */
module Rfc4648 {
  import opened Prelude
  import opened Alphabet
  import opened Base64
  import Base64Properties

  /**
   * The four values of a quantum of 1 to 3 bytes: the 24 input bits cut into 6-bit
   * groups, missing bits zero, and `PadValue` for each group made only of missing bits.
   */
  function QuantumValues(g: seq<byte>): (r: seq<nat>)
    requires 1 <= |g| <= 3
    ensures |r| == 4 && r[0] < 64 && r[1] < 64
    ensures r[2] == PadValue <==> |g| == 1
    ensures r[3] == PadValue <==> |g| < 3
    ensures r[2] <= PadValue && r[3] <= PadValue
  {
    var b0 := g[0];
    var b1 := if |g| > 1 then g[1] else 0;
    var b2 := if |g| > 2 then g[2] else 0;
    [ b0 / 4,
      (b0 % 4) * 16 + b1 / 16,
      if |g| > 1 then (b1 % 16) * 4 + b2 / 64 else PadValue,
      if |g| > 2 then b2 % 64 else PadValue ]
  }

  /** The output character of a value: the alphabet's symbol, or '=' for the pad. */
  function SymbolOrPad(v: Variant, n: nat): byte
    requires n <= PadValue
  {
    if n == PadValue then PadByte else Symbol(v, n)
  }

  /** The encoding of one quantum. */
  function EncodeQuantum(v: Variant, g: seq<byte>): seq<byte>
    requires 1 <= |g| <= 3
  {
    var q := QuantumValues(g);
    [SymbolOrPad(v, q[0]), SymbolOrPad(v, q[1]), SymbolOrPad(v, q[2]), SymbolOrPad(v, q[3])]
  }

  /** The encoding of a byte vector, quantum by quantum from the start. */
  function Encode(v: Variant, d: seq<byte>): seq<byte>
    decreases |d|
  {
    if |d| == 0 then []
    else if |d| < 3 then EncodeQuantum(v, d)
    else EncodeQuantum(v, d[..3]) + Encode(v, d[3..])
  }

  /**
   * The three bytes the 6-bit values n1..n4 spell when laid side by side, a pad
   * counting as zero bits.
   */
  function Fields(n1: nat, n2: nat, n3: nat, n4: nat): seq<byte>
    requires n1 < 64 && n2 < 64 && n3 <= PadValue && n4 <= PadValue
  {
    var t3 := if n3 == PadValue then 0 else n3;
    var t4 := if n4 == PadValue then 0 else n4;
    [4 * n1 + n2 / 16, (n2 % 16) * 16 + t3 / 4, (t3 % 4) * 64 + t4]
  }

  /** The four 6-bit fields of the block of three bytes, in terms of the bytes. */
  lemma BlockSextets(b0: nat, b1: nat, b2: nat)
    requires b0 < 256 && b1 < 256 && b2 < 256
    ensures var block := b0 * 0x1_0000 + b1 * 0x100 + b2;
      && block / 0x4_0000 == b0 / 4
      && (block / 0x1000) % 64 == (b0 % 4) * 16 + b1 / 16
      && (block / 0x40) % 64 == (b1 % 16) * 4 + b2 / 64
      && block % 64 == b2 % 64
  {
    var s1, s2, s3, s4 := b0 / 4, (b0 % 4) * 16 + b1 / 16, (b1 % 16) * 4 + b2 / 64, b2 % 64;
    BytesAsSextets(b0, b1, b2);
    SextetFields(s1, s2, s3, s4);
  }

  /** Three bytes side by side are the four sextets side by side. */
  lemma BytesAsSextets(b0: nat, b1: nat, b2: nat)
    requires b0 < 256 && b1 < 256 && b2 < 256
    ensures b0 * 0x1_0000 + b1 * 0x100 + b2
      == (b0 / 4) * 0x4_0000 + ((b0 % 4) * 16 + b1 / 16) * 0x1000 + ((b1 % 16) * 4 + b2 / 64) * 0x40 + b2 % 64
  {
    assert b0 == 4 * (b0 / 4) + b0 % 4;
    assert b1 == 16 * (b1 / 16) + b1 % 16;
    assert b2 == 64 * (b2 / 64) + b2 % 64;
  }

  /** The fields of a block built from four sextets read the sextets back. */
  lemma SextetFields(s1: nat, s2: nat, s3: nat, s4: nat)
    requires s1 < 64 && s2 < 64 && s3 < 64 && s4 < 64
    ensures var x := s1 * 0x4_0000 + s2 * 0x1000 + s3 * 0x40 + s4;
      && x / 0x4_0000 == s1
      && (x / 0x1000) % 64 == s2
      && (x / 0x40) % 64 == s3
      && x % 64 == s4
  {
    var x := s1 * 0x4_0000 + s2 * 0x1000 + s3 * 0x40 + s4;
    var x6 := s1 * 0x1000 + s2 * 0x40 + s3;
    assert x == 0x40 * x6 + s4;
    assert x / 0x40 == x6;
    var x12 := s1 * 0x40 + s2;
    assert x == 0x1000 * x12 + (s3 * 0x40 + s4);
    assert x / 0x1000 == x12;
    assert x6 == 0x40 * (s1 * 0x40 + s2) + s3;
  }

  /** The codec's group encoder emits the symbols section 4 of RFC 4648 prescribes. */
  lemma EncodeGroupIsQuantum(v: Variant, g: seq<byte>)
    requires 1 <= |g| <= 3
    ensures EncodeGroup(v, g) == EncodeQuantum(v, g)
  {
    var b0: nat := g[0];
    var b1: nat := if |g| > 1 then g[1] else 0;
    var b2: nat := if |g| > 2 then g[2] else 0;
    Base64Properties.EncodeBlockValue(g);
    BlockSextets(b0, b1, b2);
    var block := EncodeBlock(g);
    var q := QuantumValues(g);
    assert block / 0x4_0000 == q[0];
    assert (block / 0x1000) % 64 == q[1];
    assert q[2] == if |g| > 1 then (block / 0x40) % 64 else PadValue;
    assert q[3] == if |g| > 2 then block % 64 else PadValue;
    var e, r := EncodeGroup(v, g), EncodeQuantum(v, g);
    assert e[0] == r[0] && e[1] == r[1] && e[2] == r[2] && e[3] == r[3];
  }

  /** The codec encodes every byte vector exactly as section 4 of RFC 4648 does. */
  lemma {:induction false} EncodeIsStandard(v: Variant, d: seq<byte>)
    ensures EncodeGroups(v, d) == Encode(v, d)
    decreases |d|
  {
    if |d| == 0 {
    } else if |d| < 3 {
      EncodeGroupIsQuantum(v, d);
      assert d[..|d|] == d;
      assert EncodeGroups(v, d) == EncodeGroup(v, d) + EncodeGroups(v, []);
    } else {
      EncodeGroupIsQuantum(v, d[..3]);
      EncodeIsStandard(v, d[3..]);
    }
  }

  /** The byte fields of a block built from three bytes. */
  lemma BlockBytes(block: nat, c0: nat, c1: nat, c2: nat)
    requires c0 < 256 && c1 < 256 && c2 < 256
    requires block == c0 * 0x1_0000 + c1 * 0x100 + c2
    ensures AsU8(block / 0x1_0000) == c0 && AsU8(block / 0x100) == c1 && AsU8(block) == c2
  {
    assert block / 0x100 == c0 * 0x100 + c1;
  }

  /**
   * The decoder reads the byte fields of the standard out of a group whose first two
   * symbols are real: byte 1 always, byte 2 unless symbol 3 is the pad, byte 3 unless
   * symbol 4 is the pad, even when symbol 3 is the pad and symbol 4 is not.
   */
  lemma DecodeValuesAreFields(n1: nat, n2: nat, n3: nat, n4: nat)
    requires n1 < 64 && n2 < 64 && n3 <= PadValue && n4 <= PadValue
    ensures var f := Fields(n1, n2, n3, n4);
      DecodeValues(n1, n2, n3, n4)
      == [f[0]] + (if n3 != PadValue then [f[1]] else []) + (if n4 != PadValue then [f[2]] else [])
  {
    var t3: nat := if n3 == PadValue then 0 else n3;
    var t4: nat := if n4 == PadValue then 0 else n4;
    Base64Properties.DecodeBlockValue(n1, n2, n3, n4);
    var block := DecodeBlock(n1, n2, n3, n4);
    assert block == n1 * 0x4_0000 + n2 * 0x1000 + t3 * 0x40 + t4;
    var f := Fields(n1, n2, n3, n4);
    assert n2 == 16 * (n2 / 16) + n2 % 16;
    assert t3 == 4 * (t3 / 4) + t3 % 4;
    BlockBytes(block, f[0], f[1], f[2]);
  }
}

/**
 * What the codec promises across calls: decoding undoes encoding for every byte
 * vector and both alphabets, encoded output is padded only at its tail, and decoding
 * works group by group.
 */
module Base64Properties {
  import opened Prelude
  import opened Bits
  import opened Alphabet
  import opened Configuration
  import opened Base64

  /**
   * Proof helper for the test vectors: the byte the encoder emits for each value as a
   * number, 'A'..'Z', 'a'..'z', '0'..'9', then the two symbols of the variant.
   */
  lemma SymbolCode(v: Variant, n: nat)
    requires n < 64
    ensures Symbol(v, n) == if n < 26 then 0x41 + n
                            else if n < 52 then 0x47 + n
                            else if n < 62 then n - 4
                            else if n == 62 then (if v == Standard then 0x2b else 0x2d)
                            else (if v == Standard then 0x2f else 0x5f)
  {
  }

  /** A symbol the encoder emits decodes back to its value, and is never the pad. */
  lemma LookupSymbol(v: Variant, n: nat)
    requires n < 64
    ensures Lookup(v, Symbol(v, n)) == Some(n)
    ensures IsSymbol(v, Symbol(v, n))
    ensures Symbol(v, n) != PadByte
  {
  }

  /** The or-ed bytes of a group occupy disjoint bit ranges, so the block is their weighted sum. */
  lemma EncodeBlockValue(g: seq<byte>)
    requires 1 <= |g| <= 3
    ensures EncodeBlock(g) == g[0] as int * 0x1_0000 + (if |g| > 1 then g[1] as int * 0x100 else 0) + (if |g| > 2 then g[2] else 0)
  {
    Pow2Values();
    var a: nat, b: nat := g[0], if |g| > 1 then g[1] else 0;
    assert BitOr(0, a * 0x1_0000) == a * 0x1_0000;
    if |g| > 1 {
      BitOrAt(a, b * 0x100, 16);
    }
    if |g| > 2 {
      BitOrAt(a * 0x100 + b, g[2], 8);
      assert (a * 0x100 + b) * 0x100 == a * 0x1_0000 + b * 0x100;
    }
  }

  /**
   * When neither of the first two symbols is the pad, the or-ed values occupy disjoint
   * bit ranges and the block is their weighted sum.
   */
  lemma DecodeBlockValue(n1: nat, n2: nat, n3: nat, n4: nat)
    requires n1 < 64 && n2 < 64 && n3 <= PadValue && n4 <= PadValue
    ensures DecodeBlock(n1, n2, n3, n4)
            == n1 * 0x4_0000 + n2 * 0x1000
               + (if n3 != PadValue then n3 * 0x40 else 0)
               + (if n4 != PadValue then n4 else 0)
  {
    var q := n1 * 0x40 + n2;
    OrHighValues(n1, n2);
    assert BitOr(BitOr(0, n1 * 0x4_0000), n2 * 0x1000) == q * 0x1000;
    OrLowValues(q, n3, n4);
  }

  /** The first two values of a group occupy disjoint bits of the block. */
  lemma OrHighValues(n1: nat, n2: nat)
    requires n2 < 64
    ensures BitOr(BitOr(0, n1 * 0x4_0000), n2 * 0x1000) == n1 * 0x4_0000 + n2 * 0x1000
  {
    assert BitOr(0, n1 * 0x4_0000) == n1 * 0x4_0000;
    BitOrAt(n1, n2 * 0x1000, 18);
  }

  /** Values 3 and 4, when or-ed in, land below the bits of values 1 and 2. */
  lemma OrLowValues(q: nat, n3: nat, n4: nat)
    requires n3 <= PadValue && n4 <= PadValue
    ensures var d3 := if n3 != PadValue then BitOr(q * 0x1000, n3 * 0x40) else q * 0x1000;
      (if n4 != PadValue then BitOr(d3, n4) else d3)
      == q * 0x1000 + (if n3 != PadValue then n3 * 0x40 else 0) + (if n4 != PadValue then n4 else 0)
  {
    var t3: nat := if n3 != PadValue then n3 else 0;
    var d3 := if n3 != PadValue then BitOr(q * 0x1000, n3 * 0x40) else q * 0x1000;
    if n3 != PadValue {
      BitOrAt(q, n3 * 0x40, 12);
    }
    assert d3 == (q * 0x40 + t3) * 0x40;
    if n4 != PadValue {
      BitOrAt(q * 0x40 + t3, n4, 6);
    }
  }

  /** A 24-bit block is the weighted sum of its four 6-bit fields. */
  lemma SextetsRecompose(x: nat)
    requires x < 0x100_0000
    ensures x == (x / 0x4_0000) * 0x4_0000 + ((x / 0x1000) % 64) * 0x1000 + ((x / 0x40) % 64) * 0x40 + x % 64
  {
    var x6, x12 := x / 0x40, x / 0x1000;
    assert x == 0x40 * x6 + x % 64;
    assert x6 == 64 * (x6 / 64) + x6 % 64;
    assert x == 0x1000 * (x6 / 64) + (0x40 * (x6 % 64) + x % 64);
    assert x12 == x6 / 64;
    assert x12 == 64 * (x / 0x4_0000) + x12 % 64;
  }

  /** The three byte fields of a 24-bit block read back the bytes packed into it. */
  lemma BytesOfBlock(a: nat, b: nat, c: nat)
    requires a < 256 && b < 256 && c < 256
    ensures AsU8((a * 0x1_0000 + b * 0x100 + c) / 0x1_0000) == a
    ensures AsU8((a * 0x1_0000 + b * 0x100 + c) / 0x100) == b
    ensures AsU8(a * 0x1_0000 + b * 0x100 + c) == c
  {
  }

  /**
   * Reading back the 6-bit fields of a 24-bit block and packing them again as the
   * decoder does, with the pad standing for the fields a short group leaves zero,
   * gives the block back.
   */
  lemma DecodeFields(x: nat, len: nat)
    requires x < 0x100_0000 && 1 <= len <= 3
    requires len < 3 ==> x % 0x40 == 0
    requires len < 2 ==> x % 0x1000 == 0
    ensures DecodeBlock(x / 0x4_0000, (x / 0x1000) % 64,
                        if len == 1 then PadValue else (x / 0x40) % 64,
                        if len < 3 then PadValue else x % 64) == x
  {
    SextetsRecompose(x);
    DecodeBlockValue(x / 0x4_0000, (x / 0x1000) % 64,
                     if len == 1 then PadValue else (x / 0x40) % 64,
                     if len < 3 then PadValue else x % 64);
    if len < 2 {
      assert (x / 0x40) % 64 == 0;
    }
  }

  /** The block of a short group has zero low fields. */
  lemma ShortBlockFields(a: nat, b: nat)
    requires a < 256 && b < 256
    ensures (a * 0x1_0000 + b * 0x100) % 0x40 == 0
    ensures (a * 0x1_0000) % 0x1000 == 0
  {
    assert a * 0x1_0000 + b * 0x100 == (a * 0x400 + b * 4) * 0x40;
    assert a * 0x1_0000 == (a * 0x10) * 0x1000;
  }

  /** The lookups of an encoded group: the two real symbols, then value or pad for the last two. */
  lemma EncodeGroupLookups(v: Variant, g: seq<byte>)
    requires 1 <= |g| <= 3
    ensures var block, e := EncodeBlock(g), EncodeGroup(v, g);
      && Lookup(v, e[0]) == Some(block / 0x4_0000)
      && Lookup(v, e[1]) == Some((block / 0x1000) % 64)
      && Lookup(v, e[2]) == (if |g| == 1 then Some(PadValue) else Some((block / 0x40) % 64))
      && Lookup(v, e[3]) == (if |g| < 3 then Some(PadValue) else Some(block % 64))
  {
    var block := EncodeBlock(g);
    LookupSymbol(v, block / 0x4_0000);
    LookupSymbol(v, (block / 0x1000) % 64);
    LookupSymbol(v, (block / 0x40) % 64);
    LookupSymbol(v, block % 64);
    LookupPad(v, PadByte);
  }

  /** What the decoder makes of the four values an encoded group was split into. */
  function ReadBack(g: seq<byte>): seq<byte>
    requires 1 <= |g| <= 3
  {
    var block := EncodeBlock(g);
    DecodeValues(block / 0x4_0000, (block / 0x1000) % 64,
                 if |g| == 1 then PadValue else (block / 0x40) % 64,
                 if |g| < 3 then PadValue else block % 64)
  }

  /** The symbols of an encoded group look up to the values the block was split into. */
  lemma DecodeEncodedGroup(v: Variant, g: seq<byte>)
    requires 1 <= |g| <= 3
    ensures DecodeGroup(v, EncodeGroup(v, g)) == Some(ReadBack(g))
  {
    EncodeGroupLookups(v, g);
  }

  /** Unpacking the values of an encoded group gives back the group's bytes. */
  lemma ValuesRoundTrip(g: seq<byte>)
    requires 1 <= |g| <= 3
    ensures ReadBack(g) == g
  {
    EncodeBlockValue(g);
    var a: nat := g[0];
    var b: nat := if |g| > 1 then g[1] else 0;
    var c: nat := if |g| > 2 then g[2] else 0;
    BlockRoundTrip(EncodeBlock(g), a, b, c, |g|);
    if |g| == 1 {
      assert g == [a];
    } else if |g| == 2 {
      assert g == [a, b];
    } else {
      assert g == [a, b, c];
    }
  }

  /**
   * `ValuesRoundTrip` on the block of the bytes a, b, c of a group of `len` bytes, the
   * missing bytes zero.
   */
  lemma BlockRoundTrip(x: nat, a: nat, b: nat, c: nat, len: nat)
    requires a < 256 && b < 256 && c < 256 && 1 <= len <= 3
    requires len < 3 ==> c == 0
    requires len < 2 ==> b == 0
    requires x == a * 0x1_0000 + b * 0x100 + c
    ensures DecodeValues(x / 0x4_0000, (x / 0x1000) % 64,
                         if len == 1 then PadValue else (x / 0x40) % 64,
                         if len < 3 then PadValue else x % 64)
      == [a] + (if len > 1 then [b] else []) + (if len > 2 then [c] else [])
  {
    ShortBlockFields(a, b);
    DecodeFields(x, len);
    BytesOfBlock(a, b, c);
  }

  /** Decoding the four symbols of one encoded group gives back the group's bytes. */
  lemma GroupRoundTrip(v: Variant, g: seq<byte>)
    requires 1 <= |g| <= 3
    ensures DecodeGroup(v, EncodeGroup(v, g)) == Some(g)
  {
    DecodeEncodedGroup(v, g);
    ValuesRoundTrip(g);
  }

  // ---------------------------------------------------------------------------
  // Whole inputs

  /** An encoding has a whole number of 4-symbol groups. */
  lemma EncodedLengthIsMultipleOfFour(v: Variant, d: seq<byte>)
    ensures |EncodeGroups(v, d)| % 4 == 0
  {
    QuadrupleIsMultipleOfFour(|EncodeGroups(v, d)|, (|d| + 2) / 3);
  }

  lemma QuadrupleIsMultipleOfFour(x: nat, q: nat)
    requires x == 4 * q
    ensures x % 4 == 0
  {
  }

  /** Decoding the encoding of any byte vector gives it back, under either alphabet. */
  lemma {:induction false} RoundTrip(v: Variant, d: seq<byte>)
    ensures |EncodeGroups(v, d)| % 4 == 0
    ensures DecodeGroups(v, EncodeGroups(v, d)) == Some(d)
    decreases |d|
  {
    EncodedLengthIsMultipleOfFour(v, d);
    if |d| > 0 {
      var n := if |d| < 3 then |d| else 3;
      var head, rest := EncodeGroup(v, d[..n]), EncodeGroups(v, d[n..]);
      assert EncodeGroups(v, d) == head + rest;
      EncodedLengthIsMultipleOfFour(v, d[n..]);
      DecodeGroupsCons(v, head, rest);
      GroupRoundTrip(v, d[..n]);
      RoundTrip(v, d[n..]);
      TakeDrop(d, n);
    }
  }

  lemma TakeDrop(d: seq<byte>, n: nat)
    requires n <= |d|
    ensures d[..n] + d[n..] == d
  {
  }

  /** The decoding of a group followed by more groups is the group's decoding followed by theirs. */
  lemma DecodeGroupsCons(v: Variant, head: seq<byte>, rest: seq<byte>)
    requires |head| == 4 && |rest| % 4 == 0
    ensures |head + rest| % 4 == 0
    ensures DecodeGroups(v, head + rest) == Concat(DecodeGroup(v, head), DecodeGroups(v, rest))
  {
    var s := head + rest;
    assert |s| == |rest| + 4;
    SplitFirstGroup(head, rest);
    assert head[..4] == head && head[4..] == [];
    assert s[..4] == head && s[4..] == rest;
  }

  /** `to_base64` followed by `from_base64` is the identity for both implemented bases. */
  lemma CodecRoundTrip(base: Base, d: seq<byte>)
    requires base == Base64 || base == Base64url
    ensures ToBase64(base, d).Ok?
    ensures FromBase64(base, ToBase64(base, d).value) == Ok(d)
  {
    EncodedLengthIsMultipleOfFour(VariantOf(base).value, d);
    RoundTrip(VariantOf(base).value, d);
  }

  /** Lengths that are multiples of 4 stay so under concatenation and dropping a group. */
  lemma MultiplesOfFour(a: seq<byte>, b: seq<byte>)
    requires |a| % 4 == 0 && |b| % 4 == 0
    ensures |a + b| % 4 == 0
    ensures |a| >= 4 ==> |a[4..]| % 4 == 0 && |a[4..] + b| % 4 == 0
  {
    var x, y := |a| / 4, |b| / 4;
    assert |a + b| == 4 * (x + y);
    if |a| >= 4 {
      assert |a[4..]| == 4 * (x - 1);
      assert |a[4..] + b| == 4 * (x - 1 + y);
    }
  }

  /** Decoding works group by group: the decoding of a concatenation is the concatenation of the decodings. */
  lemma {:induction false} DecodeAppend(v: Variant, a: seq<byte>, b: seq<byte>)
    requires |a| % 4 == 0 && |b| % 4 == 0
    ensures |a + b| % 4 == 0
    ensures DecodeGroups(v, a + b) == Concat(DecodeGroups(v, a), DecodeGroups(v, b))
    decreases |a|
  {
    MultiplesOfFour(a, b);
    if |a| > 0 {
      DecodeAppend(v, a[4..], b);
      DecodeAppendStep(v, a, b);
    } else {
      assert a + b == b;
      var tb := DecodeGroups(v, b);
      if tb.Some? {
        assert [] + tb.value == tb.value;
      }
    }
  }

  lemma AppendAssociative(p: seq<byte>, q: seq<byte>, r: seq<byte>)
    ensures p + (q + r) == (p + q) + r
  {
  }

  lemma SplitFirstGroup(a: seq<byte>, b: seq<byte>)
    requires |a| >= 4
    ensures (a + b)[..4] == a[..4] && (a + b)[4..] == a[4..] + b
  {
  }

  /** One step of `DecodeAppend`: peeling the first group off the left operand. */
  lemma DecodeAppendStep(v: Variant, a: seq<byte>, b: seq<byte>)
    requires |a| >= 4 && |a| % 4 == 0 && |b| % 4 == 0
    requires |a[4..]| % 4 == 0 && |a + b| % 4 == 0 && |a[4..] + b| % 4 == 0
    requires DecodeGroups(v, a[4..] + b) == Concat(DecodeGroups(v, a[4..]), DecodeGroups(v, b))
    ensures DecodeGroups(v, a + b) == Concat(DecodeGroups(v, a), DecodeGroups(v, b))
  {
    var h := DecodeGroup(v, a[..4]);
    var x, y := DecodeGroups(v, a[4..]), DecodeGroups(v, b);
    TakeDrop(a, 4);
    AppendAssociative(a[..4], a[4..], b);
    DecodeGroupsCons(v, a[..4], a[4..] + b);
    DecodeGroupsCons(v, a[..4], a[4..]);
    if h.Some? && x.Some? && y.Some? {
      AppendAssociative(h.value, x.value, y.value);
    }
  }

  /** The positions of an encoding of n bytes that hold the pad: the last two when n mod 3 = 1, the last one when n mod 3 = 2. */
  predicate IsPadPosition(n: nat, k: nat) {
    var len := 4 * ((n + 2) / 3);
    (n % 3 == 1 && len - 2 <= k < len) || (n % 3 == 2 && k == len - 1)
  }

  /** Removing the first group shifts the pad positions by one group. */
  lemma PadPositionShift(n: nat, k: nat)
    requires n > 3 && k >= 4
    ensures IsPadPosition(n, k) <==> IsPadPosition(n - 3, k - 4)
  {
    assert (n + 2) / 3 == (n - 1) / 3 + 1;
    assert n % 3 == (n - 3) % 3;
  }

  /** The pad positions within the first group of an encoding. */
  lemma FirstGroupPadPositions(n: nat, k: nat)
    requires n >= 1 && k < 4
    ensures IsPadPosition(n, k) <==> (n == 1 && k >= 2) || (n == 2 && k == 3)
  {
    if n > 3 {
      assert (n + 2) / 3 >= 2;
    }
  }

  /** Symbols 1 and 2 of a group are real; symbol 3 is the pad exactly for one byte, symbol 4 for fewer than three. */
  lemma EncodeGroupShape(v: Variant, g: seq<byte>)
    requires 1 <= |g| <= 3
    ensures var e := EncodeGroup(v, g);
      && IsSymbol(v, e[0]) && IsSymbol(v, e[1])
      && (e[2] == PadByte <==> |g| == 1) && (e[2] != PadByte ==> IsSymbol(v, e[2]))
      && (e[3] == PadByte <==> |g| < 3) && (e[3] != PadByte ==> IsSymbol(v, e[3]))
  {
    var block := EncodeBlock(g);
    LookupSymbol(v, block / 0x4_0000);
    LookupSymbol(v, (block / 0x1000) % 64);
    LookupSymbol(v, (block / 0x40) % 64);
    LookupSymbol(v, block % 64);
  }

  /**
   * The encoder pads only at the tail: a position holds '=' exactly when it is one of
   * the pad positions for the input length, and every other position holds a symbol
   * of the active 64-symbol alphabet.
   */
  lemma {:induction false} EncodePadding(v: Variant, d: seq<byte>, k: nat)
    requires k < |EncodeGroups(v, d)|
    ensures EncodeGroups(v, d)[k] == PadByte <==> IsPadPosition(|d|, k)
    ensures EncodeGroups(v, d)[k] != PadByte ==> IsSymbol(v, EncodeGroups(v, d)[k])
    decreases |d|
  {
    if k < 4 {
      HeadPadding(v, d, k);
    } else {
      TailPosition(v, d, k);
      EncodePadding(v, d[3..], k - 4);
    }
  }

  /** Position k from the second group on is position k - 4 of the encoding of the bytes after the first three. */
  lemma TailPosition(v: Variant, d: seq<byte>, k: nat)
    requires 4 <= k < |EncodeGroups(v, d)|
    ensures |d| > 3 && k - 4 < |EncodeGroups(v, d[3..])|
    ensures EncodeGroups(v, d)[k] == EncodeGroups(v, d[3..])[k - 4]
    ensures IsPadPosition(|d|, k) <==> IsPadPosition(|d[3..]|, k - 4)
  {
    MoreThanOneGroup(|d|);
    var head, rest := EncodeGroup(v, d[..3]), EncodeGroups(v, d[3..]);
    assert EncodeGroups(v, d) == head + rest;
    assert |head| == 4 && |d[3..]| == |d| - 3;
    PadPositionShift(|d|, k);
  }

  /** An encoding longer than one group comes from more than three bytes. */
  lemma MoreThanOneGroup(n: nat)
    requires 4 * ((n + 2) / 3) > 4
    ensures n > 3
  {
  }

  /** `EncodePadding` for the first group of the encoding. */
  lemma HeadPadding(v: Variant, d: seq<byte>, k: nat)
    requires |d| > 0 && k < 4
    ensures k < |EncodeGroups(v, d)|
    ensures EncodeGroups(v, d)[k] == PadByte <==> IsPadPosition(|d|, k)
    ensures EncodeGroups(v, d)[k] != PadByte ==> IsSymbol(v, EncodeGroups(v, d)[k])
  {
    var n := if |d| < 3 then |d| else 3;
    var g := d[..n];
    assert |g| == n && (n == 1 <==> |d| == 1) && (n < 3 <==> |d| < 3);
    var head := EncodeGroup(v, g);
    assert EncodeGroups(v, d) == head + EncodeGroups(v, d[n..]);
    assert EncodeGroups(v, d)[k] == head[k];
    EncodeGroupShape(v, g);
    FirstGroupPadPositions(|d|, k);
  }

  /** The encoding is valid decoder input: its length is a multiple of 4 and every byte is a symbol or the pad. */
  lemma EncodingIsDecodable(v: Variant, d: seq<byte>)
    ensures |EncodeGroups(v, d)| % 4 == 0
    ensures AllKnown(v, EncodeGroups(v, d))
  {
    EncodedLengthIsMultipleOfFour(v, d);
    RoundTrip(v, d);
  }
}

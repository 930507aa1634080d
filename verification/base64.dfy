/**
 * The Base64 / Base64url codec of a translation unit (`from_base64` and `to_base64`).
 * Encoded data is a byte vector whose bytes are alphabet symbols; decoded data is any
 * byte vector. Both directions work block by block: 3 bytes are one 24-bit block,
 * which is 4 symbols of 6 bits each.
 */
module Base64 {
  import opened Prelude
  import opened Bits
  import opened Alphabet
  import opened Configuration

  /** The failures the codec reports, each tied to the message the program prints. */
  datatype CodecError = WrongEncoding | LengthNotMultipleOfFour | NonAlphabetCharacter

  function Message(e: CodecError): (m: string)
    ensures |m| > 0 && m[|m| - 1] == '!'
  {
    match e
    case WrongEncoding => "Wrong encoding! This should not have happened!"
    case LengthNotMultipleOfFour => "Number of bytes for Base64 is not a multiple of 4!"
    case NonAlphabetCharacter => "Non base64-alphabet character encountered!"
  }

  /** The message identifies the error: no two errors share a message. */
  lemma MessagesDistinct(e1: CodecError, e2: CodecError)
    ensures Message(e1) == Message(e2) <==> e1 == e2
  {
    if e1 != e2 {
      assert |Message(e1)| != |Message(e2)|;
    }
  }

  /** The alphabet a base selects; the other bases have no table in the codec. */
  function VariantOf(base: Base): Option<Variant> {
    match base
    case Base64 => Some(Standard)
    case Base64url => Some(UrlSafe)
    case _ => None
  }

  /** `char::from(u8)`: the byte read as a code point, so bytes from 0x80 up are not ASCII. */
  function ByteToChar(b: byte): (c: char)
    ensures c as int == b
    ensures CharToByte(c) == b
  {
    b as char
  }

  /** `c as u8`. */
  function CharToByte(c: char): (r: byte)
    ensures c as int < 256 ==> r == c as int
  {
    AsU8(c as int)
  }

  /** `'=' as u8`. */
  const PadByte: byte := CharToByte(Pad)

  /** The decoder's lookup of one input byte. */
  function Lookup(v: Variant, b: byte): (r: Option<nat>)
    ensures r.Some? ==> r.value <= PadValue
    ensures b >= 0x80 ==> r.None?
  {
    SymbolValue(v, ByteToChar(b))
  }

  /** The byte is one of the 64 symbols of the alphabet (not the pad, not a foreign byte). */
  predicate IsSymbol(v: Variant, b: byte) {
    Lookup(v, b).Some? && Lookup(v, b).value < 64
  }

  /** Every byte of the input is a symbol of the alphabet or the pad. */
  predicate AllKnown(v: Variant, s: seq<byte>) {
    forall i :: 0 <= i < |s| ==> Lookup(v, s[i]).Some?
  }

  /** The byte the encoder emits for a 6-bit value: entry n of its table (`Alphabet.TableAgrees`). */
  function Symbol(v: Variant, n: nat): (r: byte)
    requires n < 64
    ensures Lookup(v, r) == Some(n)
    ensures r != PadByte
  {
    CharToByte(SymbolAt(v, n))
  }

  // ---------------------------------------------------------------------------
  // Encoding

  /**
   * The 24-bit block of one group of 1 to 3 bytes: byte 1 shifted left by 16, byte 2
   * by 8, byte 3 not at all, each or-ed in only when present.
   */
  function EncodeBlock(g: seq<byte>): (block: nat)
    requires 1 <= |g| <= 3
    ensures block < 0x100_0000
  {
    var b1 := BitOr(0, g[0] as nat * 0x1_0000);
    var b2 := if |g| > 1 then BitOr(b1, g[1] as nat * 0x100) else b1;
    if |g| > 2 then BitOr(b2, g[2]) else b2
  }

  /**
   * The four symbols of one group. Symbols 1 and 2 are always real; symbol 3 is the
   * pad when two bytes are missing, symbol 4 when at least one is.
   */
  function EncodeGroup(v: Variant, g: seq<byte>): (r: seq<byte>)
    requires 1 <= |g| <= 3
    ensures |r| == 4
  {
    var missing := 3 - |g|;
    var block := EncodeBlock(g);
    [ Symbol(v, block / 0x4_0000),
      Symbol(v, (block / 0x1000) % 64),
      if missing == 2 then PadByte else Symbol(v, (block / 0x40) % 64),
      if missing >= 1 then PadByte else Symbol(v, block % 64) ]
  }

  /** Four symbols for every started group of three bytes. */
  lemma EncodedLengthStep(n: nat, k: nat)
    requires 1 <= k <= 3 && k <= n && (k < 3 ==> k == n)
    ensures 4 + 4 * ((n - k + 2) / 3) == 4 * ((n + 2) / 3)
  {
  }

  /** Encodes the whole input group by group, in input order. */
  function EncodeGroups(v: Variant, d: seq<byte>): (r: seq<byte>)
    ensures |r| == 4 * ((|d| + 2) / 3)
    decreases |d|
  {
    if |d| == 0 then []
    else
      var n := if |d| < 3 then |d| else 3;
      EncodedLengthStep(|d|, n);
      assert |d[n..]| == |d| - n;
      EncodeGroup(v, d[..n]) + EncodeGroups(v, d[n..])
  }

  /** `to_base64`. */
  function ToBase64(base: Base, decoded: seq<byte>): (r: Result<seq<byte>, CodecError>)
    ensures r.Err? <==> VariantOf(base).None?
    ensures r.Err? ==> r.error == WrongEncoding
    ensures r.Ok? ==> |r.value| == 4 * ((|decoded| + 2) / 3)
    ensures |decoded| == 0 && r.Ok? ==> r.value == []
  {
    match VariantOf(base)
    case None => Err(WrongEncoding)
    case Some(v) => Ok(EncodeGroups(v, decoded))
  }

  // ---------------------------------------------------------------------------
  // Decoding

  /**
   * The block of one group of four symbol values (64 for the pad), or-ed together as
   * the decoder does: value 1 shifted left by 18, value 2 by 12, value 3 by 6 unless it
   * is the pad, value 4 unshifted unless it is the pad. A pad in position 1 or 2 is
   * or-ed in as 64. The block stays below 2^25, so the `u32` never wraps.
   */
  function DecodeBlock(n1: nat, n2: nat, n3: nat, n4: nat): (block: nat)
    requires n1 <= PadValue && n2 <= PadValue && n3 <= PadValue && n4 <= PadValue
    ensures block < 0x200_0000
  {
    var b1 := BitOr(0, n1 * 0x4_0000);
    var b2 := BitOr(b1, n2 * 0x1000);
    var b3 := if n3 != PadValue then BitOr(b2, n3 * 0x40) else b2;
    if n4 != PadValue then BitOr(b3, n4) else b3
  }

  /** Only the pad byte looks up to the pad value; every lookup is at most the pad value. */
  lemma LookupPad(v: Variant, b: byte)
    ensures Lookup(v, b) == Some(PadValue) <==> b == PadByte
    ensures Lookup(v, b).Some? ==> Lookup(v, b).value <= PadValue
  {
  }

  /**
   * The bytes of one group of four symbol values: byte 1 of the block always, byte 2
   * unless value 3 is the pad, byte 3 unless value 4 is the pad.
   */
  function DecodeValues(n1: nat, n2: nat, n3: nat, n4: nat): (r: seq<byte>)
    requires n1 <= PadValue && n2 <= PadValue && n3 <= PadValue && n4 <= PadValue
    ensures |r| == 1 + (if n3 == PadValue then 0 else 1) + (if n4 == PadValue then 0 else 1)
  {
    var block := DecodeBlock(n1, n2, n3, n4);
    [AsU8(block / 0x1_0000)]
    + (if n3 != PadValue then [AsU8(block / 0x100)] else [])
    + (if n4 != PadValue then [AsU8(block)] else [])
  }

  /** Decodes one group of four input bytes; `None` if one of them is not in the alphabet. */
  function DecodeGroup(v: Variant, g: seq<byte>): (r: Option<seq<byte>>)
    requires |g| == 4
    ensures r.Some? <==> AllKnown(v, g)
    ensures r.Some? ==> |r.value| == 1 + (if g[2] == PadByte then 0 else 1) + (if g[3] == PadByte then 0 else 1)
  {
    var l1, l2, l3, l4 := Lookup(v, g[0]), Lookup(v, g[1]), Lookup(v, g[2]), Lookup(v, g[3]);
    if l1.Some? && l2.Some? && l3.Some? && l4.Some? then
      LookupPad(v, g[0]); LookupPad(v, g[1]); LookupPad(v, g[2]); LookupPad(v, g[3]);
      Some(DecodeValues(l1.value, l2.value, l3.value, l4.value))
    else
      None
  }

  /** A concatenation is all alphabet bytes exactly when both parts are. */
  lemma AllKnownAppend(v: Variant, a: seq<byte>, b: seq<byte>)
    ensures AllKnown(v, a + b) <==> AllKnown(v, a) && AllKnown(v, b)
  {
    if AllKnown(v, a + b) {
      forall i | 0 <= i < |a| ensures Lookup(v, a[i]).Some? {
        assert a[i] == (a + b)[i];
      }
      forall i | 0 <= i < |b| ensures Lookup(v, b[i]).Some? {
        assert b[i] == (a + b)[|a| + i];
      }
    }
  }

  /** The concatenation of two partial results; `None` if either is `None`. */
  function Concat(x: Option<seq<byte>>, y: Option<seq<byte>>): (r: Option<seq<byte>>)
    ensures r.Some? <==> x.Some? && y.Some?
    ensures r.Some? ==> |r.value| == |x.value| + |y.value|
  {
    if x.Some? && y.Some? then Some(x.value + y.value) else None
  }

  /** A non-empty input of whole groups is its first group and whole groups after it. */
  lemma FirstGroup(s: seq<byte>)
    requires |s| % 4 == 0 && |s| > 0
    ensures |s| >= 4 && |s[4..]| % 4 == 0 && s == s[..4] + s[4..]
  {
  }

  /** Decodes the whole input group by group and concatenates the groups in input order. */
  function DecodeGroups(v: Variant, s: seq<byte>): (r: Option<seq<byte>>)
    requires |s| % 4 == 0
    ensures r.Some? <==> AllKnown(v, s)
    ensures r.Some? ==> |s| <= 4 * |r.value| <= 3 * |s|
    decreases |s|
  {
    if |s| == 0 then Some([])
    else
      FirstGroup(s);
      AllKnownAppend(v, s[..4], s[4..]);
      Concat(DecodeGroup(v, s[..4]), DecodeGroups(v, s[4..]))
  }

  /** `from_base64`. */
  function FromBase64(base: Base, encoded: seq<byte>): (r: Result<seq<byte>, CodecError>)
    ensures VariantOf(base).None? ==> r == Err(WrongEncoding)
    ensures VariantOf(base).Some? && |encoded| % 4 != 0 ==> r == Err(LengthNotMultipleOfFour)
    ensures VariantOf(base).Some? && |encoded| % 4 == 0 ==>
              (r.Ok? <==> AllKnown(VariantOf(base).value, encoded))
              && (r.Err? ==> r.error == NonAlphabetCharacter)
    ensures r.Ok? ==> |encoded| <= 4 * |r.value| <= 3 * |encoded|
  {
    match VariantOf(base)
    case None => Err(WrongEncoding)
    case Some(v) =>
      if |encoded| % 4 != 0 then Err(LengthNotMultipleOfFour)
      else
        match DecodeGroups(v, encoded)
        case None => Err(NonAlphabetCharacter)
        case Some(d) => Ok(d)
  }
}

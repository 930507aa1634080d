/**
 * What the decoder accepts beyond canonical encodings. It checks only that every
 * byte is a symbol of the alphabet or the pad and that the length is a multiple of 4;
 * where a pad stands in a group does not matter. A pad in position 1 or 2 is or-ed
 * into the block as the value 64, which reaches one bit above its 6-bit field.
 */
module LenientDecoding {
  import opened Prelude
  import opened Bits
  import opened Alphabet
  import opened Base64
  import Base64Properties
  import Rfc4648

  /** A pad in position 1 sets bit 24 of the block, and nothing else. */
  lemma PadFirstBlock(n2: nat, n3: nat, n4: nat)
    requires n2 <= PadValue && n3 <= PadValue && n4 <= PadValue
    ensures DecodeBlock(PadValue, n2, n3, n4) == 0x100_0000 + DecodeBlock(0, n2, n3, n4)
  {
    var top := 0x100_0000;
    assert BitOr(0, 0 * 0x4_0000) == 0 && BitOr(0, n2 * 0x1000) == n2 * 0x1000;
    assert BitOr(0, PadValue * 0x4_0000) == top;
    BitOrAt(1, n2 * 0x1000, 24);
    assert BitOr(top, n2 * 0x1000) == (0x1000 + n2) * 0x1000;
    Base64Properties.OrLowValues(n2, n3, n4);
    Base64Properties.OrLowValues(0x1000 + n2, n3, n4);
  }

  /**
   * Bit 24 is dropped by every `as u8` the decoder applies, so a pad in position 1
   * decodes exactly like 'A' (value 0) there.
   */
  lemma PadFirstReadsAsZero(n2: nat, n3: nat, n4: nat)
    requires n2 <= PadValue && n3 <= PadValue && n4 <= PadValue
    ensures DecodeValues(PadValue, n2, n3, n4) == DecodeValues(0, n2, n3, n4)
  {
    PadFirstBlock(n2, n3, n4);
    var c := DecodeBlock(0, n2, n3, n4);
    var d := DecodeBlock(PadValue, n2, n3, n4);
    assert d / 0x1_0000 == 0x100 + c / 0x1_0000;
    assert d / 0x100 == 0x1_0000 + c / 0x100;
    AsU8Wrap(c / 0x1_0000, 1);
    AsU8Wrap(c / 0x100, 0x100);
    AsU8Wrap(c, 0x1_0000);
  }

  /** `as u8` drops every multiple of 256. */
  lemma AsU8Wrap(x: nat, k: nat)
    ensures AsU8(x + 0x100 * k) == AsU8(x)
  {
    var q, r := x / 0x100, x % 0x100;
    assert x + 0x100 * k == 0x100 * (q + k) + r;
  }

  /** A pad in position 2 lands on bit 18, the lowest bit of the value in position 1. */
  lemma PadSecondBlock(n1: nat, n3: nat, n4: nat)
    requires n1 < 64 && n3 <= PadValue && n4 <= PadValue
    ensures BitOr(n1, 1) <= PadValue
    ensures DecodeBlock(n1, PadValue, n3, n4) == DecodeBlock(BitOr(n1, 1), 0, n3, n4)
  {
    Pow2Values();
    BitOrShift(n1, 1, 18);
  }

  /**
   * A pad in position 2 decodes like 'A' (value 0) with the lowest bit of the first
   * value forced on: the first byte is 4 * (n1 | 1).
   */
  lemma PadSecondSetsLowBit(n1: nat, n3: nat, n4: nat)
    requires n1 < 64 && n3 <= PadValue && n4 <= PadValue
    ensures DecodeValues(n1, PadValue, n3, n4) == DecodeValues(BitOr(n1, 1), 0, n3, n4)
    ensures DecodeValues(n1, PadValue, n3, n4)[0] == 4 * (if n1 % 2 == 0 then n1 + 1 else n1)
  {
    PadSecondBlock(n1, n3, n4);
    BitOrOne(n1);
    Rfc4648.DecodeValuesAreFields(BitOr(n1, 1), 0, n3, n4);
  }

  /**
   * A pad in position 3 followed by a symbol yields two bytes: the first byte of the
   * block and its last, which is the value in position 4; the middle byte is skipped.
   */
  lemma PadThirdSkipsMiddleByte(n1: nat, n2: nat, n4: nat)
    requires n1 < 64 && n2 < 64 && n4 < 64
    ensures DecodeValues(n1, n2, PadValue, n4) == [4 * n1 + n2 / 16, n4]
  {
    Rfc4648.DecodeValuesAreFields(n1, n2, PadValue, n4);
  }

  /** Clearing the low 2 or 4 bits of a value keeps its high bits. */
  lemma ClearLowBits(n: nat)
    ensures (n - n % 16) / 16 == n / 16 && n - n % 16 >= 0
    ensures (n - n % 4) / 4 == n / 4 && (n - n % 4) % 4 == 0 && n - n % 4 >= 0
  {
    assert n - n % 16 == 16 * (n / 16);
    assert n - n % 4 == 4 * (n / 4);
  }

  /** A group ending in two pads decodes to one byte: the 6 bits of its first symbol and the high 2 of its second. */
  lemma TwoPadsValue(n1: nat, n2: nat)
    requires n1 < 64 && n2 < 64
    ensures DecodeValues(n1, n2, PadValue, PadValue) == [4 * n1 + n2 / 16]
  {
    Rfc4648.DecodeValuesAreFields(n1, n2, PadValue, PadValue);
  }

  /**
   * A group ending in two pads keeps only the high 4 bits of its second symbol: the
   * bits a canonical encoder leaves zero are ignored, not rejected.
   */
  lemma TrailingBitsIgnoredTwoPads(n1: nat, n2: nat)
    requires n1 < 64 && n2 < 64
    ensures DecodeValues(n1, n2, PadValue, PadValue) == DecodeValues(n1, n2 - n2 % 16, PadValue, PadValue)
  {
    ClearLowBits(n2);
    TwoPadsValue(n1, n2);
    TwoPadsValue(n1, n2 - n2 % 16);
  }

  /**
   * A group ending in one pad keeps only the high 2 bits of its third symbol: the
   * bits a canonical encoder leaves zero are ignored, not rejected.
   */
  lemma TrailingBitsIgnoredOnePad(n1: nat, n2: nat, n3: nat)
    requires n1 < 64 && n2 < 64 && n3 < 64
    ensures DecodeValues(n1, n2, n3, PadValue) == DecodeValues(n1, n2, n3 - n3 % 4, PadValue)
  {
    var m3 := n3 - n3 % 4;
    ClearLowBits(n3);
    Rfc4648.DecodeValuesAreFields(n1, n2, n3, PadValue);
    assert DecodeValues(n1, n2, n3, PadValue) == [4 * n1 + n2 / 16, (n2 % 16) * 16 + n3 / 4];
    Rfc4648.DecodeValuesAreFields(n1, n2, m3, PadValue);
    assert DecodeValues(n1, n2, m3, PadValue) == [4 * n1 + n2 / 16, (n2 % 16) * 16 + m3 / 4];
  }

  /**
   * A padded group may stand anywhere: the decoding of several groups is the
   * decodings of the groups one after the other, padded or not.
   */
  lemma PaddingMidStream(v: Variant, a: seq<byte>, b: seq<byte>)
    requires |a| == 4 && |b| % 4 == 0 && AllKnown(v, a) && AllKnown(v, b)
    ensures DecodeGroups(v, a + b).Some?
    ensures DecodeGroups(v, a + b).value == DecodeGroup(v, a).value + DecodeGroups(v, b).value
  {
    assert |a| % 4 == 0;
    Base64Properties.DecodeAppend(v, a, b);
    assert a[..4] == a && a[4..] == [];
    assert DecodeGroups(v, a) == Concat(DecodeGroup(v, a), Some([]));
  }

  /** Bytes from 0x80 up are never in either alphabet. */
  lemma HighBytesRejected(v: Variant, b: byte)
    requires b >= 0x80
    ensures Lookup(v, b) == None
  {
  }

  /** Each alphabet rejects the two symbols that only the other one has. */
  lemma ForeignSymbolsRejected()
    ensures Lookup(Standard, CharToByte('-')) == None && Lookup(Standard, CharToByte('_')) == None
    ensures Lookup(UrlSafe, CharToByte('+')) == None && Lookup(UrlSafe, CharToByte('/')) == None
    ensures Lookup(Standard, CharToByte('+')) == Some(62) && Lookup(UrlSafe, CharToByte('-')) == Some(62)
    ensures Lookup(Standard, CharToByte('/')) == Some(63) && Lookup(UrlSafe, CharToByte('_')) == Some(63)
  {
  }
}

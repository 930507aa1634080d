/**
 * Test vectors, as byte vectors: the examples of section 10 of RFC 4648, the
 * two-character Japanese string "みま" in both alphabets, the decoding example of the
 * library's documentation, the three error cases, and the lenient decodings.
 */
module TestVectors {
  import opened Prelude
  import opened Alphabet
  import opened Configuration
  import opened Base64
  import Base64Properties
  import Rfc4648
  import LenientDecoding
  import TranslationUnits

  /** The codec on one vector: encoding gives `enc`, decoding `enc` gives the vector back. */
  predicate CodecTranslates(base: Base, dec: seq<byte>, enc: seq<byte>) {
    ToBase64(base, dec) == Ok(enc) && FromBase64(base, enc) == Ok(dec)
  }

  /**
   * The repository's unit tests on one vector: a unit built by `new` for encoding `dec`
   * translates to `enc`, and one built for decoding `enc` translates to `dec`.
   */
  predicate UnitsTranslate(base: Base, dec: seq<byte>, enc: seq<byte>) {
    var e := TranslationUnits.Translate(TranslationUnits.New(dec, Settings(base, Encode)));
    var d := TranslationUnits.Translate(TranslationUnits.New(enc, Settings(base, Decode)));
    && e.outcome == TranslationUnits.Done && e.unit.encodedData == Some(enc)
    && d.outcome == TranslationUnits.Done && d.unit.decodedData == Some(dec)
  }

  /** A vector holds for the codec and for units. */
  predicate Translates(base: Base, dec: seq<byte>, enc: seq<byte>) {
    CodecTranslates(base, dec, enc) && UnitsTranslate(base, dec, enc)
  }

  /** What the codec does on a vector, a freshly built unit does on it. */
  lemma CodecToUnits(base: Base, dec: seq<byte>, enc: seq<byte>)
    requires CodecTranslates(base, dec, enc)
    ensures UnitsTranslate(base, dec, enc)
  {
  }

  /** Whatever the encoder emits, the decoder reads back: one encoding fixes both directions. */
  lemma EncodedDecodes(base: Base, dec: seq<byte>, enc: seq<byte>)
    requires base == Base64 || base == Base64url
    requires Rfc4648.Encode(VariantOf(base).value, dec) == enc
    ensures Translates(base, dec, enc)
  {
    Rfc4648.EncodeIsStandard(VariantOf(base).value, dec);
    Base64Properties.CodecRoundTrip(base, dec);
    CodecToUnits(base, dec, enc);
  }

  /** The two alphabets agree on the values below 62: letters and digits. */
  lemma SymbolsShared(v: Variant, n: nat)
    requires n < 62
    ensures Symbol(v, n) == Symbol(Standard, n)
    ensures Symbol(v, n) == if n < 26 then 0x41 + n else if n < 52 then 0x47 + n else n - 4
  {
    Base64Properties.SymbolCode(v, n);
    Base64Properties.SymbolCode(Standard, n);
  }

  /** The encoding of at most three bytes is one quantum. */
  lemma EncodeOne(v: Variant, g: seq<byte>)
    requires 1 <= |g| <= 3
    ensures Rfc4648.Encode(v, g) == Rfc4648.EncodeQuantum(v, g)
  {
    if |g| == 3 {
      assert g[..3] == g && g[3..] == [];
    }
  }

  /** The encoding of three bytes and then at most three more is two quanta. */
  lemma EncodeTwo(v: Variant, a: seq<byte>, b: seq<byte>)
    requires |a| == 3 && 1 <= |b| <= 3
    ensures Rfc4648.Encode(v, a + b) == Rfc4648.EncodeQuantum(v, a) + Rfc4648.EncodeQuantum(v, b)
  {
    assert (a + b)[..3] == a && (a + b)[3..] == b;
    EncodeOne(v, b);
  }

  /** "f" encodes as "Zg==". */
  lemma QuantumF(v: Variant)
    ensures Rfc4648.EncodeQuantum(v, [0x66]) == [0x5a, 0x67, 0x3d, 0x3d]
  {
    assert Rfc4648.QuantumValues([0x66]) == [25, 32, PadValue, PadValue];
    SymbolsShared(v, 25);
    SymbolsShared(v, 32);
  }

  /** "fo" encodes as "Zm8=". */
  lemma QuantumFo(v: Variant)
    ensures Rfc4648.EncodeQuantum(v, [0x66, 0x6f]) == [0x5a, 0x6d, 0x38, 0x3d]
  {
    assert Rfc4648.QuantumValues([0x66, 0x6f]) == [25, 38, 60, PadValue];
    SymbolsShared(v, 25);
    SymbolsShared(v, 38);
    SymbolsShared(v, 60);
  }

  /** "foo" encodes as "Zm9v". */
  lemma QuantumFoo(v: Variant)
    ensures Rfc4648.EncodeQuantum(v, [0x66, 0x6f, 0x6f]) == [0x5a, 0x6d, 0x39, 0x76]
  {
    assert Rfc4648.QuantumValues([0x66, 0x6f, 0x6f]) == [25, 38, 61, 47];
    SymbolsShared(v, 25);
    SymbolsShared(v, 38);
    SymbolsShared(v, 61);
    SymbolsShared(v, 47);
  }

  /** "b" encodes as "Yg==". */
  lemma QuantumB(v: Variant)
    ensures Rfc4648.EncodeQuantum(v, [0x62]) == [0x59, 0x67, 0x3d, 0x3d]
  {
    assert Rfc4648.QuantumValues([0x62]) == [24, 32, PadValue, PadValue];
    SymbolsShared(v, 24);
    SymbolsShared(v, 32);
  }

  /** "ba" encodes as "YmE=". */
  lemma QuantumBa(v: Variant)
    ensures Rfc4648.EncodeQuantum(v, [0x62, 0x61]) == [0x59, 0x6d, 0x45, 0x3d]
  {
    assert Rfc4648.QuantumValues([0x62, 0x61]) == [24, 38, 4, PadValue];
    SymbolsShared(v, 24);
    SymbolsShared(v, 38);
    SymbolsShared(v, 4);
  }

  /** "bar" encodes as "YmFy". */
  lemma QuantumBar(v: Variant)
    ensures Rfc4648.EncodeQuantum(v, [0x62, 0x61, 0x72]) == [0x59, 0x6d, 0x46, 0x79]
  {
    assert Rfc4648.QuantumValues([0x62, 0x61, 0x72]) == [24, 38, 5, 50];
    SymbolsShared(v, 24);
    SymbolsShared(v, 38);
    SymbolsShared(v, 5);
    SymbolsShared(v, 50);
  }

  /** "wai" encodes as "d2Fp". */
  lemma QuantumWai(v: Variant)
    ensures Rfc4648.EncodeQuantum(v, [0x77, 0x61, 0x69]) == [0x64, 0x32, 0x46, 0x70]
  {
    assert Rfc4648.QuantumValues([0x77, 0x61, 0x69]) == [29, 54, 5, 41];
    SymbolsShared(v, 29);
    SymbolsShared(v, 54);
    SymbolsShared(v, 5);
    SymbolsShared(v, 41);
  }

  /** "fu" encodes as "ZnU=". */
  lemma QuantumFu(v: Variant)
    ensures Rfc4648.EncodeQuantum(v, [0x66, 0x75]) == [0x5a, 0x6e, 0x55, 0x3d]
  {
    assert Rfc4648.QuantumValues([0x66, 0x75]) == [25, 39, 20, PadValue];
    SymbolsShared(v, 25);
    SymbolsShared(v, 39);
    SymbolsShared(v, 20);
  }

  /** The bytes [0xe3, 0x81, 0xbf] encode as "44G/". */
  lemma QuantumMi()
    ensures Rfc4648.EncodeQuantum(Standard, [0xe3, 0x81, 0xbf]) == [0x34, 0x34, 0x47, 0x2f]
  {
    assert Rfc4648.QuantumValues([0xe3, 0x81, 0xbf]) == [56, 56, 6, 63];
  }

  /** The bytes [0xe3, 0x81, 0xbe] encode as "44G+". */
  lemma QuantumMa()
    ensures Rfc4648.EncodeQuantum(Standard, [0xe3, 0x81, 0xbe]) == [0x34, 0x34, 0x47, 0x2b]
  {
    assert Rfc4648.QuantumValues([0xe3, 0x81, 0xbe]) == [56, 56, 6, 62];
  }

  /** The bytes [0xe3, 0x81, 0xbf] encode as "44G_". */
  lemma QuantumMiUrl()
    ensures Rfc4648.EncodeQuantum(UrlSafe, [0xe3, 0x81, 0xbf]) == [0x34, 0x34, 0x47, 0x5f]
  {
    assert Rfc4648.QuantumValues([0xe3, 0x81, 0xbf]) == [56, 56, 6, 63];
  }

  /** The bytes [0xe3, 0x81, 0xbe] encode as "44G-". */
  lemma QuantumMaUrl()
    ensures Rfc4648.EncodeQuantum(UrlSafe, [0xe3, 0x81, 0xbe]) == [0x34, 0x34, 0x47, 0x2d]
  {
    assert Rfc4648.QuantumValues([0xe3, 0x81, 0xbe]) == [56, 56, 6, 62];
  }

  /** Section 10 of RFC 4648: "" is "" in both alphabets. */
  lemma EmptyExample(base: Base)
    requires base == Base64 || base == Base64url
    ensures Translates(base, [], [])
  {
    EncodedDecodes(base, [], []);
  }

  /** Section 10 of RFC 4648: "f" is "Zg==" in both alphabets. */
  lemma FExample(base: Base)
    requires base == Base64 || base == Base64url
    ensures Translates(base, [0x66], [0x5a, 0x67, 0x3d, 0x3d])
  {
    var v := VariantOf(base).value;
    QuantumF(v);
    EncodeOne(v, [0x66]);
    EncodedDecodes(base, [0x66], [0x5a, 0x67, 0x3d, 0x3d]);
  }

  /** Section 10 of RFC 4648: "fo" is "Zm8=" in both alphabets. */
  lemma FoExample(base: Base)
    requires base == Base64 || base == Base64url
    ensures Translates(base, [0x66, 0x6f], [0x5a, 0x6d, 0x38, 0x3d])
  {
    var v := VariantOf(base).value;
    QuantumFo(v);
    EncodeOne(v, [0x66, 0x6f]);
    EncodedDecodes(base, [0x66, 0x6f], [0x5a, 0x6d, 0x38, 0x3d]);
  }

  /** Section 10 of RFC 4648: "foo" is "Zm9v" in both alphabets. */
  lemma FooExample(base: Base)
    requires base == Base64 || base == Base64url
    ensures Translates(base, [0x66, 0x6f, 0x6f], [0x5a, 0x6d, 0x39, 0x76])
  {
    var v := VariantOf(base).value;
    QuantumFoo(v);
    EncodeOne(v, [0x66, 0x6f, 0x6f]);
    EncodedDecodes(base, [0x66, 0x6f, 0x6f], [0x5a, 0x6d, 0x39, 0x76]);
  }

  /** Section 10 of RFC 4648: "foob" is "Zm9vYg==" in both alphabets. */
  lemma FoobExample(base: Base)
    requires base == Base64 || base == Base64url
    ensures Translates(base, [0x66, 0x6f, 0x6f, 0x62], [0x5a, 0x6d, 0x39, 0x76, 0x59, 0x67, 0x3d, 0x3d])
  {
    var v := VariantOf(base).value;
    var d: seq<byte>, e: seq<byte> := [0x66, 0x6f, 0x6f, 0x62], [0x5a, 0x6d, 0x39, 0x76, 0x59, 0x67, 0x3d, 0x3d];
    assert d == [0x66, 0x6f, 0x6f] + [0x62];
    assert e == [0x5a, 0x6d, 0x39, 0x76] + [0x59, 0x67, 0x3d, 0x3d];
    QuantumFoo(v);
    QuantumB(v);
    EncodeTwo(v, [0x66, 0x6f, 0x6f], [0x62]);
    EncodedDecodes(base, d, e);
  }

  /** Section 10 of RFC 4648: "fooba" is "Zm9vYmE=" in both alphabets. */
  lemma FoobaExample(base: Base)
    requires base == Base64 || base == Base64url
    ensures Translates(base, [0x66, 0x6f, 0x6f, 0x62, 0x61], [0x5a, 0x6d, 0x39, 0x76, 0x59, 0x6d, 0x45, 0x3d])
  {
    var v := VariantOf(base).value;
    var d: seq<byte>, e: seq<byte> := [0x66, 0x6f, 0x6f, 0x62, 0x61], [0x5a, 0x6d, 0x39, 0x76, 0x59, 0x6d, 0x45, 0x3d];
    assert d == [0x66, 0x6f, 0x6f] + [0x62, 0x61];
    assert e == [0x5a, 0x6d, 0x39, 0x76] + [0x59, 0x6d, 0x45, 0x3d];
    QuantumFoo(v);
    QuantumBa(v);
    EncodeTwo(v, [0x66, 0x6f, 0x6f], [0x62, 0x61]);
    EncodedDecodes(base, d, e);
  }

  /** Section 10 of RFC 4648: "foobar" is "Zm9vYmFy" in both alphabets. */
  lemma FoobarExample(base: Base)
    requires base == Base64 || base == Base64url
    ensures Translates(base, [0x66, 0x6f, 0x6f, 0x62, 0x61, 0x72], [0x5a, 0x6d, 0x39, 0x76, 0x59, 0x6d, 0x46, 0x79])
  {
    var v := VariantOf(base).value;
    var d: seq<byte>, e: seq<byte> := [0x66, 0x6f, 0x6f, 0x62, 0x61, 0x72], [0x5a, 0x6d, 0x39, 0x76, 0x59, 0x6d, 0x46, 0x79];
    assert d == [0x66, 0x6f, 0x6f] + [0x62, 0x61, 0x72];
    assert e == [0x5a, 0x6d, 0x39, 0x76] + [0x59, 0x6d, 0x46, 0x79];
    QuantumFoo(v);
    QuantumBar(v);
    EncodeTwo(v, [0x66, 0x6f, 0x6f], [0x62, 0x61, 0x72]);
    EncodedDecodes(base, d, e);
  }

  /** The UTF-8 bytes of "みま" are "44G/44G+" in the standard alphabet. */
  lemma JapaneseStandard()
    ensures Translates(Base64, [0xe3, 0x81, 0xbf, 0xe3, 0x81, 0xbe], [0x34, 0x34, 0x47, 0x2f, 0x34, 0x34, 0x47, 0x2b])
  {
    var d: seq<byte>, e: seq<byte> := [0xe3, 0x81, 0xbf, 0xe3, 0x81, 0xbe], [0x34, 0x34, 0x47, 0x2f, 0x34, 0x34, 0x47, 0x2b];
    assert d == [0xe3, 0x81, 0xbf] + [0xe3, 0x81, 0xbe];
    assert e == [0x34, 0x34, 0x47, 0x2f] + [0x34, 0x34, 0x47, 0x2b];
    QuantumMi();
    QuantumMa();
    EncodeTwo(Standard, [0xe3, 0x81, 0xbf], [0xe3, 0x81, 0xbe]);
    EncodedDecodes(Base64, d, e);
  }

  /** The UTF-8 bytes of "みま" are "44G_44G-" in the URL-safe alphabet. */
  lemma JapaneseUrlSafe()
    ensures Translates(Base64url, [0xe3, 0x81, 0xbf, 0xe3, 0x81, 0xbe], [0x34, 0x34, 0x47, 0x5f, 0x34, 0x34, 0x47, 0x2d])
  {
    var d: seq<byte>, e: seq<byte> := [0xe3, 0x81, 0xbf, 0xe3, 0x81, 0xbe], [0x34, 0x34, 0x47, 0x5f, 0x34, 0x34, 0x47, 0x2d];
    assert d == [0xe3, 0x81, 0xbf] + [0xe3, 0x81, 0xbe];
    assert e == [0x34, 0x34, 0x47, 0x5f] + [0x34, 0x34, 0x47, 0x2d];
    QuantumMiUrl();
    QuantumMaUrl();
    EncodeTwo(UrlSafe, [0xe3, 0x81, 0xbf], [0xe3, 0x81, 0xbe]);
    EncodedDecodes(Base64url, d, e);
  }

  /** The documentation's example: "d2FpZnU=" decodes to "waifu". */
  lemma WaifuExample()
    ensures Translates(Base64, [0x77, 0x61, 0x69, 0x66, 0x75], [0x64, 0x32, 0x46, 0x70, 0x5a, 0x6e, 0x55, 0x3d])
  {
    var d: seq<byte>, e: seq<byte> := [0x77, 0x61, 0x69, 0x66, 0x75], [0x64, 0x32, 0x46, 0x70, 0x5a, 0x6e, 0x55, 0x3d];
    assert d == [0x77, 0x61, 0x69] + [0x66, 0x75];
    assert e == [0x64, 0x32, 0x46, 0x70] + [0x5a, 0x6e, 0x55, 0x3d];
    QuantumWai(Standard);
    QuantumFu(Standard);
    EncodeTwo(Standard, [0x77, 0x61, 0x69], [0x66, 0x75]);
    EncodedDecodes(Base64, d, e);
  }

  /** The library documentation's example on a unit: a decoding unit for "d2FpZnU=" ends up holding "waifu". */
  lemma WaifuUnit()
    ensures var u := TranslationUnits.New([0x64, 0x32, 0x46, 0x70, 0x5a, 0x6e, 0x55, 0x3d], Settings(Base64, Decode));
      TranslationUnits.Translate(u) == TranslationUnits.Step(u.(decodedData := Some([0x77, 0x61, 0x69, 0x66, 0x75])), TranslationUnits.Done)
  {
    WaifuExample();
  }

  /** The three errors: a length that is not a multiple of 4, a byte outside the alphabet, a base without a codec. */
  lemma ErrorVectors()
    ensures FromBase64(Base64, [0x5a, 0x67, 0x3d]) == Err(LengthNotMultipleOfFour)            // "Zg="
    ensures FromBase64(Base32, [0x5a, 0x67, 0x3d, 0x3d]) == Err(WrongEncoding)
    ensures ToBase64(Guess, [0x66]) == Err(WrongEncoding)
  {
    LengthRejected(Base64, [0x5a, 0x67, 0x3d]);
  }

  /** An input whose length is not a multiple of 4 is rejected before any byte is looked at. */
  lemma LengthRejected(base: Base, s: seq<byte>)
    requires base == Base64 || base == Base64url
    requires |s| % 4 != 0
    ensures FromBase64(base, s) == Err(LengthNotMultipleOfFour)
  {
  }

  /** A group with a byte its alphabet does not know is rejected, whatever the other bytes are. */
  lemma RejectedAt(base: Base, s: seq<byte>, i: nat)
    requires base == Base64 || base == Base64url
    requires |s| == 4 && i < 4 && Lookup(VariantOf(base).value, s[i]).None?
    ensures FromBase64(base, s) == Err(NonAlphabetCharacter)
  {
  }

  /** Bytes outside the alphabet: '#', the other alphabet's symbols, and a byte above 0x7f. */
  lemma ForeignByteVectors()
    ensures FromBase64(Base64, [0x5a, 0x67, 0x23, 0x3d]) == Err(NonAlphabetCharacter)         // "Zg#="
    ensures FromBase64(Base64url, [0x5a, 0x67, 0x2b, 0x3d]) == Err(NonAlphabetCharacter)      // "Zg+="
    ensures FromBase64(Base64, [0x5a, 0x67, 0x5f, 0x3d]) == Err(NonAlphabetCharacter)         // "Zg_="
    ensures FromBase64(Base64, [0x5a, 0x67, 0x3d, 0xc3]) == Err(NonAlphabetCharacter)         // "Zg=" and a byte above 0x7f
  {
    RejectedAt(Base64, [0x5a, 0x67, 0x23, 0x3d], 2);
    RejectedAt(Base64url, [0x5a, 0x67, 0x2b, 0x3d], 2);
    RejectedAt(Base64, [0x5a, 0x67, 0x5f, 0x3d], 2);
    RejectedAt(Base64, [0x5a, 0x67, 0x3d, 0xc3], 3);
  }

  /** A single group decodes on its own. */
  lemma DecodeOneGroup(v: Variant, s: seq<byte>)
    requires |s| == 4
    ensures DecodeGroups(v, s) == DecodeGroup(v, s)
  {
    assert s[..4] == s && s[4..] == [];
    var g := DecodeGroup(v, s);
    if g.Some? {
      assert g.value + [] == g.value;
    }
  }

  /** A standard-alphabet input of one group whose four bytes look up to n1..n4 decodes to their values. */
  lemma DecodeLookedUp(s: seq<byte>, n1: nat, n2: nat, n3: nat, n4: nat)
    requires |s| == 4 && n1 <= PadValue && n2 <= PadValue && n3 <= PadValue && n4 <= PadValue
    requires Lookup(Standard, s[0]) == Some(n1) && Lookup(Standard, s[1]) == Some(n2)
    requires Lookup(Standard, s[2]) == Some(n3) && Lookup(Standard, s[3]) == Some(n4)
    ensures FromBase64(Base64, s) == Ok(DecodeValues(n1, n2, n3, n4))
  {
    DecodeOneGroup(Standard, s);
  }

  /** "====" is accepted and decodes to the single byte 4. */
  lemma AllPadsVector()
    ensures FromBase64(Base64, [0x3d, 0x3d, 0x3d, 0x3d]) == Ok([4])
  {
    DecodeLookedUp([0x3d, 0x3d, 0x3d, 0x3d], PadValue, PadValue, PadValue, PadValue);
    ValuesOfPads();
  }

  /** The decoding of "====": the first pad reads as 0, the second sets the low bit of the first value. */
  lemma ValuesOfPads()
    ensures DecodeValues(PadValue, PadValue, PadValue, PadValue) == [4]
  {
    var p := PadValue;
    LenientDecoding.PadFirstReadsAsZero(p, p, p);
    LenientDecoding.PadSecondSetsLowBit(0, p, p);
    var r := DecodeValues(p, p, p, p);
    assert |r| == 1 && r[0] == 4;
    assert r == [4];
  }

  /** "Zg=A" is accepted: the pad in position 3 skips the middle byte, giving "f" and a zero byte. */
  lemma PadThenSymbolVector()
    ensures FromBase64(Base64, [0x5a, 0x67, 0x3d, 0x41]) == Ok([0x66, 0x00])
  {
    DecodeLookedUp([0x5a, 0x67, 0x3d, 0x41], 25, 32, PadValue, 0);
    ValuesOfZgA();
  }

  /** The decoding of "Zg=A". */
  lemma ValuesOfZgA()
    ensures DecodeValues(25, 32, PadValue, 0) == [0x66, 0x00]
  {
    var n1, n2, n4 := 25, 32, 0;
    LenientDecoding.PadThirdSkipsMiddleByte(n1, n2, n4);
    assert 4 * n1 + n2 / 16 == 0x66;
  }

  /** The decoding of "Zh==". */
  lemma ValuesOfZh()
    ensures DecodeValues(25, 33, PadValue, PadValue) == [0x66]
  {
    var n1, n2 := 25, 33;
    LenientDecoding.TwoPadsValue(n1, n2);
    assert 4 * n1 + n2 / 16 == 0x66;
  }

  /**
   * "Zh==" decodes to "f" although "f" encodes as "Zg==": bits a canonical encoder
   * leaves zero are not checked, so decoding then encoding need not give the input back.
   */
  lemma NonCanonicalVector()
    ensures FromBase64(Base64, [0x5a, 0x68, 0x3d, 0x3d]) == Ok([0x66])
    ensures ToBase64(Base64, [0x66]) == Ok([0x5a, 0x67, 0x3d, 0x3d])
  {
    DecodeLookedUp([0x5a, 0x68, 0x3d, 0x3d], 25, 33, PadValue, PadValue);
    ValuesOfZh();
    FExample(Base64);
  }

  /** A group repeated decodes to its decoding repeated. */
  lemma DecodeTwice(v: Variant, g: seq<byte>, d: seq<byte>)
    requires |g| == 4 && DecodeGroups(v, g) == Some(d)
    ensures |g + g| % 4 == 0
    ensures DecodeGroups(v, g + g) == Some(d + d)
  {
    DecodeOneGroup(v, g);
    LenientDecoding.PaddingMidStream(v, g, g);
  }

  /** "Zg==Zg==" is accepted: a padded group in the middle of the input ends nothing, giving "ff". */
  lemma MidStreamPadVector()
    ensures FromBase64(Base64, [0x5a, 0x67, 0x3d, 0x3d, 0x5a, 0x67, 0x3d, 0x3d]) == Ok([0x66, 0x66])
  {
    var g: seq<byte> := [0x5a, 0x67, 0x3d, 0x3d];
    FExample(Base64);
    DecodeTwice(Standard, g, [0x66]);
    assert g + g == [0x5a, 0x67, 0x3d, 0x3d, 0x5a, 0x67, 0x3d, 0x3d];
    assert [0x66] + [0x66] == [0x66, 0x66];
  }
}

# encodex: the Base64 translation unit in Dafny

encodex translates byte vectors to and from the Base encodings of RFC 4648. Its core is
the `TranslationUnit`. A unit is built from one byte vector and a `Settings`
configuration, which names a `Base` and an `EncodeMode`. The direction decides which
slot the data goes into: encoded data when decoding, decoded data when encoding.
`translate` fills the other slot once. Only `Base64` and `Base64url` have a codec.
`Base32`, `Base32hex`, `Base16` and `Guess` end in `todo!()`.

This project models that core as pure functions on immutable datatypes:

- `prelude.dfy` (`Prelude`) defines bytes, `Option`, `Result` and the `as u8` truncation (`AsU8`, `% 256`).
- `bits.dfy` (`Bits`) defines a bitwise or on naturals (`BitOr`). The decoder ors shifted values together. A pad in position 2 is or-ed in as 64 << 12, which sets bit 18, the low bit of value 1 << 18. These values overlap, so `|` cannot be modelled as `+`. A pad in position 1 sets bit 24, which no other value reaches. `BitOrBits` proves that `BitOr` is bitwise.
- `settings.dfy` (`Configuration`) models `Base`, `EncodeMode` and `Settings` with its constructor and setters.
- `alphabet.dfy` (`Alphabet`) models the two 64-symbol tables the encoder indexes, written out literally, and the symbol-to-value map the decoder consults. The map sends '=' to 64. The encoder reads its symbols through `SymbolAt`, a range-based description that `TableAgrees` proves equal to the literal table.
- `base64.dfy` (`Base64`) models `to_base64` and `from_base64` group by group. It keeps the decoder's exact block arithmetic: shifts, or, `>>` and `as u8`.
- `translation_unit.dfy` (`TranslationUnits`) models `new`, `translate` and the two dispatchers on a `TranslationUnit` value. A call returns the new unit together with its outcome.
- `roundtrip.dfy` (`Base64Properties`) proves the round trip for both alphabets, the shape of the padding, and that decoding works group by group.
- `rfc4648.dfy` (`Rfc4648`) gives an independent arithmetic definition of the encoding in section 4 of RFC 4648. It proves that the encoder emits exactly that encoding and that the decoder reads back the standard's byte fields.
- `lenient.dfy` (`LenientDecoding`) states what the decoder accepts beyond canonical input. A pad in position 1 or 2 is or-ed in as 64. A pad in position 3 followed by a symbol yields bytes 1 and 3. Padded groups may appear mid-stream. Non-zero trailing bits are ignored. Bytes from 0x80 up are rejected.
- `vectors.dfy` (`TestVectors`) holds the repository's test vectors as lemmas:
  - the section 10 vectors of RFC 4648 in both alphabets;
  - "みま";
  - the library documentation's "d2FpZnU=";
  - the error cases;
  - lenient inputs.

## Model

| member | source | states |
|---|---|---|
| Configuration.NewSettings | src/settings.rs:72-81 | A fresh configuration guesses the base and encodes. |
| Configuration.Settings.SetBase | src/settings.rs:84-90 | After `set_base(b)` the base getter returns b and the direction is unchanged. |
| Configuration.Settings.SetEncodeMode | src/settings.rs:84-93 | After `set_encode_mode(m)` the direction getter returns m and the base is unchanged. |
| Configuration.Configure | src/base_encoding.rs:325-351 | Defaults followed by both setters, in either order, give exactly the chosen base and direction. |
| Configuration.LastSetWins | src/settings.rs:84-93 | A later setter of a field overrides an earlier one; the other field keeps its last set value. |
| TranslationUnits.New | src/base_encoding.rs:77-101 | The data goes into the encoded slot when decoding and into the decoded slot when encoding. The other slot is empty and the configuration is kept. |
| TranslationUnits.DecodeInto | src/base_encoding.rs:146-246 | Success exactly when the codec decodes, and then only the decoded slot changes, to the decoding. On an error the unit is unchanged, so no partial result is kept, and the outcome carries the codec's error. |
| TranslationUnits.EncodeInto | src/base_encoding.rs:250-317 | Success exactly when the codec encodes, and then only the encoded slot changes, to the encoding. On an error the unit is unchanged and the outcome carries the codec's error. |
| TranslationUnits.DecodeDispatch | src/base_encoding.rs:122-130 | The unit panics as unimplemented exactly for bases other than Base64 and Base64url, leaving the unit as it was. For Base64 and Base64url the call is exactly `from_base64` on the unit, so it never reports a wrong encoding. |
| TranslationUnits.EncodeDispatch | src/base_encoding.rs:134-142 | Unimplemented exactly for bases without a codec. Otherwise the call is exactly `to_base64` on the unit, and encoding always succeeds. |
| TranslationUnits.Translate | src/base_encoding.rs:103-118 | Never changes the configuration or the source slot. If the target is already filled, it does nothing and reports success. Success holds exactly when the target ends up filled, and a failure leaves the unit unchanged. A success that fills an empty target stores exactly the codec's result for the configured direction: the decoding of the source when decoding, its encoding when encoding. Only decoding can fail; the outcome then carries the decoder's error, never a wrong encoding. |
| TranslationUnits.TranslateIdempotent | src/base_encoding.rs:103-118 | A second call changes nothing. It succeeds again after a success and repeats a failure. |
| TranslationUnits.UnitRoundTrip | src/base_encoding.rs:84-118 | A unit that encodes data with Base64 or Base64url succeeds. A second unit decoding that output with the same base succeeds and holds the original data. |
| Base64.ToBase64 | src/base_encoding.rs:250-317 | Fails, with the wrong-encoding error only, exactly for bases without a table. The output length is 4·⌈n/3⌉, and empty input gives empty output. |
| Base64.FromBase64 | src/base_encoding.rs:146-246 | A base without a table gives the wrong-encoding error. Otherwise a length that is not a multiple of 4 gives the length error. Otherwise the result is Ok exactly when every byte is a symbol or '=', and the error is the non-alphabet error. An Ok output has 1 to 3 bytes per group of four input bytes: n ≤ 4·m ≤ 3·n for input length n and output length m. |
| Base64.EncodeGroups | src/base_encoding.rs:268-314 | The encoding has 4 symbols for every started group of three bytes. |
| Base64.EncodeGroup | src/base_encoding.rs:271-313 | A group of 1 to 3 bytes yields exactly four output bytes. |
| Base64.DecodeGroup | src/base_encoding.rs:182-242 | A group decodes exactly when its four bytes are all known to the alphabet. It then yields 1 byte, plus one unless byte 3 is '=', plus one unless byte 4 is '='. |
| Base64.DecodeGroups | src/base_encoding.rs:178-243 | The input decodes exactly when every byte is known. The output has 1 to 3 bytes per group: n ≤ 4·m ≤ 3·n for input length n and output length m. |
| Prelude.AsU8 | src/base_encoding.rs:239-241 | `as u8` keeps a value below 256 unchanged and otherwise differs from it by a multiple of 256. |
| Bits.BitOr | src/base_encoding.rs:276-287 | The or of two naturals is at least each of them and at most their sum. |
| Bits.BitOrBits | src/base_encoding.rs:276-287 | Bit k of a \| b is set exactly when bit k of a or bit k of b is: `BitOr` is the bitwise `\|`. |
| Alphabet.SymbolValue | src/base_encoding.rs:147-171 | The map is defined only on ASCII characters, gives values up to 64, and gives 64 exactly for '='. |
| Alphabet.SymbolAt | src/base_encoding.rs:253-262 | The symbol for value n is ASCII, and the decoder's map sends it back to n. |
| Base64.ByteToChar | src/base_encoding.rs:185 | `char::from` keeps the byte's code, and `as u8` turns the character back into the byte. |
| Base64.CharToByte | src/base_encoding.rs:293-294 | `as u8` keeps the code of a character below 256. |
| Base64.Lookup | src/base_encoding.rs:185-186 | A looked-up byte yields at most 64, and no byte from 0x80 up is known to either alphabet. |
| Base64.Symbol | src/base_encoding.rs:292-311 | The byte the encoder emits for value n looks up to n in the decoder's map and is never '='. |
| Base64.Message | src/base_encoding.rs:172-188 | Every error message is non-empty and ends with '!'. |
| Base64.MessagesDistinct | src/base_encoding.rs:172-188 | The three errors have three different messages, so the message identifies the error. |
| Base64.EncodeBlock | src/base_encoding.rs:272-289 | The block of 1 to 3 bytes fits in 24 bits. Its value is the weighted sum of the bytes (`EncodeBlockValue`). |
| Base64.DecodeBlock | src/base_encoding.rs:182-237 | The block of four values up to 64 stays below 2^25, so the `u32` never wraps. |
| Base64.DecodeValues | src/base_encoding.rs:239-241 | A group yields one byte, plus one for each of values 3 and 4 that is not the pad. |
| Base64.LookupPad | src/base_encoding.rs:147-171 | Only '=' looks up to 64, and no byte looks up to more. |
| Base64.AllKnownAppend | src/base_encoding.rs:181-243 | A concatenation consists of alphabet bytes exactly when both parts do. |
| Alphabet.Table | src/base_encoding.rs:251-263 | Each encoder table has exactly 64 symbols. |
| Alphabet.ValueOfSymbol | src/base_encoding.rs:147-171 | The decoder's map sends the symbol at position n of the encoder's table back to n, and every table symbol is ASCII. |
| Alphabet.SymbolOfValue | src/base_encoding.rs:147-171 | A symbol the map sends to a value below 64 sits at that position of the table. |
| Alphabet.SymbolValueDomain | src/base_encoding.rs:147-171 | The map knows exactly the 64 table symbols and '=', and only '=' maps to 64. |
| Alphabet.SymbolsDistinct | src/base_encoding.rs:251-263 | No two table positions hold the same symbol, and none holds '='. |
| Alphabet.UrlSafeSubstitution | src/settings.rs:40-42 | The Base64url table equals the Base64 table at positions 0 to 61. Only 62 and 63 differ: '+' and '/' become '-' and '_'. |
| Alphabet.TableAgrees | src/base_encoding.rs:251-263 | The encoder's symbol for value n, given by ranges (capitals, small letters, digits, then the two extra symbols), is entry n of the literal table, for all 64 positions of both alphabets. |
| Base64Properties.LookupSymbol | src/base_encoding.rs:147-171 | Every symbol the encoder emits looks up to its own value, and it is never the pad. |
| Base64Properties.EncodeBlockValue | src/base_encoding.rs:276-287 | The or-ed block of a group equals the weighted sum of its bytes, because their bit ranges are disjoint. |
| Base64Properties.DecodeBlockValue | src/base_encoding.rs:192-237 | When the first two values are real, the or-ed block equals the weighted sum of the four 6-bit values. A pad in position 3 or 4 contributes nothing. |
| Base64Properties.EncodeGroupLookups | src/base_encoding.rs:291-313 | The symbols of an encoded group look up to the block's 6-bit fields, with the pad where bytes are missing. |
| Base64Properties.DecodeEncodedGroup | src/base_encoding.rs:181-313 | Decoding an encoded group succeeds and unpacks the fields the encoder cut the block into. |
| Base64Properties.ValuesRoundTrip | src/base_encoding.rs:239-241 | Unpacking those fields gives back exactly the group's bytes. |
| Base64Properties.BlockRoundTrip | src/base_encoding.rs:239-241 | For a block packed from 1 to 3 bytes, the decoder's byte extraction reads back exactly those bytes. |
| Base64Properties.BytesOfBlock | src/base_encoding.rs:239-241 | The `>> 16`, `>> 8` and `as u8` fields of a packed block are the bytes packed into it. |
| Base64Properties.GroupRoundTrip | src/base_encoding.rs:181-313 | Decoding the encoding of a group of 1 to 3 bytes gives the group back, in either alphabet. |
| Base64Properties.RoundTrip | src/base_encoding.rs:178-314 | For every byte vector and both alphabets, the encoding has a length divisible by 4, and decoding it gives the vector back. |
| Base64Properties.CodecRoundTrip | src/base_encoding.rs:146-317 | For Base64 and Base64url, `to_base64` succeeds and `from_base64` of its output is Ok of the original bytes. |
| Base64Properties.EncodedLengthIsMultipleOfFour | src/base_encoding.rs:268-314 | Every encoding's length is a multiple of 4. |
| Base64Properties.DecodeAppend | src/base_encoding.rs:178-243 | Decoding works group by group: the decoding of a concatenation of whole groups is the concatenation of the decodings, and fails when either part fails. |
| Base64Properties.DecodeGroupsCons | src/base_encoding.rs:178-243 | The decoding of a group followed by more groups is the group's decoding followed by theirs. |
| Base64Properties.PadPositionShift | src/base_encoding.rs:300-313 | Dropping the first group of the input shifts the pad positions of the encoding by one group. |
| Base64Properties.FirstGroupPadPositions | src/base_encoding.rs:300-313 | In the first group, '=' stands at positions 3 and 4 for one byte, at position 4 for two, and nowhere else. |
| Base64Properties.EncodeGroupShape | src/base_encoding.rs:291-313 | Symbols 1 and 2 are always real. Symbol 3 is '=' exactly for one byte, and symbol 4 exactly for fewer than three. |
| Base64Properties.EncodePadding | src/base_encoding.rs:268-314 | Position k of an encoding holds '=' exactly when it is one of the last two positions after n ≡ 1 (mod 3) bytes, or the last position after n ≡ 2. Every other position holds a symbol of the alphabet. |
| Base64Properties.TailPosition | src/base_encoding.rs:268-314 | Position k from the second group on equals position k-4 in the encoding of the bytes after the first three, and pad positions agree. |
| Base64Properties.HeadPadding | src/base_encoding.rs:291-313 | The padding statement of `EncodePadding`, for the first group. |
| Base64Properties.EncodingIsDecodable | src/base_encoding.rs:268-314 | Every encoding is valid decoder input: its length is a multiple of 4 and all its bytes are known to the alphabet. |
| Rfc4648.QuantumValues | src/base_encoding.rs:271-313 | A quantum of 1 to 3 bytes has four values. The first two are below 64, the third is the pad exactly for one byte, and the fourth exactly for fewer than three. |
| Rfc4648.EncodeGroupIsQuantum | src/base_encoding.rs:271-313 | The encoder's group equals the quantum encoding of section 4 of RFC 4648, defined by plain arithmetic. |
| Rfc4648.EncodeIsStandard | src/base_encoding.rs:268-314 | The encoder equals the RFC 4648 encoding on every input, for both alphabets. |
| Rfc4648.BlockSextets | src/base_encoding.rs:292-311 | The four 6-bit fields of a block packed from three bytes are the RFC's bit groups of those bytes. |
| Rfc4648.DecodeValuesAreFields | src/base_encoding.rs:182-241 | A group whose first two values are real always yields the RFC's first byte field. It yields the second unless value 3 is the pad and the third unless value 4 is the pad, even when only value 3 is the pad. |
| LenientDecoding.PadFirstBlock | src/base_encoding.rs:192 | A '=' in position 1 sets bit 24 of the block and nothing else. |
| LenientDecoding.PadFirstReadsAsZero | src/base_encoding.rs:192-241 | The `as u8` truncations drop bit 24, so '=' in position 1 decodes exactly like 'A'. |
| LenientDecoding.AsU8Wrap | src/base_encoding.rs:239-241 | `as u8` ignores multiples of 256. |
| LenientDecoding.PadSecondBlock | src/base_encoding.rs:203 | A '=' in position 2 lands on bit 18, the low bit of value 1. |
| LenientDecoding.PadSecondSetsLowBit | src/base_encoding.rs:203-239 | A '=' in position 2 decodes like 'A' with the low bit of value 1 forced on, so the first byte is 4·(n1 \| 1). |
| LenientDecoding.PadThirdSkipsMiddleByte | src/base_encoding.rs:214-241 | '=' in position 3 followed by a symbol yields two bytes: the first byte field and then value 4. The middle byte is skipped. |
| LenientDecoding.TwoPadsValue | src/base_encoding.rs:214-241 | A group ending in "==" yields the one byte formed by value 1 and the top 2 bits of value 2. |
| LenientDecoding.TrailingBitsIgnoredTwoPads | src/base_encoding.rs:239 | With "==", the low 4 bits of value 2 do not affect the result, and non-zero ones are not rejected. |
| LenientDecoding.TrailingBitsIgnoredOnePad | src/base_encoding.rs:239-240 | With one '=', the low 2 bits of value 3 do not affect the result, and non-zero ones are not rejected. |
| LenientDecoding.PaddingMidStream | src/base_encoding.rs:181-243 | A padded group may stand anywhere. The decoding of a group followed by others is its decoding followed by theirs. |
| LenientDecoding.HighBytesRejected | src/base_encoding.rs:185-186 | A byte from 0x80 up is not in either alphabet. |
| LenientDecoding.ForeignSymbolsRejected | src/base_encoding.rs:157-169 | Base64 rejects '-' and '_', and Base64url rejects '+' and '/'. Each maps its own pair to 62 and 63. |
| TestVectors.EncodedDecodes | src/base_encoding.rs:146-317 | One encoding fact about a vector yields both the encode and the decode test for it, on the codec and on units. |
| TestVectors.CodecToUnits | src/base_encoding.rs:84-118 | When the codec encodes a vector and decodes its encoding back, a unit built by `new` for either direction translates successfully and holds the other side. |
| TestVectors.SymbolsShared | src/base_encoding.rs:253-262 | Both alphabets emit the same byte for values below 62. |
| TestVectors.EncodeOne | src/base_encoding.rs:268-314 | Up to three bytes are one quantum. |
| TestVectors.EncodeTwo | src/base_encoding.rs:268-314 | Three bytes and then up to three more are two quanta. |
| TestVectors.QuantumF | src/base_encoding.rs:452-459 | "f" is "Zg==". |
| TestVectors.QuantumFo | src/base_encoding.rs:462-469 | "fo" is "Zm8=". |
| TestVectors.QuantumFoo | src/base_encoding.rs:472-479 | "foo" is "Zm9v". |
| TestVectors.QuantumB | src/base_encoding.rs:482-489 | "b" is "Yg==". |
| TestVectors.QuantumBa | src/base_encoding.rs:492-499 | "ba" is "YmE=". |
| TestVectors.QuantumBar | src/base_encoding.rs:502-509 | "bar" is "YmFy". |
| TestVectors.QuantumWai | src/lib.rs:29-33 | "wai" is "d2Fp". |
| TestVectors.QuantumFu | src/lib.rs:29-33 | "fu" is "ZnU=". |
| TestVectors.QuantumMi | src/base_encoding.rs:512-519 | The UTF-8 of "み" is "44G/" in Base64. |
| TestVectors.QuantumMa | src/base_encoding.rs:512-519 | The UTF-8 of "ま" is "44G+" in Base64. |
| TestVectors.QuantumMiUrl | src/base_encoding.rs:680-687 | The UTF-8 of "み" is "44G_" in Base64url. |
| TestVectors.QuantumMaUrl | src/base_encoding.rs:680-687 | The UTF-8 of "ま" is "44G-" in Base64url. |
| TestVectors.EmptyExample | src/base_encoding.rs:358-365 | "" encodes to "" and decodes to "" in both alphabets. Units built by `new` and run by `translate` do the same in both directions. |
| TestVectors.FExample | src/base_encoding.rs:368-375 | "f" and "Zg==" translate into each other in both alphabets. Units built by `new` and run by `translate` do the same in both directions. |
| TestVectors.FoExample | src/base_encoding.rs:378-385 | "fo" and "Zm8=" translate into each other in both alphabets. Units built by `new` and run by `translate` do the same in both directions. |
| TestVectors.FooExample | src/base_encoding.rs:388-395 | "foo" and "Zm9v" translate into each other in both alphabets. Units built by `new` and run by `translate` do the same in both directions. |
| TestVectors.FoobExample | src/base_encoding.rs:398-405 | "foob" and "Zm9vYg==" translate into each other in both alphabets. Units built by `new` and run by `translate` do the same in both directions. |
| TestVectors.FoobaExample | src/base_encoding.rs:408-415 | "fooba" and "Zm9vYmE=" translate into each other in both alphabets. Units built by `new` and run by `translate` do the same in both directions. |
| TestVectors.FoobarExample | src/base_encoding.rs:418-425 | "foobar" and "Zm9vYmFy" translate into each other in both alphabets. Units built by `new` and run by `translate` do the same in both directions. |
| TestVectors.JapaneseStandard | src/base_encoding.rs:428-435 | The UTF-8 of "みま" and "44G/44G+" translate into each other in Base64. Units built by `new` and run by `translate` do the same in both directions. |
| TestVectors.JapaneseUrlSafe | src/base_encoding.rs:596-603 | The UTF-8 of "みま" and "44G_44G-" translate into each other in Base64url. Units built by `new` and run by `translate` do the same in both directions. |
| TestVectors.WaifuExample | src/lib.rs:25-33 | "waifu" and "d2FpZnU=" translate into each other in Base64. Units built by `new` and run by `translate` do the same in both directions. |
| TestVectors.WaifuUnit | src/lib.rs:25-33 | A Base64 decoding unit for "d2FpZnU=" translates successfully and holds "waifu". |
| TestVectors.ErrorVectors | src/base_encoding.rs:172-176 | "Zg=" gives the length error. Decoding with Base32 and encoding with Guess give the wrong-encoding error. |
| TestVectors.LengthRejected | src/base_encoding.rs:175-177 | Any input whose length is not a multiple of 4 gets the length error, whatever its bytes. |
| TestVectors.RejectedAt | src/base_encoding.rs:185-230 | A group with one unknown byte gets the non-alphabet error, whatever the other three bytes are. |
| TestVectors.ForeignByteVectors | src/base_encoding.rs:185-230 | "Zg#=", "Zg_=" in Base64, "Zg+=" in Base64url, and a byte above 0x7f all give the non-alphabet error. |
| TestVectors.DecodeOneGroup | src/base_encoding.rs:178-243 | A single group decodes as the group decoder does. |
| TestVectors.DecodeLookedUp | src/base_encoding.rs:178-243 | A one-group Base64 input decodes to the bytes of the values its four bytes look up to. |
| TestVectors.AllPadsVector | src/base_encoding.rs:182-241 | "====" is accepted and decodes to the single byte 4. |
| TestVectors.ValuesOfPads | src/base_encoding.rs:192-241 | Four pad values give the one byte 4: pad 1 counts as zero, and pad 2 sets the low bit of value 1. |
| TestVectors.PadThenSymbolVector | src/base_encoding.rs:214-241 | "Zg=A" is accepted and decodes to "f" and a zero byte. |
| TestVectors.ValuesOfZgA | src/base_encoding.rs:214-241 | The values of "Zg=A" give the bytes 0x66 and 0x00. |
| TestVectors.ValuesOfZh | src/base_encoding.rs:214-241 | The values of "Zh==" give the byte 0x66. |
| TestVectors.NonCanonicalVector | src/base_encoding.rs:239 | "Zh==" decodes to "f" although "f" encodes as "Zg==": trailing bits are not checked. |
| TestVectors.DecodeTwice | src/base_encoding.rs:181-243 | A group repeated decodes to its decoding repeated. |
| TestVectors.MidStreamPadVector | src/base_encoding.rs:181-243 | "Zg==Zg==" is accepted and decodes to "ff": a padded group mid-stream ends nothing. |

## Left out

- `Base32`, `Base32hex`, `Base16` and `Guess` reach `todo!()` in the dispatchers (src/base_encoding.rs:122-142). They are modelled as the outcome `Unimplemented(base)` rather than as a panic.
- The `map!` macro and `HashMap` are replaced by the pure map `Alphabet.SymbolValue`. It holds the same 65 entries and covers the same lookup behaviour.
- Error values are the datatype `Base64.CodecError`. `Base64.Message` gives the three strings the source returns. No string is built at run time.
- The getters `base`, `encode_mode`, `get_decoded_data` and `get_encoded_data` (src/base_encoding.rs:61-75, src/settings.rs:84-87) are the datatype fields. They carry no contract of their own.
- TranslationUnits.Translate: requires that the source slot is filled, because the codec unwraps it. Every unit built by `new` satisfies this, and the panic on an empty slot cannot arise through the public interface.
- Base64.DecodeBlock: models the `u32` block as an unbounded natural and proves it stays below 2^25, so the source's `u32` arithmetic never wraps there.
- Mutation through `&mut self` is modelled by returning the new unit with the outcome of the call.
- src/args.rs, src/input.rs and src/main.rs are the command-line front end: argument parsing, reading input and printing. They are not part of this model.

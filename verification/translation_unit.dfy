/**
 * A translation unit: one byte vector, the configuration it was created with, and the
 * slot its translation goes into. The configured direction decides which slot is the
 * source (filled at creation) and which is the target (filled by the first successful
 * translation). The getters `base()`, `encode_mode()`, `get_decoded_data()` and
 * `get_encoded_data()` are the fields of the datatype.
 */
module TranslationUnits {
  import opened Prelude
  import opened Configuration
  import opened Base64
  import Base64Properties

  datatype TranslationUnit = TranslationUnit(
    decodedData: Option<seq<byte>>,
    encodedData: Option<seq<byte>>,
    config: Settings)

  /** What a call of `translate` ends in. `Unimplemented` stands for the `todo!()` panic of a base without a codec. */
  datatype Outcome = Done | Failed(error: CodecError) | Unimplemented(base: Base)

  /** The unit after a call of `translate`, with the call's outcome. */
  datatype Step = Step(unit: TranslationUnit, outcome: Outcome)

  /** The slot the configured direction reads: encoded data when decoding, decoded data when encoding. */
  function Source(u: TranslationUnit): Option<seq<byte>> {
    match u.config.encodeMode
    case Decode => u.encodedData
    case Encode => u.decodedData
  }

  /** The slot the configured direction writes. */
  function Target(u: TranslationUnit): Option<seq<byte>> {
    match u.config.encodeMode
    case Decode => u.decodedData
    case Encode => u.encodedData
  }

  /** Every unit the program can build has its source filled; the codec unwraps it. */
  predicate Valid(u: TranslationUnit) {
    Source(u).Some?
  }

  /** `TranslationUnit::new`: the data goes into the source slot of the configured direction. */
  function New(data: seq<byte>, config: Settings): (u: TranslationUnit)
    ensures u.config == config
    ensures Source(u) == Some(data) && Target(u) == None
    ensures config.encodeMode == Decode ==> u.encodedData == Some(data) && u.decodedData == None
    ensures config.encodeMode == Encode ==> u.decodedData == Some(data) && u.encodedData == None
    ensures Valid(u)
  {
    match config.encodeMode
    case Decode => TranslationUnit(None, Some(data), config)
    case Encode => TranslationUnit(Some(data), None, config)
  }

  /** `from_base64` on a unit: stores the decoding, or leaves the unit as it was on an error. */
  function DecodeInto(u: TranslationUnit): (r: Step)
    requires u.encodedData.Some?
    ensures r.outcome.Done? || r.outcome.Failed?
    ensures r.outcome.Done? ==> r.unit == u.(decodedData := r.unit.decodedData) && r.unit.decodedData.Some?
    ensures r.outcome.Failed? ==> r.unit == u
    ensures r.outcome.Done? <==> FromBase64(u.config.base, u.encodedData.value).Ok?
    ensures r.outcome.Done? ==> r.unit.decodedData == Some(FromBase64(u.config.base, u.encodedData.value).value)
    ensures r.outcome.Failed? ==> FromBase64(u.config.base, u.encodedData.value) == Err(r.outcome.error)
  {
    match FromBase64(u.config.base, u.encodedData.value)
    case Ok(d) => Step(u.(decodedData := Some(d)), Done)
    case Err(e) => Step(u, Failed(e))
  }

  /** `to_base64` on a unit: stores the encoding, or leaves the unit as it was on an error. */
  function EncodeInto(u: TranslationUnit): (r: Step)
    requires u.decodedData.Some?
    ensures r.outcome.Done? || r.outcome.Failed?
    ensures r.outcome.Done? ==> r.unit == u.(encodedData := r.unit.encodedData) && r.unit.encodedData.Some?
    ensures r.outcome.Failed? ==> r.unit == u
    ensures r.outcome.Done? <==> ToBase64(u.config.base, u.decodedData.value).Ok?
    ensures r.outcome.Done? ==> r.unit.encodedData == Some(ToBase64(u.config.base, u.decodedData.value).value)
    ensures r.outcome.Failed? ==> ToBase64(u.config.base, u.decodedData.value) == Err(r.outcome.error)
  {
    match ToBase64(u.config.base, u.decodedData.value)
    case Ok(e) => Step(u.(encodedData := Some(e)), Done)
    case Err(e) => Step(u, Failed(e))
  }

  /** `decode_dispatch`: the two Base64 bases go to the codec, every other base is unimplemented. */
  function DecodeDispatch(u: TranslationUnit): (r: Step)
    requires u.encodedData.Some?
    ensures r.outcome.Unimplemented? <==> VariantOf(u.config.base).None?
    ensures r.outcome.Unimplemented? ==> r.unit == u && r.outcome.base == u.config.base
    ensures !r.outcome.Unimplemented? ==> r == DecodeInto(u)
    ensures r.outcome != Failed(WrongEncoding)
  {
    match u.config.base
    case Base64 => DecodeInto(u)
    case Base64url => DecodeInto(u)
    case _ => Step(u, Unimplemented(u.config.base))
  }

  /** `encode_dispatch`: the two Base64 bases go to the codec, every other base is unimplemented. */
  function EncodeDispatch(u: TranslationUnit): (r: Step)
    requires u.decodedData.Some?
    ensures r.outcome.Unimplemented? <==> VariantOf(u.config.base).None?
    ensures r.outcome.Unimplemented? ==> r.unit == u && r.outcome.base == u.config.base
    ensures !r.outcome.Unimplemented? ==> r == EncodeInto(u)
    ensures r.outcome == Done || r.outcome.Unimplemented?
  {
    match u.config.base
    case Base64 => EncodeInto(u)
    case Base64url => EncodeInto(u)
    case _ => Step(u, Unimplemented(u.config.base))
  }

  /**
   * `translate`: translates the source into the target the first time; once the target
   * is filled it does nothing and reports success.
   */
  function Translate(u: TranslationUnit): (r: Step)
    requires Valid(u)
    ensures r.unit.config == u.config
    ensures Source(r.unit) == Source(u)
    ensures Valid(r.unit)
    ensures Target(u).Some? ==> r == Step(u, Done)
    ensures r.outcome.Done? <==> Target(r.unit).Some?
    ensures !r.outcome.Done? ==> r.unit == u
    ensures r.outcome.Unimplemented? <==> Target(u).None? && VariantOf(u.config.base).None?
    ensures r.outcome.Failed? ==> u.config.encodeMode == Decode && r.outcome.error != WrongEncoding
    ensures Target(u).None? && r.outcome.Done? ==>
              Target(r.unit).Some? &&
              match u.config.encodeMode
              case Decode => FromBase64(u.config.base, Source(u).value) == Ok(Target(r.unit).value)
              case Encode => ToBase64(u.config.base, Source(u).value) == Ok(Target(r.unit).value)
    ensures r.outcome.Failed? ==> FromBase64(u.config.base, Source(u).value) == Err(r.outcome.error)
  {
    match u.config.encodeMode
    case Decode => if u.decodedData.None? then DecodeDispatch(u) else Step(u, Done)
    case Encode => if u.encodedData.None? then EncodeDispatch(u) else Step(u, Done)
  }

  /** A second call of `translate` never changes the unit and repeats a success or a failure. */
  lemma TranslateIdempotent(u: TranslationUnit)
    requires Valid(u)
    ensures Translate(Translate(u).unit).unit == Translate(u).unit
    ensures Translate(u).outcome.Done? ==> Translate(Translate(u).unit).outcome == Done
    ensures !Translate(u).outcome.Done? ==> Translate(Translate(u).unit) == Translate(u)
  {
  }

  /**
   * Encoding a byte vector with a unit and decoding the result with a second unit of
   * the same base gives back the byte vector.
   */
  lemma UnitRoundTrip(data: seq<byte>, base: Base)
    requires base == Base64 || base == Base64url
    ensures var enc := Translate(New(data, Settings(base, Encode)));
      && enc.outcome == Done
      && var dec := Translate(New(enc.unit.encodedData.value, Settings(base, Decode)));
      && dec.outcome == Done
      && dec.unit.decodedData == Some(data)
  {
    Base64Properties.CodecRoundTrip(base, data);
  }
}

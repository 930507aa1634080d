/** The configuration a translation unit is built with: which base alphabet, which direction. */
module Configuration {

  /** The base encodings the configuration type admits. Only `Base64` and `Base64url` have a codec. */
  datatype Base = Base64 | Base64url | Base32 | Base32hex | Base16 | Guess

  /** The direction of a translation. */
  datatype EncodeMode = Decode | Encode

  /** A configuration. The getters `base()` and `encode_mode()` are the two fields. */
  datatype Settings = Settings(base: Base, encodeMode: EncodeMode) {

    /** `set_base`: replaces the base and nothing else. */
    function SetBase(b: Base): (r: Settings)
      ensures r.base == b
      ensures r.encodeMode == encodeMode
    {
      this.(base := b)
    }

    /** `set_encode_mode`: replaces the direction and nothing else. */
    function SetEncodeMode(mode: EncodeMode): (r: Settings)
      ensures r.encodeMode == mode
      ensures r.base == base
    {
      this.(encodeMode := mode)
    }
  }

  /** `Settings::new`: the default configuration guesses the base and encodes. */
  function NewSettings(): (s: Settings)
    ensures s.base == Guess
    ensures s.encodeMode == Encode
  {
    Settings(Guess, Encode)
  }

  /**
   * Building a configuration the way callers do (defaults, then the two setters)
   * yields exactly the chosen base and direction, whatever order the setters run in.
   */
  lemma Configure(b: Base, mode: EncodeMode)
    ensures NewSettings().SetBase(b).SetEncodeMode(mode) == Settings(b, mode)
    ensures NewSettings().SetEncodeMode(mode).SetBase(b) == Settings(b, mode)
  {
  }

  /** The getters return the most recently set values: a later setter overrides an earlier one. */
  lemma LastSetWins(s: Settings, b1: Base, b2: Base, m1: EncodeMode, m2: EncodeMode)
    ensures s.SetBase(b1).SetEncodeMode(m1).SetBase(b2).base == b2
    ensures s.SetBase(b1).SetEncodeMode(m1).SetBase(b2).encodeMode == m1
    ensures s.SetEncodeMode(m1).SetBase(b1).SetEncodeMode(m2).encodeMode == m2
    ensures s.SetEncodeMode(m1).SetBase(b1).SetEncodeMode(m2).base == b1
  {
  }
}

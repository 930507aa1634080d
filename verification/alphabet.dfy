/**
 * The two 64-symbol alphabets of RFC 4648: "The Base 64 Alphabet" (Table 1, section 4)
 * and "The 'URL and Filename safe' Base 64 Alphabet" (Table 2, section 5), with '=' as
 * the pad (section 3.2). The encoder indexes a table by a 6-bit value; the decoder maps
 * a symbol back to its value, or to 64 for the pad.
 */
module Alphabet {
  import opened Prelude

  /** Which of the two alphabets is active. */
  datatype Variant = Standard | UrlSafe

  const Upper: string := "ABCDEFGHIJKLMNOPQRSTUVWXYZ"
  const Lower: string := "abcdefghijklmnopqrstuvwxyz"
  const Digits: string := "0123456789"

  /** The value the decoder gives the pad symbol. */
  const PadValue: nat := 64

  const Pad: char := '='

  /** The value-to-symbol table the encoder indexes. */
  function Table(v: Variant): (t: string)
    ensures |t| == 64
  {
    Upper + Lower + Digits + (match v case Standard => "+/" case UrlSafe => "-_")
  }

  /**
   * The symbol at position n of the table, by ranges: capitals, small letters, digits,
   * then the two symbols the alphabets differ in (`TableAgrees`).
   */
  function SymbolAt(v: Variant, n: nat): (c: char)
    requires n < 64
    ensures SymbolValue(v, c) == Some(n)
    ensures c as int < 128
  {
    if n < 26 then ('A' as int + n) as char
    else if n < 52 then ('a' as int + (n - 26)) as char
    else if n < 62 then ('0' as int + (n - 52)) as char
    else if n == 62 then (match v case Standard => '+' case UrlSafe => '-')
    else (match v case Standard => '/' case UrlSafe => '_')
  }

  /** The symbol-to-value map the decoder consults: 0..63 for a symbol, 64 for the pad. */
  function SymbolValue(v: Variant, c: char): (r: Option<nat>)
    ensures r.Some? ==> r.value <= PadValue && c as int < 128
    ensures r == Some(PadValue) <==> c == Pad
  {
    if 'A' <= c <= 'Z' then Some(c as int - 'A' as int)
    else if 'a' <= c <= 'z' then Some(c as int - 'a' as int + 26)
    else if '0' <= c <= '9' then Some(c as int - '0' as int + 52)
    else if c == (match v case Standard => '+' case UrlSafe => '-') then Some(62)
    else if c == (match v case Standard => '/' case UrlSafe => '_') then Some(63)
    else if c == Pad then Some(PadValue)
    else None
  }

  lemma UpperCode(i: nat)
    requires i < 26
    ensures Upper[i] as int == 'A' as int + i
  {
  }

  lemma LowerCode(i: nat)
    requires i < 26
    ensures Lower[i] as int == 'a' as int + i
  {
  }

  lemma DigitCode(i: nat)
    requires i < 10
    ensures Digits[i] as int == '0' as int + i
  {
  }

  /**
   * Proof helper for `TableAgrees`: the table in four parts, capitals, small letters,
   * digits, and the two symbols the alphabets differ in.
   */
  lemma TableParts(v: Variant, n: nat)
    requires n < 64
    ensures n < 26 ==> Table(v)[n] == Upper[n]
    ensures 26 <= n < 52 ==> Table(v)[n] == Lower[n - 26]
    ensures 52 <= n < 62 ==> Table(v)[n] == Digits[n - 52]
    ensures n == 62 ==> Table(v)[n] == (match v case Standard => '+' case UrlSafe => '-')
    ensures n == 63 ==> Table(v)[n] == (match v case Standard => '/' case UrlSafe => '_')
  {
  }

  /** The ranges describe the table exactly. */
  lemma TableAgrees(v: Variant, n: nat)
    requires n < 64
    ensures Table(v)[n] == SymbolAt(v, n)
  {
    TableParts(v, n);
    if n < 26 {
      UpperCode(n);
    } else if n < 52 {
      LowerCode(n - 26);
    } else if n < 62 {
      DigitCode(n - 52);
    }
  }

  /** The map undoes the table: every table entry maps back to its own position. */
  lemma ValueOfSymbol(v: Variant, n: nat)
    requires n < 64
    ensures SymbolValue(v, Table(v)[n]) == Some(n)
    ensures Table(v)[n] as int < 128
  {
    TableAgrees(v, n);
  }

  /** The table undoes the map: a symbol with a value below 64 sits at that position. */
  lemma SymbolOfValue(v: Variant, c: char)
    requires SymbolValue(v, c).Some? && SymbolValue(v, c).value < 64
    ensures Table(v)[SymbolValue(v, c).value] == c
  {
    TableAgrees(v, SymbolValue(v, c).value);
  }

  /** The domain of the map is exactly the 64 table symbols plus the pad. */
  lemma SymbolValueDomain(v: Variant, c: char)
    ensures SymbolValue(v, c).Some? <==> c in Table(v) || c == Pad
    ensures SymbolValue(v, c) == Some(PadValue) <==> c == Pad
  {
    if c in Table(v) {
      var n :| 0 <= n < 64 && Table(v)[n] == c;
      ValueOfSymbol(v, n);
    }
    if SymbolValue(v, c).Some? && SymbolValue(v, c).value < 64 {
      SymbolOfValue(v, c);
    }
  }

  /** All 65 symbols are distinct: no two table positions hold the same symbol, and none holds the pad. */
  lemma SymbolsDistinct(v: Variant, i: nat, j: nat)
    requires i < 64 && j < 64
    ensures Table(v)[i] == Table(v)[j] ==> i == j
    ensures Table(v)[i] != Pad
  {
    ValueOfSymbol(v, i);
    ValueOfSymbol(v, j);
  }

  /** The URL-safe alphabet is the standard one with '+' and '/' (positions 62 and 63) replaced by '-' and '_'. */
  lemma UrlSafeSubstitution()
    ensures Table(Standard)[..62] == Table(UrlSafe)[..62]
    ensures Table(Standard)[62] == '+' && Table(UrlSafe)[62] == '-'
    ensures Table(Standard)[63] == '/' && Table(UrlSafe)[63] == '_'
  {
  }
}

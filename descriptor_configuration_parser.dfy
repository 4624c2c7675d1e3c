// DescriptorConfigurationParser: rejects an empty descriptor text and hands
// everything else to a lenient JSON decoder, which is a parameter here. The
// decimal (de)serialisers registered for the unsigned fields are modelled
// on their own.
module DescriptorConfigurationParser {
  import opened Outcomes
  import opened DescriptorConfiguration
  import opened DecimalDigits

  /** What the JSON decoder can do with a text: produce a configuration (or
      null, for a JSON null), or throw an exception with an optional message. */
  datatype JsonOutcome = Decoded(config: Option<Config>) | Thrown(message: Option<string>)

  type JsonDecoder = string -> JsonOutcome

  const EmptyMessage := "Descriptor value is empty"

  /** Kotlin's `Char.isWhitespace()`: Java whitespace or a Unicode space
      separator, line separator or paragraph separator. */
  predicate IsWhitespace(c: char)
  {
    ('\t' <= c <= '\r') || ('\U{001C}' <= c <= ' ')
    || c == '\U{00A0}' || c == '\U{1680}' || ('\U{2000}' <= c <= '\U{200A}')
    || c == '\U{2028}' || c == '\U{2029}' || c == '\U{202F}' || c == '\U{205F}' || c == '\U{3000}'
  }

  /** `isNullOrBlank() || all { it == '\U{0000}' }` */
  predicate IsEmptyText(s: Option<string>)
  {
    s.None?
    || (forall i :: 0 <= i < |s.value| ==> IsWhitespace(s.value[i]))
    || (forall i :: 0 <= i < |s.value| ==> s.value[i] == '\U{0000}')
  }

  /** `parseJson`: an empty text is rejected with "Descriptor value is empty"
      before the decoder is consulted; otherwise the decoder's result or its
      exception is passed on unchanged. */
  function ParseJson(s: Option<string>, decode: JsonDecoder): (r: Result<Option<Config>, Option<string>>)
    ensures IsEmptyText(s) ==> r == Err(Some(EmptyMessage))
    ensures !IsEmptyText(s) && decode(s.value).Decoded? ==> r == Ok(decode(s.value).config)
    ensures !IsEmptyText(s) && decode(s.value).Thrown? ==> r == Err(decode(s.value).message)
  {
    if IsEmptyText(s) then Err(Some(EmptyMessage))
    else match decode(s.value)
      case Decoded(c) => Ok(c)
      case Thrown(m) => Err(m)
  }

  /** The guard tests "all blank" and "all NUL" separately: a text mixing NUL
      and blanks reaches the decoder, while either kind alone does not. */
  lemma {:induction false} GuardShape(decode: JsonDecoder)
    ensures ParseJson(Some(""), decode) == Err(Some(EmptyMessage))
    ensures ParseJson(Some("\U{0000}\U{0000}"), decode) == Err(Some(EmptyMessage))
    ensures ParseJson(Some(" \t\r\n"), decode) == Err(Some(EmptyMessage))
    ensures ParseJson(Some("\U{0000} "), decode) == match decode("\U{0000} ")
      case Decoded(c) => Ok(c)
      case Thrown(m) => Err(m)
  {
    assert !IsWhitespace("\U{0000} "[0]);
    assert "\U{0000} "[1] != '\U{0000}';
  }

  /** The digits after an optional leading '+'. */
  function Unsigned(s: string): string
  {
    if |s| > 0 && s[0] == '+' then s[1..] else s
  }

  /** `String.toULong()` / `String.toUInt()`, with `limit` = 2^64 or 2^32: an
      optional '+' and at least one decimal digit of any script, failing
      (None) when the syntax is wrong or the value does not fit. */
  function ParseUnsigned(s: string, limit: nat): (r: Option<nat>)
    ensures r.Some? ==> r.value < limit
  {
    var digits := Unsigned(s);
    if digits != [] && AllDigits(digits) && DigitsValue(digits) < limit
    then Some(DigitsValue(digits))
    else None
  }

  /** `ULong.toString()` / `UInt.toString()`: decimal digits without leading zeros. */
  function ToDecimal(v: nat): (s: string)
    ensures s != [] && AllDigits(s)
    decreases v
  {
    if v < 10 then [('0' as int + v) as char]
    else ToDecimal(v / 10) + [('0' as int + v % 10) as char]
  }

  lemma {:induction false} DigitsOfDecimal(v: nat)
    ensures DigitsValue(ToDecimal(v)) == v
    ensures ToDecimal(v)[0] != '0' || v == 0
    decreases v
  {
    if v >= 10 {
      var s := ToDecimal(v);
      assert s[..|s| - 1] == ToDecimal(v / 10);
      DigitsOfDecimal(v / 10);
    }
  }

  /** The serialiser and deserialiser of an unsigned field are inverse: a
      value written as its decimal string reads back unchanged. */
  lemma {:induction false} UnsignedRoundTrip(v: nat, limit: nat)
    requires v < limit
    ensures ParseUnsigned(ToDecimal(v), limit) == Some(v)
    ensures ParseUnsigned("+" + ToDecimal(v), limit) == Some(v)
  {
    DigitsOfDecimal(v);
    assert ("+" + ToDecimal(v))[1..] == ToDecimal(v);
  }

  /** A string outside the unsigned syntax is refused whatever the limit, and
      so is a value at or above the limit. */
  lemma {:induction false} RejectsMalformed(limit: nat)
    ensures ParseUnsigned("", limit).None?
    ensures ParseUnsigned("+", limit).None?
    ensures ParseUnsigned("-1", limit).None?
    ensures ParseUnsigned(ToDecimal(limit), limit).None?
  {
    var minus := "-1";
    assert Unsigned(minus) == minus;
    NoDigitBelowZero(minus[0]);
    DigitsOfDecimal(limit);
  }

  /** Digits of other scripts are read by their value, as
      `Character.digit(c, 10)` reads them: Arabic-Indic and fullwidth "12"
      are both 12. */
  lemma {:induction false} ReadsOtherScriptDigits(limit: nat)
    requires limit > 12
    ensures ParseUnsigned("\U{0661}\U{0662}", limit) == Some(12)
    ensures ParseUnsigned("+\U{FF11}\U{FF12}", limit) == Some(12)
  {
    OtherScriptDigits();
    var arabic, full := "\U{0661}\U{0662}", "\U{FF11}\U{FF12}";
    assert Unsigned(arabic) == arabic;
    assert arabic[..1] == "\U{0661}" && arabic[..1][..0] == [];
    assert AllDigits(arabic) && DigitsValue(arabic[..1]) == 1;
    assert DigitsValue(arabic) == 12;
    assert Unsigned("+" + full) == full;
    assert full[..1] == "\U{FF11}";
  }
}

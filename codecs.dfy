// The `CharacteristicValueWrapper` interface over all wrappers: a codec is
// chosen per control kind and turns raw characteristic bytes into a typed
// value and back.
module Codecs {
  import opened Bytes
  import IntegerWrappers
  import BooleanWrapper
  import ColorWrapper
  import TimeWrapper
  import DateTimeWrappers
  import FloatWrappers
  import StringWrapper

  datatype Codec =
    | IntegerCodec(kind: IntegerWrappers.IntKind, bigEndian: bool)
    | BooleanCodec
    | ColorCodec
    | TimeCodec(bigEndian: bool)
    | DateTime64Codec(bigEndian: bool)
    | DateTime32Codec(bigEndian: bool)
    | FloatCodec(format: FloatWrappers.FloatKind, bigEndian: bool)
    | StringCodec

  /** A decoded characteristic value. Floating-point values are kept as their
      bit pattern. */
  datatype Value =
    | IntValue(i: int)
    | BoolValue(b: bool)
    | ColorValue(c: ColorWrapper.Color)
    | TimeValue(secondOfDay: int)
    | DateTimeValue(epochSecond: int)
    | FloatValue(bits: nat)
    | TextValue(text: string)

  /** v is a value of the Kotlin type the codec works on. */
  predicate Admits(c: Codec, v: Value)
  {
    match c
    case IntegerCodec(k, _) => v.IntValue? && IntegerWrappers.InRange(k, v.i)
    case BooleanCodec => v.BoolValue?
    case ColorCodec => v.ColorValue?
    case TimeCodec(_) => v.TimeValue? && 0 <= v.secondOfDay < TimeWrapper.SecondsPerDay
    case DateTime64Codec(_) | DateTime32Codec(_) =>
      v.DateTimeValue? && DateTimeWrappers.MinEpochSecond <= v.epochSecond <= DateTimeWrappers.MaxEpochSecond
    case FloatCodec(f, _) => v.FloatValue? && v.bits < Pow256(FloatWrappers.Width(f))
    case StringCodec => v.TextValue?
  }

  /** `fromBytes`: total, and always a value of the codec's type. */
  function Decode(c: Codec, s: seq<Byte>): (v: Value)
    ensures Admits(c, v)
  {
    match c
    case IntegerCodec(k, be) =>
      IntValue(if be then IntegerWrappers.FromBytesBE(k, s) else IntegerWrappers.FromBytes(k, s))
    case BooleanCodec => BoolValue(BooleanWrapper.FromBytes(s))
    case ColorCodec => ColorValue(ColorWrapper.FromBytes(s))
    case TimeCodec(be) =>
      TimeValue(if be then TimeWrapper.FromBytesBE(s) else TimeWrapper.FromBytes(s))
    case DateTime64Codec(_) | DateTime32Codec(_) =>
      DateTimeValue(if c.bigEndian then DateTimeWrappers.FromBytesBE(s) else DateTimeWrappers.FromBytes(s))
    case FloatCodec(f, be) =>
      FloatValue(if be then FloatWrappers.FromBytes(f, Reverse(s)) else FloatWrappers.FromBytes(f, s))
    case StringCodec => TextValue(StringWrapper.FromBytes(s))
  }

  /** `toBytes` */
  function Encode(c: Codec, v: Value): (s: seq<Byte>)
    requires Admits(c, v)
  {
    match c
    case IntegerCodec(k, be) =>
      if be then IntegerWrappers.ToBytesBE(k, v.i) else IntegerWrappers.ToBytes(k, v.i)
    case BooleanCodec => BooleanWrapper.ToBytes(v.b)
    case ColorCodec => ColorWrapper.ToBytes(v.c)
    case TimeCodec(be) =>
      if be then TimeWrapper.ToBytesBE(v.secondOfDay) else TimeWrapper.ToBytes(v.secondOfDay)
    case DateTime64Codec(be) =>
      if be then DateTimeWrappers.ToBytes64BE(v.epochSecond) else DateTimeWrappers.ToBytes64(v.epochSecond)
    case DateTime32Codec(be) =>
      if be then DateTimeWrappers.ToBytes32BE(v.epochSecond) else DateTimeWrappers.ToBytes32(v.epochSecond)
    case FloatCodec(f, be) =>
      if be then FloatWrappers.ToBytesBE(f, v.bits) else FloatWrappers.ToBytes(f, v.bits)
    case StringCodec => StringWrapper.ToBytes(v.text)
  }

  /** The codec with the same layout in little-endian byte order. */
  function LittleEndian(c: Codec): Codec
  {
    match c
    case IntegerCodec(k, _) => IntegerCodec(k, false)
    case TimeCodec(_) => TimeCodec(false)
    case DateTime64Codec(_) => DateTime64Codec(false)
    case DateTime32Codec(_) => DateTime32Codec(false)
    case FloatCodec(f, _) => FloatCodec(f, false)
    case _ => c
  }

  predicate IsBigEndian(c: Codec)
  {
    (c.IntegerCodec? || c.TimeCodec? || c.DateTime64Codec? || c.DateTime32Codec? || c.FloatCodec?)
    && c.bigEndian
  }

  /** Every big-endian codec is its little-endian counterpart with the bytes
      reversed on the way in and on the way out. */
  lemma {:induction false} BigEndianIsReversedLittleEndian(c: Codec, s: seq<Byte>, v: Value)
    requires IsBigEndian(c) && Admits(c, v)
    ensures Admits(LittleEndian(c), v)
    ensures Decode(c, s) == Decode(LittleEndian(c), Reverse(s))
    ensures Encode(c, v) == Reverse(Encode(LittleEndian(c), v))
  {
  }

  /** Encoding then decoding gives the value back, for every value of every
      codec's type, except that the 32-bit date-time codec keeps only
      timestamps 0..2^32-1 and the string codec only one-byte characters. */
  lemma {:induction false} RoundTrip(c: Codec, v: Value)
    requires Admits(c, v)
    ensures Decode(c, Encode(c, v)) == v <==>
      (c.DateTime32Codec? ==> 0 <= v.epochSecond < 0x1_0000_0000)
      && (c.StringCodec? ==> StringWrapper.IsByteText(v.text))
  {
    match c
    case IntegerCodec(k, _) =>
      IntegerWrappers.RoundTrip(k, v.i);
      IntegerWrappers.RoundTripBE(k, v.i, []);
    case BooleanCodec =>
      BooleanWrapper.RoundTrip(v.b);
    case ColorCodec =>
      ColorWrapper.RoundTrip(v.c, [], []);
    case TimeCodec(_) =>
      TimeWrapper.RoundTrip(v.secondOfDay);
    case DateTime64Codec(_) =>
      DateTimeWrappers.RoundTrip64(v.epochSecond);
    case DateTime32Codec(_) =>
      DateTimeWrappers.RoundTrip32(v.epochSecond);
    case FloatCodec(f, _) =>
      FloatWrappers.RoundTrip(f, v.bits, []);
    case StringCodec =>
      StringWrapper.RoundTrip([], v.text);
  }
}

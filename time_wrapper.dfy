// TimeWrapper: a time of day as whole seconds since midnight, carried in
// four little-endian bytes; the big-endian subclass reverses both ways.
module TimeWrapper {
  import opened Bytes

  const SecondsPerDay := 86400

  /** A `LocalTime` truncated to whole seconds. */
  type SecondOfDay = t: int | 0 <= t < SecondsPerDay

  /** `fromBytes`: the fold over all input bytes; a count outside 0..86399
      becomes midnight, so decoding never fails. */
  function FromBytes(s: seq<Byte>): (t: SecondOfDay)
    ensures 0 <= FoldValue(s) < SecondsPerDay ==> t == FoldValue(s)
    ensures !(0 <= FoldValue(s) < SecondsPerDay) ==> t == 0
  {
    var v := FoldValue(s);
    if 0 <= v < SecondsPerDay then v else 0
  }

  /** `toBytes`: the second of day as four little-endian bytes. */
  function ToBytes(t: SecondOfDay): (r: seq<Byte>)
    ensures |r| == 4
  {
    LeEncode(t, 4)
  }

  function FromBytesBE(s: seq<Byte>): SecondOfDay
  {
    FromBytes(Reverse(s))
  }

  function ToBytesBE(t: SecondOfDay): seq<Byte>
  {
    Reverse(ToBytes(t))
  }

  /** Up to eight bytes read as their little-endian value when that value is a
      valid second of day, and as midnight otherwise. */
  lemma {:induction false} DecodeShort(s: seq<Byte>)
    requires |s| <= 8
    ensures FromBytes(s) == if 0 <= LeValue(s) < SecondsPerDay then LeValue(s) else 0
  {
    FoldValueShort(s);
    if |s| == 8 {
      LeValueBounds(s);
      Pow256Values();
    }
  }

  /** decode(encode(t)) == t for every whole-second time of day, in both byte orders. */
  lemma {:induction false} RoundTrip(t: SecondOfDay)
    ensures FromBytes(ToBytes(t)) == t
    ensures FromBytesBE(ToBytesBE(t)) == t
  {
    Pow256Values();
    UnsignedRoundTrip(t, 4);
    DecodeShort(ToBytes(t));
    ReverseReverse(ToBytes(t));
  }

  /** A four-byte input is reproduced by re-encoding exactly when it holds a
      valid second of day. */
  lemma {:induction false} EncodeOfDecode(s: seq<Byte>)
    requires |s| == 4
    ensures ToBytes(FromBytes(s)) == s <==> LeValue(s) < SecondsPerDay
  {
    DecodeShort(s);
    LeValueBounds(s);
    LeEncodeOfValue(s);
    if LeValue(s) >= SecondsPerDay {
      UnsignedRoundTrip(0, 4);
    }
  }
}

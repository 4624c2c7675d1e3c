// FloatWrapper, DoubleWrapper and HalfFloatWrapper, reduced to their byte
// layout. A floating-point value is represented by its bit pattern in the
// wrapper's own IEEE 754 format (binary32, binary64 or binary16); the
// arithmetic meaning of those bits is not modelled.
module FloatWrappers {
  import opened Bytes

  datatype FloatKind = Half | Single | Double

  function Width(k: FloatKind): nat
  {
    match k
    case Half => 2
    case Single => 4
    case Double => 8
  }

  /** The quiet-NaN pattern that `Float.NaN` / `Double.NaN` has in each format. */
  function NaNBits(k: FloatKind): nat
  {
    match k
    case Half => 0x7E00
    case Single => 0x7FC0_0000
    case Double => 0x7FF8_0000_0000_0000
  }

  type Bits = nat

  /** `fromBytes`: an input that is not exactly `width` bytes long reads as NaN;
      otherwise the little-endian bit pattern. */
  function FromBytes(k: FloatKind, s: seq<Byte>): (r: Bits)
    ensures |s| != Width(k) ==> r == NaNBits(k)
    ensures r < Pow256(Width(k))
  {
    Pow256Values();
    if |s| != Width(k) then NaNBits(k)
    else
      LeValueBounds(s);
      LeValue(s)
  }

  /** `toBytes`: the bit pattern as `width` little-endian bytes. */
  function ToBytes(k: FloatKind, b: Bits): (r: seq<Byte>)
    ensures |r| == Width(k)
  {
    LeEncode(b, Width(k))
  }

  function FromBytesBE(k: FloatKind, s: seq<Byte>): Bits
  {
    FromBytes(k, Reverse(s))
  }

  function ToBytesBE(k: FloatKind, b: Bits): seq<Byte>
  {
    Reverse(ToBytes(k, b))
  }

  /** Bit patterns of the format survive the round trip, in both byte orders,
      and a wrong-length input is NaN in both byte orders. */
  lemma {:induction false} RoundTrip(k: FloatKind, b: Bits, s: seq<Byte>)
    requires b < Pow256(Width(k))
    ensures FromBytes(k, ToBytes(k, b)) == b
    ensures FromBytesBE(k, ToBytesBE(k, b)) == b
    ensures |s| != Width(k) ==> FromBytesBE(k, s) == NaNBits(k)
  {
    UnsignedRoundTrip(b, Width(k));
    ReverseReverse(ToBytes(k, b));
  }
}

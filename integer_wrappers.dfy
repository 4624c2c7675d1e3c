// The eight fixed-width integer wrappers (UInt8 … SInt64) and their
// big-endian subclasses. All eight share one shape: decoding reads the
// first min(n, width) bytes little-endian with missing high bytes taken as 0
// (no sign extension), and a signed kind then reinterprets that word as two's
// complement; encoding writes exactly `width` little-endian bytes.
module IntegerWrappers {
  import opened Bytes

  datatype IntKind = UInt8 | SInt8 | UInt16 | SInt16 | UInt32 | SInt32 | UInt64 | SInt64

  /** Number of bytes the kind occupies. */
  function Width(k: IntKind): nat
  {
    match k
    case UInt8 | SInt8 => 1
    case UInt16 | SInt16 => 2
    case UInt32 | SInt32 => 4
    case UInt64 | SInt64 => 8
  }

  predicate IsSigned(k: IntKind)
  {
    k.SInt8? || k.SInt16? || k.SInt32? || k.SInt64?
  }

  /** The companion MIN_VALUE of each wrapper: the Kotlin type's minimum. */
  function MinValue(k: IntKind): int
  {
    match k
    case UInt8 | UInt16 | UInt32 | UInt64 => 0
    case SInt8 => -0x80
    case SInt16 => -0x8000
    case SInt32 => -0x8000_0000
    case SInt64 => -0x8000_0000_0000_0000
  }

  /** The companion MAX_VALUE of each wrapper: the Kotlin type's maximum. */
  function MaxValue(k: IntKind): int
  {
    match k
    case UInt8 => 0xFF
    case UInt16 => 0xFFFF
    case UInt32 => 0xFFFF_FFFF
    case UInt64 => 0xFFFF_FFFF_FFFF_FFFF
    case SInt8 => 0x7F
    case SInt16 => 0x7FFF
    case SInt32 => 0x7FFF_FFFF
    case SInt64 => 0x7FFF_FFFF_FFFF_FFFF
  }

  predicate InRange(k: IntKind, v: int)
  {
    MinValue(k) <= v <= MaxValue(k)
  }

  /** The bounds are exactly the unsigned or two's-complement range of the width. */
  lemma {:induction false} BoundsMatchWidth(k: IntKind)
    ensures !IsSigned(k) ==> MinValue(k) == 0 && MaxValue(k) == Pow256(Width(k)) - 1
    ensures IsSigned(k) ==> -2 * MinValue(k) == Pow256(Width(k)) && 2 * (MaxValue(k) + 1) == Pow256(Width(k))
  {
    Pow256Values();
  }

  /** `fromBytes` of the little-endian wrapper. */
  function FromBytes(k: IntKind, s: seq<Byte>): (r: int)
    ensures InRange(k, r)
  {
    var u := LeValue(Prefix(s, Width(k)));
    LeValueBounds(Prefix(s, Width(k)));
    Pow256Monotone(|Prefix(s, Width(k))|, Width(k));
    BoundsMatchWidth(k);
    if IsSigned(k) then Signed(u, Width(k)) else u
  }

  /** `toBytes` of the little-endian wrapper. */
  function ToBytes(k: IntKind, v: int): (r: seq<Byte>)
    requires InRange(k, v)
    ensures |r| == Width(k)
  {
    LeEncode(v, Width(k))
  }

  /** `fromBytes` of the big-endian subclass: the input is reversed first. */
  function FromBytesBE(k: IntKind, s: seq<Byte>): int
  {
    FromBytes(k, Reverse(s))
  }

  /** `toBytes` of the big-endian subclass: the output is reversed. */
  function ToBytesBE(k: IntKind, v: int): seq<Byte>
    requires InRange(k, v)
  {
    Reverse(ToBytes(k, v))
  }

  /** decode(encode(v)) == v for every value of the Kotlin type. */
  lemma {:induction false} RoundTrip(k: IntKind, v: int)
    requires InRange(k, v)
    ensures FromBytes(k, ToBytes(k, v)) == v
  {
    BoundsMatchWidth(k);
    var e := ToBytes(k, v);
    assert Prefix(e, Width(k)) == e;
    if IsSigned(k) {
      SignedRoundTrip(v, Width(k));
    } else {
      UnsignedRoundTrip(v, Width(k));
    }
  }

  /** encode(decode(s)) == s for every input of exactly the kind's width. */
  lemma {:induction false} EncodeOfDecode(k: IntKind, s: seq<Byte>)
    requires |s| == Width(k)
    ensures ToBytes(k, FromBytes(k, s)) == s
  {
    var u := LeValue(s);
    assert Prefix(s, Width(k)) == s;
    LeValueBounds(s);
    LeEncodeOfValue(s);
    if IsSigned(k) && 2 * u >= Pow256(Width(k)) {
      // The two's-complement reading differs from u by one whole modulus.
      DivModUnique(u - Pow256(Width(k)), 256, (u - Pow256(Width(k))) / 256, (u - Pow256(Width(k))) % 256);
      LeEncodeShift(u, Width(k));
    }
  }

  /** Adding a whole modulus 256^w does not change the w-byte encoding. */
  lemma {:induction false} LeEncodeShift(u: int, w: nat)
    ensures LeEncode(u - Pow256(w), w) == LeEncode(u, w)
    decreases w
  {
    if w > 0 {
      var p := Pow256(w - 1);
      assert u - Pow256(w) == (u - 256 * p);
      DivModUnique(u - 256 * p, 256, u / 256 - p, u % 256);
      LeEncodeShift(u / 256, w - 1);
    }
  }

  /** Empty input decodes to 0. */
  lemma {:induction false} EmptyDecodesToZero(k: IntKind)
    ensures FromBytes(k, []) == 0 && FromBytesBE(k, []) == 0
  {
    assert Reverse([]) == [];
  }

  /** With at least `width` bytes only the first `width` are read, and later
      bytes are ignored. */
  lemma {:induction false} DecodeReadsPrefix(k: IntKind, s: seq<Byte>, tail: seq<Byte>)
    requires |s| == Width(k)
    ensures FromBytes(k, s + tail) == FromBytes(k, s)
    ensures !IsSigned(k) ==> FromBytes(k, s) == LeValue(s)
    ensures IsSigned(k) ==> FromBytes(k, s) == Signed(LeValue(s), Width(k))
  {
    assert Prefix(s + tail, Width(k)) == s;
    assert Prefix(s, Width(k)) == s;
  }

  /** Fewer bytes than the width give a non-negative value below 256^n: the
      missing high bytes are 0 and a signed kind does not sign-extend. */
  lemma {:induction false} ShortInputIsNonNegative(k: IntKind, s: seq<Byte>)
    requires |s| < Width(k)
    ensures FromBytes(k, s) == LeValue(s)
    ensures 0 <= FromBytes(k, s) < Pow256(|s|)
  {
    assert Prefix(s, Width(k)) == s;
    LeValueBounds(s);
    Pow256Monotone(|s| + 1, Width(k));
  }

  /** One-byte kinds: the little-endian reading is the first byte, the
      big-endian reading the last, and both encodings are the same byte. */
  lemma {:induction false} OneByteKinds(k: IntKind, s: seq<Byte>, v: int)
    requires Width(k) == 1 && s != [] && InRange(k, v)
    ensures FromBytes(k, s) == (if IsSigned(k) then Signed(s[0], 1) else s[0])
    ensures FromBytesBE(k, s) == (if IsSigned(k) then Signed(s[|s| - 1], 1) else s[|s| - 1])
    ensures ToBytesBE(k, v) == ToBytes(k, v) == [v % 256]
  {
    assert Prefix(s, 1) == [s[0]];
    assert Prefix(Reverse(s), 1) == [s[|s| - 1]];
    assert LeValue([s[0]]) == s[0] by { assert [s[0]][1..] == []; }
    assert LeValue([s[|s| - 1]]) == s[|s| - 1] by { assert [s[|s| - 1]][1..] == []; }
  }

  /** Big-endian round trips follow from the little-endian ones. */
  lemma {:induction false} RoundTripBE(k: IntKind, v: int, s: seq<Byte>)
    requires InRange(k, v)
    ensures FromBytesBE(k, ToBytesBE(k, v)) == v
    ensures |s| == Width(k) ==> ToBytesBE(k, FromBytesBE(k, s)) == s
  {
    ReverseReverse(ToBytes(k, v));
    RoundTrip(k, v);
    if |s| == Width(k) {
      EncodeOfDecode(k, Reverse(s));
      ReverseReverse(s);
    }
  }

  /** The same two bytes read both ways: 0x012C little-endian, 0x2C01 big-endian. */
  lemma {:induction false} UInt16Example()
    ensures FromBytes(UInt16, [0x2C, 0x01]) == 300
    ensures FromBytesBE(UInt16, [0x2C, 0x01]) == 11265
  {
    assert Reverse([0x2C, 0x01]) == [0x01, 0x2C];
    assert Prefix([0x2C, 0x01], 2) == [0x2C, 0x01];
    assert LeValue([0x01]) == 1 by { assert [0x01][1..] == []; }
    assert LeValue([0x2C]) == 0x2C by { assert [0x2C][1..] == []; }
    assert [0x2C, 0x01][1..] == [0x01];
    assert [0x01, 0x2C][1..] == [0x2C];
  }
}

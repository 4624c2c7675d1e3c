// DateTime64Wrapper and DateTime32Wrapper: a `LocalDateTime` carried as its
// whole-second UTC epoch timestamp. Both decode the same way (the 32-bit class
// inherits the 64-bit decoder); they differ only in how many low-order bytes
// the encoder writes. Big-endian subclasses reverse both ways.
module DateTimeWrappers {
  import opened Bytes

  /** Epoch seconds of the earliest and latest `LocalDateTime`
      (-999999999-01-01T00:00:00 and +999999999-12-31T23:59:59, UTC). */
  const MinEpochSecond := -31557014135596800
  const MaxEpochSecond := 31556889832780799

  /** A `LocalDateTime` truncated to whole seconds, as epoch seconds. */
  type EpochSecond = v: int | MinEpochSecond <= v <= MaxEpochSecond

  /** `fromBytes`: the fold over all input bytes; a timestamp outside the
      date-time range falls back to 1970-01-01T00:00, so decoding never fails. */
  function FromBytes(s: seq<Byte>): (d: EpochSecond)
    ensures MinEpochSecond <= FoldValue(s) <= MaxEpochSecond ==> d == FoldValue(s)
    ensures !(MinEpochSecond <= FoldValue(s) <= MaxEpochSecond) ==> d == 0
  {
    var ts := FoldValue(s);
    if MinEpochSecond <= ts <= MaxEpochSecond then ts else 0
  }

  /** `toBytes(value, n)`: byte i is `timestamp shr (8 * i)`, and the JVM
      takes a `Long` shift count modulo 64, so the n bytes are the eight
      little-endian bytes of the timestamp over and over. */
  function ToBytesN(d: EpochSecond, n: nat): (r: seq<Byte>)
    ensures |r| == n
    decreases n
  {
    if n <= 8 then LeEncode(d, n)
    else LeEncode(d, 8) + ToBytesN(d, n - 8)
  }

  /** Byte i of `toBytes(value, n)` is byte i mod 8 of the timestamp. */
  lemma {:induction false} ToBytesNCycles(d: EpochSecond, n: nat)
    ensures forall i :: 0 <= i < n ==> ToBytesN(d, n)[i] == LeEncode(d, 8)[i % 8]
    decreases n
  {
    var word := LeEncode(d, 8);
    if n <= 8 {
      LeEncodePrefix(d, n, 8);
      assert ToBytesN(d, n) == word[..n];
      PrefixOfWord(word, n);
    } else {
      ToBytesNCycles(d, n - 8);
      var rest := ToBytesN(d, n - 8);
      assert ToBytesN(d, n) == word + rest;
      PrependWord(word, rest);
    }
  }

  lemma {:induction false} PrefixOfWord(word: seq<Byte>, n: nat)
    requires |word| == 8 && n <= 8
    ensures forall i :: 0 <= i < n ==> word[..n][i] == word[i % 8]
  {
  }

  /** Putting one more copy of an 8-byte word in front keeps a cycle of it. */
  lemma {:induction false} PrependWord(word: seq<Byte>, rest: seq<Byte>)
    requires |word| == 8
    requires forall j :: 0 <= j < |rest| ==> rest[j] == word[j % 8]
    ensures forall i :: 0 <= i < 8 + |rest| ==> (word + rest)[i] == word[i % 8]
  {
    forall i | 0 <= i < 8 + |rest|
      ensures (word + rest)[i] == word[i % 8]
    {
      if i >= 8 {
        ModEight(i - 8);
      }
    }
  }

  lemma {:induction false} ModEight(k: nat)
    ensures (k + 8) % 8 == k % 8
  {
  }

  /** Up to eight bytes are the low-order bytes; a ninth repeats the first. */
  lemma {:induction false} ToBytesNWraps(d: EpochSecond)
    ensures ToBytesN(d, 4) == LeEncode(d, 4)
    ensures ToBytesN(d, 8) == LeEncode(d, 8)
    ensures ToBytesN(d, 9)[8] == ToBytesN(d, 9)[0]
  {
    ToBytesNCycles(d, 9);
  }

  /** DateTime64Wrapper.toBytes */
  function ToBytes64(d: EpochSecond): seq<Byte>
  {
    ToBytesN(d, 8)
  }

  /** DateTime32Wrapper.toBytes */
  function ToBytes32(d: EpochSecond): seq<Byte>
  {
    ToBytesN(d, 4)
  }

  function FromBytesBE(s: seq<Byte>): EpochSecond
  {
    FromBytes(Reverse(s))
  }

  function ToBytes64BE(d: EpochSecond): seq<Byte>
  {
    Reverse(ToBytes64(d))
  }

  function ToBytes32BE(d: EpochSecond): seq<Byte>
  {
    Reverse(ToBytes32(d))
  }

  /** Fewer than eight bytes have zero high bytes; up to four bytes always
      decode to their non-negative little-endian value, so the fallback never
      fires for a 32-bit field. */
  lemma {:induction false} DecodeShort(s: seq<Byte>)
    requires |s| < 8
    ensures FromBytes(s) == if LeValue(s) <= MaxEpochSecond then LeValue(s) else 0
    ensures |s| <= 4 ==> FromBytes(s) == LeValue(s)
  {
    FoldValueShort(s);
    if |s| <= 4 {
      Pow256Monotone(|s|, 4);
      Pow256Values();
    }
  }

  /** decode(encode64(d)) == d for every whole-second date-time, in both byte orders. */
  lemma {:induction false} RoundTrip64(d: EpochSecond)
    ensures FromBytes(ToBytes64(d)) == d
    ensures FromBytesBE(ToBytes64BE(d)) == d
  {
    Pow256Values();
    SignedRoundTrip(d, 8);
    FoldValueShort(ToBytes64(d));
    ReverseReverse(ToBytes64(d));
  }

  /** The 32-bit encoding keeps the timestamp modulo 2^32, so its round trip is
      exact exactly for timestamps in 0..2^32-1. */
  lemma {:induction false} RoundTrip32(d: EpochSecond)
    ensures FromBytes(ToBytes32(d)) == d % 0x1_0000_0000
    ensures FromBytes(ToBytes32(d)) == d <==> 0 <= d < 0x1_0000_0000
    ensures FromBytesBE(ToBytes32BE(d)) == FromBytes(ToBytes32(d))
  {
    Pow256Values();
    LeValueOfEncode(d, 4);
    DecodeShort(ToBytes32(d));
    ReverseReverse(ToBytes32(d));
    if 0 <= d < 0x1_0000_0000 {
      DivModUnique(d, 0x1_0000_0000, 0, d);
    }
  }

  /** A concrete wrap: one second before the epoch comes back as 2^32 - 1. */
  lemma {:induction false} RoundTrip32Wraps()
    ensures FromBytes(ToBytes32(-1)) == 0xFFFF_FFFF
  {
    RoundTrip32(-1);
    DivModUnique(-1, 0x1_0000_0000, -1, 0xFFFF_FFFF);
  }
}

// Byte sequences and the fixed-width integers the Kotlin code works with.
// Kotlin's `Byte` is signed, but every wrapper masks it with `and 0xFF`
// before use, so a byte is modelled by its unsigned reading 0..255.
module Bytes {

  type Byte = x: int | 0 <= x < 256

  /** 256^w: the number of distinct w-byte strings. */
  function Pow256(w: nat): (r: int)
    ensures r >= 1
  {
    if w == 0 then 1 else 256 * Pow256(w - 1)
  }

  // Kotlin's fixed-width integer types as ranges of mathematical integers.
  type Int32 = x: int | -0x8000_0000 <= x < 0x8000_0000
  type Int64 = x: int | -0x8000_0000_0000_0000 <= x < 0x8000_0000_0000_0000
  type UInt32 = x: int | 0 <= x < 0x1_0000_0000
  type UInt64 = x: int | 0 <= x < 0x1_0000_0000_0000_0000

  /** The unsigned little-endian reading of s: byte i weighs 256^i. */
  function LeValue(s: seq<Byte>): int
  {
    if s == [] then 0 else s[0] + 256 * LeValue(s[1..])
  }

  /** The w low-order bytes of v, least significant first. Dafny's `/` and `%`
      by a positive divisor are floor division and its remainder, so for a
      negative v this is the two's-complement byte string, exactly what the
      Kotlin `(v shr 8*i) and 0xFF` produces. */
  function LeEncode(v: int, w: nat): (r: seq<Byte>)
    ensures |r| == w
    decreases w
  {
    if w == 0 then [] else [v % 256] + LeEncode(v / 256, w - 1)
  }

  /** Fewer low-order bytes are a prefix of more. */
  lemma {:induction false} LeEncodePrefix(v: int, n: nat, m: nat)
    requires n <= m
    ensures LeEncode(v, n) == LeEncode(v, m)[..n]
    decreases n
  {
    if n > 0 {
      LeEncodePrefix(v / 256, n - 1, m - 1);
    }
  }

  /** `reversedArray()` */
  function Reverse(s: seq<Byte>): (r: seq<Byte>)
    ensures |r| == |s|
    ensures forall i :: 0 <= i < |s| ==> r[i] == s[|s| - 1 - i]
  {
    if s == [] then [] else Reverse(s[1..]) + [s[0]]
  }

  /** The two's-complement reading of an unsigned w-byte value u. */
  function Signed(u: int, w: nat): int
  {
    if 2 * u >= Pow256(w) then u - Pow256(w) else u
  }

  /** The first (at most) w bytes of s. */
  function Prefix(s: seq<Byte>, w: nat): (r: seq<Byte>)
    ensures |r| <= w && r <= s
    ensures |s| >= w ==> |r| == w
  {
    if |s| <= w then s else s[..w]
  }

  lemma {:induction false} LeValueBounds(s: seq<Byte>)
    ensures 0 <= LeValue(s) < Pow256(|s|)
  {
    if s != [] {
      LeValueBounds(s[1..]);
    }
  }

  /** Quotient and remainder are determined by any decomposition v == d*q + r
      with 0 <= r < d. */
  lemma {:induction false} DivModUnique(v: int, d: int, q: int, r: int)
    requires d > 0 && 0 <= r < d && v == d * q + r
    ensures v / d == q && v % d == r
  {
    var q', r' := v / d, v % d;
    assert v == d * q' + r';
    if q' > q {
      assert d * q' >= d * (q + 1) by { MulMonotone(d, q + 1, q'); }
      assert false;
    } else if q' < q {
      assert d * q >= d * (q' + 1) by { MulMonotone(d, q' + 1, q); }
      assert false;
    }
  }

  lemma {:induction false} MulMonotone(d: int, a: int, b: int)
    requires d > 0 && a <= b
    ensures d * a <= d * b
  {
  }

  /** Splitting off the lowest byte of a residue modulo 256*p. */
  lemma {:induction false} ModSplit(v: int, p: int)
    requires p > 0
    ensures v % (256 * p) == v % 256 + 256 * ((v / 256) % p)
  {
    var a, r := v / 256, v % 256;
    var b, c := a / p, a % p;
    assert a == p * b + c;
    assert v == 256 * a + r;
    assert v == (256 * p) * b + (256 * c + r) by {
      calc {
        v;
        256 * a + r;
        256 * (p * b + c) + r;
        (256 * p) * b + (256 * c + r);
      }
    }
    assert 0 <= 256 * c + r < 256 * p by { MulMonotone(256, c, p - 1); }
    DivModUnique(v, 256 * p, b, 256 * c + r);
  }

  /** Reading back the w encoded bytes gives v reduced modulo 256^w. */
  lemma {:induction false} LeValueOfEncode(v: int, w: nat)
    ensures LeValue(LeEncode(v, w)) == v % Pow256(w)
    decreases w
  {
    if w > 0 {
      var e := LeEncode(v, w);
      assert e[1..] == LeEncode(v / 256, w - 1);
      LeValueOfEncode(v / 256, w - 1);
      ModSplit(v, Pow256(w - 1));
    }
  }

  /** Encoding the value of a byte string at its own width gives it back. */
  lemma {:induction false} LeEncodeOfValue(s: seq<Byte>)
    ensures LeEncode(LeValue(s), |s|) == s
  {
    if s != [] {
      var v := LeValue(s);
      DivModUnique(v, 256, LeValue(s[1..]), s[0]);
      LeEncodeOfValue(s[1..]);
    }
  }

  /** Values in range survive the unsigned round trip unchanged. */
  lemma {:induction false} UnsignedRoundTrip(v: int, w: nat)
    requires 0 <= v < Pow256(w)
    ensures LeValue(LeEncode(v, w)) == v
  {
    LeValueOfEncode(v, w);
    DivModUnique(v, Pow256(w), 0, v);
  }

  /** Values in the signed range survive the two's-complement round trip. */
  lemma {:induction false} SignedRoundTrip(v: int, w: nat)
    requires w > 0
    requires -Pow256(w) <= 2 * v < Pow256(w)
    ensures Signed(LeValue(LeEncode(v, w)), w) == v
  {
    LeValueOfEncode(v, w);
    if v >= 0 {
      DivModUnique(v, Pow256(w), 0, v);
    } else {
      DivModUnique(v, Pow256(w), -1, v + Pow256(w));
    }
  }

  /** The signed reading of a w-byte value lies in the signed range. */
  lemma {:induction false} SignedBounds(u: int, w: nat)
    requires 0 <= u < Pow256(w)
    ensures -Pow256(w) <= 2 * Signed(u, w) < Pow256(w)
  {
  }

  lemma {:induction false} ReverseReverse(s: seq<Byte>)
    ensures Reverse(Reverse(s)) == s
  {
    var r := Reverse(Reverse(s));
    assert |r| == |s|;
    forall i | 0 <= i < |s| ensures r[i] == s[i] {
      assert r[i] == Reverse(s)[|s| - 1 - i];
    }
  }

  lemma {:induction false} Pow256Monotone(a: nat, b: nat)
    requires a <= b
    ensures Pow256(a) <= Pow256(b)
    decreases b
  {
    if a < b {
      Pow256Monotone(a, b - 1);
    }
  }

  /** Bitwise OR of two bytes. */
  function OrByte(a: Byte, b: Byte): Byte
  {
    (a as bv8 | b as bv8) as int
  }

  /** Zero is the identity of OR. */
  lemma {:induction false} OrZero(b: Byte)
    ensures OrByte(0, b) == b
  {
    assert (0 as bv8 | b as bv8) == b as bv8;
  }

  /** The eight byte lanes of a 64-bit accumulator after
      `foldIndexed(0L) { i, acc, b -> acc or (b shl 8*i) }`. A JVM `Long shl`
      uses only the low six bits of its shift count, so byte i lands in lane
      i mod 8: a ninth byte is ORed into the lowest byte again. */
  function FoldLanes(s: seq<Byte>): (r: seq<Byte>)
    ensures |r| == 8
  {
    if s == [] then [0, 0, 0, 0, 0, 0, 0, 0]
    else
      var acc := FoldLanes(s[..|s| - 1]);
      var lane := (|s| - 1) % 8;
      acc[lane := OrByte(acc[lane], s[|s| - 1])]
  }

  /** The Long that the fold produces: its eight lanes read as a signed word. */
  function FoldValue(s: seq<Byte>): int
  {
    Signed(LeValue(FoldLanes(s)), 8)
  }

  function Zeros(n: nat): (r: seq<Byte>)
    ensures |r| == n && forall i :: 0 <= i < n ==> r[i] == 0
  {
    if n == 0 then [] else [0] + Zeros(n - 1)
  }

  /** Up to eight bytes never collide in the accumulator: the lanes are the
      input followed by zero bytes. */
  lemma {:induction false} FoldLanesShort(s: seq<Byte>)
    requires |s| <= 8
    ensures FoldLanes(s) == s + Zeros(8 - |s|)
  {
    if s != [] {
      var n := |s| - 1;
      var acc := FoldLanes(s[..n]);
      FoldLanesShort(s[..n]);
      assert n % 8 == n;
      assert acc[n] == 0;
      OrZero(s[n]);
      var r := acc[n := OrByte(acc[n], s[n])];
      assert FoldLanes(s) == r;
      forall i | 0 <= i < 8 ensures r[i] == (s + Zeros(8 - |s|))[i] {
        if i < n {
          assert r[i] == acc[i] == s[..n][i];
        }
      }
    }
  }

  /** Trailing zero bytes do not change a little-endian value. */
  lemma {:induction false} LeValueZeroPad(s: seq<Byte>, n: nat)
    ensures LeValue(s + Zeros(n)) == LeValue(s)
  {
    if s == [] {
      LeValueZeros(n);
      assert s + Zeros(n) == Zeros(n);
    } else {
      assert (s + Zeros(n))[1..] == s[1..] + Zeros(n);
      LeValueZeroPad(s[1..], n);
    }
  }

  lemma {:induction false} LeValueZeros(n: nat)
    ensures LeValue(Zeros(n)) == 0
  {
    if n > 0 {
      assert Zeros(n)[1..] == Zeros(n - 1);
      LeValueZeros(n - 1);
    }
  }

  /** For up to eight bytes the fold is the plain little-endian reading; below
      eight bytes it is never negative. */
  lemma {:induction false} FoldValueShort(s: seq<Byte>)
    requires |s| <= 8
    ensures |s| < 8 ==> FoldValue(s) == LeValue(s) && 0 <= LeValue(s) < Pow256(|s|)
    ensures |s| == 8 ==> FoldValue(s) == Signed(LeValue(s), 8)
  {
    FoldLanesShort(s);
    LeValueZeroPad(s, 8 - |s|);
    assert LeValue(FoldLanes(s)) == LeValue(s);
    LeValueBounds(s);
    if |s| < 8 {
      Pow256Monotone(|s| + 1, 8);
      assert 256 * Pow256(|s|) == Pow256(|s| + 1);
      assert 2 * LeValue(s) < Pow256(8);
    }
  }

  /** The wrap-around: a ninth byte is ORed into the lowest byte. */
  lemma {:induction false} FoldNinthByte()
    ensures FoldValue([1, 0, 0, 0, 0, 0, 0, 0, 2]) == 3
  {
    var s: seq<Byte> := [1, 0, 0, 0, 0, 0, 0, 0, 2];
    FoldLanesShort(s[..8]);
    assert s[..8] + Zeros(0) == [1, 0, 0, 0, 0, 0, 0, 0];
    assert OrByte(1, 2) == 3;
    assert FoldLanes(s) == [3, 0, 0, 0, 0, 0, 0, 0];
    LeValueZeroPad([3], 7);
    assert [3] + Zeros(7) == [3, 0, 0, 0, 0, 0, 0, 0];
    assert LeValue([3]) == 3 by { assert [3][1..] == []; }
  }

  lemma {:induction false} Pow256Values()
    ensures Pow256(1) == 0x100 && Pow256(2) == 0x1_0000
    ensures Pow256(4) == 0x1_0000_0000 && Pow256(8) == 0x1_0000_0000_0000_0000
  {
    assert Pow256(1) == 256;
    assert Pow256(2) == 256 * 256;
    assert Pow256(3) == 256 * 256 * 256;
    assert Pow256(4) == 0x1_0000_0000;
    assert Pow256(5) == 0x100_0000_0000;
    assert Pow256(6) == 0x1_0000_0000_0000;
    assert Pow256(7) == 0x100_0000_0000_0000;
  }
}

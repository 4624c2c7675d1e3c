// `java.util.UUID`: two 64-bit halves, printed as 32 lower-case hexadecimal
// digits grouped 8-4-4-4-12, and ordered by comparing the halves as signed
// longs.
module Uuids {
  import opened Bytes

  /** The halves are kept as their unsigned 64-bit patterns. */
  datatype Uuid = Uuid(msb: UInt64, lsb: UInt64)

  const HexAlphabet := "0123456789abcdef"

  predicate IsLowerHexDigit(c: char)
  {
    '0' <= c <= '9' || 'a' <= c <= 'f'
  }

  /** The n lower-case hexadecimal digits of v, most significant first. */
  function HexDigits(v: nat, n: nat): (r: string)
    ensures |r| == n
    ensures forall i :: 0 <= i < n ==> IsLowerHexDigit(r[i])
  {
    if n == 0 then [] else HexDigits(v / 16, n - 1) + [HexAlphabet[v % 16]]
  }

  /** The value of a string of hexadecimal digits, most significant first. */
  function HexValue(s: string): int
  {
    if s == [] then 0 else 16 * HexValue(s[..|s| - 1]) + HexDigitValue(s[|s| - 1])
  }

  function HexDigitValue(c: char): int
  {
    if '0' <= c <= '9' then c as int - '0' as int
    else if 'a' <= c <= 'f' then c as int - 'a' as int + 10
    else if 'A' <= c <= 'F' then c as int - 'A' as int + 10
    else 0
  }

  lemma {:induction false} HexValueOfDigits(v: nat, n: nat)
    ensures HexValue(HexDigits(v, n)) == v % Pow16(n)
    decreases n
  {
    if n > 0 {
      var d := HexDigits(v, n);
      assert d[..n - 1] == HexDigits(v / 16, n - 1);
      HexValueOfDigits(v / 16, n - 1);
      HexDigitValueOf(v % 16);
      ModSplit16(v, Pow16(n - 1));
    }
  }

  lemma {:induction false} HexDigitValueOf(d: nat)
    requires d < 16
    ensures HexDigitValue(HexAlphabet[d]) == d
  {
  }

  function Pow16(n: nat): (r: int)
    ensures r >= 1
  {
    if n == 0 then 1 else 16 * Pow16(n - 1)
  }

  lemma {:induction false} ModSplit16(v: int, p: int)
    requires p > 0
    ensures v % (16 * p) == v % 16 + 16 * ((v / 16) % p)
  {
    var a, r := v / 16, v % 16;
    var b, c := a / p, a % p;
    assert v == (16 * p) * b + (16 * c + r) by {
      assert a == p * b + c;
      assert v == 16 * a + r;
    }
    assert 0 <= 16 * c + r < 16 * p by { MulMonotone(16, c, p - 1); }
    DivModUnique(v, 16 * p, b, 16 * c + r);
  }

  /** The UUID without dashes: 16 digits of the high half, then 16 of the low. */
  function Hex32(u: Uuid): (r: string)
    ensures |r| == 32
  {
    HexDigits(u.msb, 16) + HexDigits(u.lsb, 16)
  }

  /** The 8-4-4-4-12 grouping: dashes after the 8th, 12th, 16th and 20th
      character, the rest of the string in the last group. */
  function Grouped(h: string): (r: string)
    requires |h| >= 20
    ensures |r| == |h| + 4
  {
    h[..8] + "-" + h[8..12] + "-" + h[12..16] + "-" + h[16..20] + "-" + h[20..]
  }

  /** `UUID.toString()` */
  function ToString(u: Uuid): (r: string)
    ensures |r| == 36
  {
    Grouped(Hex32(u))
  }

  /** Deletes every '-' (`replace("-", "")`). */
  function RemoveDashes(s: string): (r: string)
    ensures |r| <= |s|
  {
    if s == [] then []
    else (if s[0] == '-' then [] else [s[0]]) + RemoveDashes(s[1..])
  }

  lemma {:induction false} RemoveDashesAppend(a: string, b: string)
    ensures RemoveDashes(a + b) == RemoveDashes(a) + RemoveDashes(b)
  {
    if a == [] {
      assert a + b == b;
    } else {
      assert (a + b)[1..] == a[1..] + b;
      RemoveDashesAppend(a[1..], b);
    }
  }

  lemma {:induction false} RemoveDashesNoDash(s: string)
    requires forall i :: 0 <= i < |s| ==> s[i] != '-'
    ensures RemoveDashes(s) == s
  {
    if s != [] {
      RemoveDashesNoDash(s[1..]);
    }
  }

  /** The printed form carries every digit once, and dashes exactly at
      positions 8, 13, 18 and 23. */
  lemma {:induction false} ToStringShape(u: Uuid)
    ensures RemoveDashes(ToString(u)) == Hex32(u)
    ensures forall i :: 0 <= i < 36 ==> (ToString(u)[i] == '-' <==> i in {8, 13, 18, 23})
    ensures forall i :: 0 <= i < 32 ==> IsLowerHexDigit(Hex32(u)[i])
  {
    var h := Hex32(u);
    var parts := [h[..8], "-", h[8..12], "-", h[12..16], "-", h[16..20], "-", h[20..]];
    assert h == h[..8] + h[8..12] + h[12..16] + h[16..20] + h[20..];
    forall i | 0 <= i < 32 ensures IsLowerHexDigit(h[i]) {
      if i < 16 {
        assert h[i] == HexDigits(u.msb, 16)[i];
      } else {
        assert h[i] == HexDigits(u.lsb, 16)[i - 16];
      }
    }
    GroupedDropsDashes(h);
  }

  /** Removing the dashes from the grouped form of a dash-free string gives
      the string back. */
  lemma {:induction false} GroupedDropsDashes(h: string)
    requires |h| >= 20 && forall i :: 0 <= i < |h| ==> h[i] != '-'
    ensures RemoveDashes(Grouped(h)) == h
  {
    var a, b, c, d, e := h[..8], h[8..12], h[12..16], h[16..20], h[20..];
    RemoveDashesNoDash(a);
    RemoveDashesNoDash(b);
    RemoveDashesNoDash(c);
    RemoveDashesNoDash(d);
    RemoveDashesNoDash(e);
    var g2 := a + "-" + b;
    var g3 := g2 + "-" + c;
    var g4 := g3 + "-" + d;
    DashJoin(a, b);
    DashJoin(g2, c);
    DashJoin(g3, d);
    DashJoin(g4, e);
    assert a + b == h[..12];
    assert h[..12] + c == h[..16];
    assert h[..16] + d == h[..20];
    assert h[..20] + e == h;
  }

  lemma {:induction false} DashJoin(x: string, y: string)
    ensures RemoveDashes(x + "-" + y) == RemoveDashes(x) + RemoveDashes(y)
  {
    RemoveDashesAppend(x + "-", y);
    RemoveDashesAppend(x, "-");
    assert RemoveDashes("-") == [];
  }

  /** Reading the 32 digits back gives the UUID: printing loses nothing. */
  lemma {:induction false} Hex32Parses(u: Uuid)
    ensures HexValue(Hex32(u)[..16]) == u.msb && HexValue(Hex32(u)[16..]) == u.lsb
  {
    var h := Hex32(u);
    assert h[..16] == HexDigits(u.msb, 16);
    assert h[16..] == HexDigits(u.lsb, 16);
    HexValueOfDigits(u.msb, 16);
    HexValueOfDigits(u.lsb, 16);
    assert Pow16(16) == 0x1_0000_0000_0000_0000 by {
      assert Pow16(4) == 0x1_0000;
      assert Pow16(8) == 0x1_0000_0000;
      assert Pow16(12) == 0x1_0000_0000_0000;
    }
    DivModUnique(u.msb, Pow16(16), 0, u.msb);
    DivModUnique(u.lsb, Pow16(16), 0, u.lsb);
  }

  /** Distinct UUIDs print differently. */
  lemma {:induction false} ToStringInjective(u: Uuid, w: Uuid)
    requires ToString(u) == ToString(w)
    ensures u == w
  {
    ToStringShape(u);
    ToStringShape(w);
    Hex32Parses(u);
    Hex32Parses(w);
  }

  /** The ordering key of `UUID.compareTo`: high halves first, then low
      halves, each compared as a signed long. */
  function Key(u: Uuid): (r: seq<int>)
    ensures |r| == 2
    ensures -0x8000_0000_0000_0000 <= r[0] < 0x8000_0000_0000_0000
  {
    Pow256Values();
    [Signed(u.msb, 8), Signed(u.lsb, 8)]
  }

  /** Distinct UUIDs have distinct keys, so the order is total. */
  lemma {:induction false} KeyInjective(u: Uuid, w: Uuid)
    requires Key(u) == Key(w)
    ensures u == w
  {
    Pow256Values();
  }
}

// ColorWrapper: an RGBA colour with 8-bit channels carried as the bytes
// R, G, B, A. There is no big-endian variant: the layout is the same
// whatever endianness the control asks for.
module ColorWrapper {
  import opened Bytes

  datatype Color = Color(red: Byte, green: Byte, blue: Byte, alpha: Byte)

  /** Opaque black, the colour of an empty input. */
  const Black := Color(0, 0, 0, 255)

  /** `fromBytes`: byte 0 is red, 1 green, 2 blue, 3 alpha; a missing green or
      blue is 0, a missing alpha 255; bytes after index 3 are ignored. */
  function FromBytes(s: seq<Byte>): (c: Color)
    ensures s == [] ==> c == Black
    ensures s != [] ==> c.red == s[0]
    ensures c.green == (if |s| > 1 then s[1] else 0)
    ensures c.blue == (if |s| > 2 then s[2] else 0)
    ensures c.alpha == (if |s| > 3 then s[3] else 255)
  {
    if s == [] then Black
    else Color(s[0],
               if |s| > 1 then s[1] else 0,
               if |s| > 2 then s[2] else 0,
               if |s| > 3 then s[3] else 255)
  }

  /** `toBytes`: the channels unpacked from the ARGB word, in R, G, B, A order. */
  function ToBytes(c: Color): (r: seq<Byte>)
    ensures |r| == 4
  {
    [c.red, c.green, c.blue, c.alpha]
  }

  /** decode(encode(c)) == c, encode(decode(b)) == b for every 4-byte b, and
      bytes past the fourth never matter. */
  lemma {:induction false} RoundTrip(c: Color, s: seq<Byte>, tail: seq<Byte>)
    ensures FromBytes(ToBytes(c)) == c
    ensures |s| == 4 ==> ToBytes(FromBytes(s)) == s
    ensures |s| == 4 ==> FromBytes(s + tail) == FromBytes(s)
  {
  }
}

// StringWrapper: `String(bytes)` and `toByteArray()`. The platform charset
// is replaced by a one-byte-per-character mapping (ISO 8859-1), which keeps
// the byte length of a text equal to its character count.
module StringWrapper {
  import opened Bytes

  /** Characters that one byte can carry. */
  predicate IsByteText(t: string)
  {
    forall i :: 0 <= i < |t| ==> t[i] as int < 256
  }

  /** `fromBytes`: byte b becomes the character with code b. */
  function FromBytes(s: seq<Byte>): (t: string)
    ensures |t| == |s| && IsByteText(t)
    ensures forall i :: 0 <= i < |s| ==> t[i] as int == s[i]
  {
    if s == [] then [] else [s[0] as char] + FromBytes(s[1..])
  }

  /** `toBytes`: each character is written as the low byte of its code. */
  function ToBytes(t: string): (s: seq<Byte>)
    ensures |s| == |t|
    ensures forall i :: 0 <= i < |t| ==> s[i] == t[i] as int % 256
  {
    if t == [] then [] else [t[0] as int % 256] + ToBytes(t[1..])
  }

  /** Bytes survive a decode and re-encode; a text survives an encode and
      decode exactly when every character fits in one byte. */
  lemma {:induction false} RoundTrip(s: seq<Byte>, t: string)
    ensures ToBytes(FromBytes(s)) == s
    ensures FromBytes(ToBytes(t)) == t <==> IsByteText(t)
  {
    var u := FromBytes(ToBytes(t));
    if IsByteText(t) {
      assert forall i :: 0 <= i < |t| ==> u[i] == t[i];
    }
  }
}

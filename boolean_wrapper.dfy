// BooleanWrapper: any non-zero byte reads as true; true/false encode as one
// byte 1/0. There is no big-endian variant.
module BooleanWrapper {
  import opened Bytes

  /** `fromBytes`: true iff some byte is non-zero (false for empty input). */
  function FromBytes(s: seq<Byte>): (r: bool)
    ensures r <==> exists i :: 0 <= i < |s| && s[i] != 0
  {
    if s == [] then false
    else if s[0] != 0 then true
    else
      var rest := FromBytes(s[1..]);
      assert forall i :: 1 <= i < |s| ==> s[i] == s[1..][i - 1];
      rest
  }

  /** `toBytes` */
  function ToBytes(b: bool): (r: seq<Byte>)
    ensures |r| == 1 && (r[0] != 0 <==> b)
  {
    if b then [1] else [0]
  }

  lemma {:induction false} RoundTrip(b: bool)
    ensures FromBytes(ToBytes(b)) == b
    ensures ToBytes(true) == [1] && ToBytes(false) == [0]
  {
  }
}

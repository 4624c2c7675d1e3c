// Comparers.compareUUIDWithMask: a descriptor UUID is selected by a 32-digit
// mask in which '#' stands for any digit. The mask is turned into a regular
// expression ('#' becomes '.') matched case-insensitively against the UUID's
// 32 digits without dashes.
module Comparers {
  import opened Outcomes
  import opened Uuids

  /** ASCII lower-casing, as `Regex(…, IGNORE_CASE)` compares letters. */
  function AsciiLower(c: char): char
  {
    if 'A' <= c <= 'Z' then (c as int - 'A' as int + 'a' as int) as char else c
  }

  /** One pattern character against one digit: a wildcard matches anything,
      any other character matches itself ignoring case. */
  predicate CharMatches(m: char, c: char)
  {
    m == '#' || m == '.' || AsciiLower(m) == AsciiLower(c)
  }

  /** `regex.matches(s)`: the whole string, character by character. */
  predicate PatternMatches(mask: string, s: string)
  {
    |mask| == |s| && forall i :: 0 <= i < |s| ==> CharMatches(mask[i], s[i])
  }

  /** `compareUUIDWithMask`: a null mask never matches. */
  function CompareUuidWithMask(u: Uuid, mask: Option<string>): (r: bool)
    ensures r ==> mask.Some? && |mask.value| == 32
  {
    match mask
    case None => false
    case Some(m) =>
      ToStringShape(u);
      PatternMatches(m, RemoveDashes(ToString(u)))
  }

  predicate IsMaskChar(c: char)
  {
    '0' <= c <= '9' || 'a' <= c <= 'f' || 'A' <= c <= 'F' || c == '#'
  }

  /** For a mask over hexadecimal digits and '#', a UUID matches exactly when
      the mask has 32 characters and each non-'#' character equals the UUID's
      digit at that position, ignoring case. */
  lemma {:induction false} MatchesDigitwise(u: Uuid, m: string)
    requires forall i :: 0 <= i < |m| ==> IsMaskChar(m[i])
    ensures CompareUuidWithMask(u, Some(m)) <==>
      |m| == 32 && forall i :: 0 <= i < 32 ==> m[i] == '#' || AsciiLower(m[i]) == Hex32(u)[i]
  {
    ToStringShape(u);
    var h := Hex32(u);
    forall i | 0 <= i < 32
      ensures AsciiLower(h[i]) == h[i]
    {
      assert IsLowerHexDigit(h[i]);
    }
  }

  /** A mask of 32 '#' matches every UUID. */
  lemma {:induction false} AllWildcardsMatchEverything(u: Uuid)
    ensures CompareUuidWithMask(u, Some(seq(32, _ => '#')))
  {
    ToStringShape(u);
  }

  /** A mask without '#' selects at most one UUID. */
  lemma {:induction false} WildcardFreeMaskSelectsOne(u: Uuid, w: Uuid, m: string)
    requires forall i :: 0 <= i < |m| ==> IsMaskChar(m[i]) && m[i] != '#'
    requires CompareUuidWithMask(u, Some(m)) && CompareUuidWithMask(w, Some(m))
    ensures u == w
  {
    MatchesDigitwise(u, m);
    MatchesDigitwise(w, m);
    assert Hex32(u) == Hex32(w);
    Hex32Parses(u);
    Hex32Parses(w);
  }
}

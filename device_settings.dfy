// The descriptor-UUID mask field of the device settings screen: validating
// what the user typed, reformatting it as 8-4-4-4-12 groups, and choosing the
// mask that is saved.
module DeviceSettings {
  import opened Uuids
  import Comparers
  import Outcomes
  import DecimalDigits

  const MaskLength := 32
  const Wildcard := '#'

  /** `validateUUID`: 1..32 characters over hexadecimal digits and '#', not
      all of them '#'. */
  predicate ValidateUuid(s: string)
  {
    1 <= |s| <= MaskLength
    && (forall i :: 0 <= i < |s| ==> Comparers.IsMaskChar(s[i]))
    && (exists i :: 0 <= i < |s| && s[i] != Wildcard)
  }

  /** The characters `formatUUID` keeps: `isDigit()` (a decimal digit of any
      script), a-f, A-F and '#'. */
  predicate IsKept(c: char)
  {
    DecimalDigits.IsDigit(c) || 'a' <= c <= 'f' || 'A' <= c <= 'F' || c == '#'
  }

  /** Every mask character is kept, and a dash never is. */
  lemma {:induction false} KeptCharacters(c: char)
    ensures Comparers.IsMaskChar(c) ==> IsKept(c)
    ensures !IsKept('-')
  {
    if '0' <= c <= '9' {
      DecimalDigits.AsciiDigit(c);
    }
    DecimalDigits.NoDigitBelowZero('-');
  }

  /** Formatting keeps digits of other scripts, which validation refuses: an
      Arabic-Indic one survives `formatUUID` but fails `validateUUID`. */
  lemma {:induction false} FormatKeepsWhatValidationRefuses()
    ensures Sanitize("\U{0661}-a") == "\U{0661}a"
    ensures !ValidateUuid("\U{0661}a")
  {
    DecimalDigits.OtherScriptDigits();
    KeptCharacters('a');
    var s := "\U{0661}-a";
    assert s[1..] == "-a" && s[1..][1..] == "a" && "a"[1..] == [];
    assert !Comparers.IsMaskChar("\U{0661}a"[0]);
  }

  /** `input.filter { … }`: the kept characters in their original order. */
  function Sanitize(s: string): (r: string)
    ensures |r| <= |s|
    ensures forall i :: 0 <= i < |r| ==> IsKept(r[i])
  {
    if s == [] then []
    else (if IsKept(s[0]) then [s[0]] else []) + Sanitize(s[1..])
  }

  /** `padEnd(n, c)`: never truncates. */
  function PadEnd(s: string, n: nat, c: char): (r: string)
    ensures |r| == if |s| >= n then |s| else n
    ensures s <= r
    ensures forall i :: |s| <= i < |r| ==> r[i] == c
  {
    if |s| >= n then s else s + seq(n - |s|, _ => c)
  }

  /** The sanitized input padded with '#' to at least 32 characters. */
  function Padded(input: string): (p: string)
    ensures |p| >= MaskLength
  {
    PadEnd(Sanitize(input), MaskLength, Wildcard)
  }

  /** How many dashes `formatUUID` has emitted before copying index i of a
      string of at least 32 characters: one after each of 7, 11, 15, 19. */
  function DashesBefore(i: nat): nat
  {
    (if i > 7 then 1 else 0) + (if i > 11 then 1 else 0) + (if i > 15 then 1 else 0) + (if i > 19 then 1 else 0)
  }

  predicate IsGroupEnd(i: nat)
  {
    i == 7 || i == 11 || i == 15 || i == 19
  }

  /** `formatUUID` */
  method FormatUuid(input: string) returns (r: string)
    ensures r == Grouped(Padded(input))
  {
    var sanitized := Padded(input);
    ghost var g := Grouped(sanitized);
    r := [];
    var i := 0;
    while i < |sanitized|
      invariant 0 <= i <= |sanitized|
      invariant r == g[..i + DashesBefore(i)]
    {
      GroupedAt(sanitized, i);
      assert g[..i + DashesBefore(i) + 1] == r + [sanitized[i]];
      r := r + [sanitized[i]];
      if (i == 7 || i == 11 || i == 15 || i == 19) && i != |sanitized| - 1 {
        assert g[..i + DashesBefore(i) + 2] == r + "-";
        r := r + "-";
      }
      i := i + 1;
    }
    assert g[..i + DashesBefore(i)] == g;
  }

  /** Where each character of p lands in the grouped text, and that a dash
      follows the end of each of the first four groups. */
  lemma {:induction false} GroupedAt(p: string, i: nat)
    requires |p| >= 20 && i < |p|
    ensures i + DashesBefore(i) < |Grouped(p)|
    ensures Grouped(p)[i + DashesBefore(i)] == p[i]
    ensures IsGroupEnd(i) ==> Grouped(p)[i + DashesBefore(i) + 1] == '-'
  {
    var g := Grouped(p);
    var a, b, c, d, e := p[..8], p[8..12], p[12..16], p[16..20], p[20..];
    assert g == a + "-" + b + "-" + c + "-" + d + "-" + e;
    if i < 8 {
      assert g[i] == a[i];
    } else if i < 12 {
      assert g[i + 1] == b[i - 8];
    } else if i < 16 {
      assert g[i + 2] == c[i - 12];
    } else if i < 20 {
      assert g[i + 3] == d[i - 16];
    } else {
      assert g[i + 4] == e[i - 20];
    }
  }

  /** Taking the dashes out of the formatted text gives back the padded
      sanitized input. */
  lemma {:induction false} FormatDropsOnlyDashes(input: string)
    ensures RemoveDashes(Grouped(Padded(input))) == Padded(input)
  {
    var p := Padded(input);
    assert forall i :: 0 <= i < |Sanitize(input)| ==> p[i] == Sanitize(input)[i];
    KeptCharacters('-');
    assert forall i :: 0 <= i < |p| ==> p[i] != '-';
    GroupedDropsDashes(p);
  }

  /** Sanitizing a string made of kept characters and dashes removes exactly
      the dashes. */
  lemma {:induction false} SanitizeDropsDashes(s: string)
    requires forall i :: 0 <= i < |s| ==> IsKept(s[i]) || s[i] == '-'
    ensures Sanitize(s) == RemoveDashes(s)
  {
    if s != [] {
      KeptCharacters(s[0]);
      SanitizeDropsDashes(s[1..]);
    }
  }

  /** Pasting a printed UUID into the field reformats it to the same text. */
  lemma {:induction false} FormatsPrintedUuid(u: Uuid)
    ensures Padded(ToString(u)) == Hex32(u)
    ensures Grouped(Padded(ToString(u))) == ToString(u)
  {
    ToStringShape(u);
    var s := ToString(u);
    forall i | 0 <= i < |s| ensures IsKept(s[i]) || s[i] == '-' {
      if i !in {8, 13, 18, 23} {
        var h := Hex32(u);
        var k := if i < 8 then i else if i < 13 then i - 1 else if i < 18 then i - 2 else if i < 23 then i - 3 else i - 4;
        assert s[i] == h[k];
        assert IsLowerHexDigit(h[k]);
        KeptCharacters(s[i]);
      }
    }
    SanitizeDropsDashes(s);
  }

  /** `saveDeviceDetails`: a valid input is stored padded to 32 with '#';
      otherwise the stored mask is kept. */
  function SavedMask(input: string, stored: string): (r: string)
    ensures ValidateUuid(input) ==> |r| == MaskLength && (forall i :: 0 <= i < |r| ==> Comparers.IsMaskChar(r[i]))
  {
    if ValidateUuid(input) then PadEnd(input, MaskLength, Wildcard) else stored
  }

  /** A saved mask constrains exactly the digits the user typed: a UUID matches
      it when each typed non-'#' character equals its digit ignoring case. */
  lemma {:induction false} SavedMaskMatches(u: Uuid, input: string, stored: string)
    requires ValidateUuid(input)
    ensures Comparers.CompareUuidWithMask(u, Outcomes.Some(SavedMask(input, stored))) <==>
      forall i :: 0 <= i < |input| ==> input[i] == Wildcard || Comparers.AsciiLower(input[i]) == Hex32(u)[i]
  {
    var m := SavedMask(input, stored);
    Comparers.MatchesDigitwise(u, m);
    assert forall i :: 0 <= i < |input| ==> m[i] == input[i];
  }
}

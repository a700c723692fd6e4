/** The narrow slice of the ramsey/uuid library the identifier core relies on:
    string validation, the node field of a UUID string, and UUID objects seen
    only through their `toString()`. */
module Uuid {

  predicate IsHexDigit(c: char) {
    '0' <= c <= '9' || 'a' <= c <= 'f' || 'A' <= c <= 'F'
  }

  predicate IsLowerHexDigit(c: char) {
    '0' <= c <= '9' || 'a' <= c <= 'f'
  }

  /** Positions of the four hyphens in the 8-4-4-4-12 layout. */
  predicate IsHyphenPosition(i: int) {
    i == 8 || i == 13 || i == 18 || i == 23
  }

  /** `Uuid::isValid`: the string layout of section 3 of RFC 4122, hexadecimal
      digits of either case separated by hyphens after 8, 4, 4 and 4 digits. */
  predicate IsValid(s: string): (r: bool)
    ensures r ==> |s| == 36 && forall i | 0 <= i < |s| :: IsHexDigit(s[i]) || s[i] == '-'
  {
    |s| == 36 &&
    forall i | 0 <= i < 36 :: if IsHyphenPosition(i) then s[i] == '-' else IsHexDigit(s[i])
  }

  /** The form `UuidInterface::toString()` produces: valid and lower-case. */
  predicate IsCanonical(s: string) {
    IsValid(s) && forall i | 0 <= i < 36 :: !IsHyphenPosition(i) ==> IsLowerHexDigit(s[i])
  }

  const NilUuid: string := "00000000-0000-0000-0000-000000000000"

  /** A `UuidInterface` object, of which the core only ever asks `toString()`. */
  datatype UuidObject = UuidObject(text: string)

  /** The library only hands out objects whose string form is canonical. */
  type RawUuid = u: UuidObject | IsCanonical(u.text) witness UuidObject(NilUuid)

  /** `substr($s, 24)`: everything after the fourth hyphen, or the empty string
      when the input is no longer than 24 characters. */
  function NodeOf(s: string): (node: string)
    ensures |s| <= 24 ==> node == ""
    ensures |s| > 24 ==> |node| == |s| - 24 && s[..24] + node == s
  {
    if |s| <= 24 then "" else s[24..]
  }

  /** For a valid UUID string the suffix is exactly the 12-digit node field
      (section 4.1.2 of RFC 4122). */
  lemma NodeOfValid(s: string)
    requires IsValid(s)
    ensures |NodeOf(s)| == 12
    ensures forall i | 0 <= i < 12 :: IsHexDigit(NodeOf(s)[i])
  {
    forall i | 0 <= i < 12 ensures IsHexDigit(NodeOf(s)[i]) {
      assert NodeOf(s)[i] == s[24 + i];
      assert !IsHyphenPosition(24 + i);
    }
  }
}

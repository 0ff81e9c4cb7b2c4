/**
  The two string operations the search box relies on: `String.prototype.toLowerCase`
  and `String.prototype.includes`.
 */
module Text {

  /**
    Lower-cases one character: the ASCII capitals and the Latin-1 capitals
    U+00C0..U+00DE (except the multiplication sign U+00D7), which cover the
    accented letters and the Ñ of Spanish text.
   */
  function LowerChar(c: char): (l: char)
    ensures IsUpper(c) ==> l as int == c as int + 32 && !IsUpper(l)
    ensures !IsUpper(c) ==> l == c
  {
    if IsUpper(c) then (c as int + 32) as char else c
  }

  predicate IsUpper(c: char) {
    ('A' <= c <= 'Z') || ('\U{C0}' <= c <= '\U{DE}' && c != '\U{D7}')
  }

  /**
    `s.toLowerCase()`: the same length, no capital left, every other character
    kept in place and every capital replaced by its small letter, 32 code points on.
   */
  function Lower(s: string): (r: string)
    ensures |r| == |s|
    ensures forall i :: 0 <= i < |r| ==> !IsUpper(r[i])
    ensures forall i :: 0 <= i < |s| && !IsUpper(s[i]) ==> r[i] == s[i]
    ensures forall i :: 0 <= i < |s| && IsUpper(s[i]) ==> r[i] as int == s[i] as int + 32
  {
    seq(|s|, i requires 0 <= i < |s| => LowerChar(s[i]))
  }

  /** Lower-casing twice is lower-casing once. */
  lemma LowerIdempotent(s: string)
    ensures Lower(Lower(s)) == Lower(s)
  {
  }

  /** `Lower` leaves no capital behind. */
  lemma LowerHasNoCapitals(s: string)
    ensures forall i :: 0 <= i < |Lower(s)| ==> !IsUpper(Lower(s)[i])
  {
  }

  /** `needle` occurs in `s` starting at index `i`. */
  predicate OccursAt(s: string, needle: string, i: int) {
    0 <= i && i + |needle| <= |s| && s[i..i + |needle|] == needle
  }

  /** Whether `needle` occurs in `s` at some index `j >= i`. */
  function IncludesFrom(s: string, needle: string, i: nat): (b: bool)
    ensures b <==> exists j :: i <= j && OccursAt(s, needle, j)
    decreases |s| - i
  {
    if i + |needle| > |s| then
      assert forall j :: i <= j ==> !OccursAt(s, needle, j);
      false
    else if s[i..i + |needle|] == needle then
      assert OccursAt(s, needle, i);
      true
    else
      var rest := IncludesFrom(s, needle, i + 1);
      assert forall j :: i <= j && OccursAt(s, needle, j) ==> j == i || i + 1 <= j;
      rest
  }

  /** `s.includes(needle)`. */
  function Includes(s: string, needle: string): (b: bool)
    ensures b <==> exists j :: OccursAt(s, needle, j)
  {
    IncludesFrom(s, needle, 0)
  }

  /** Every string includes the empty string. */
  lemma IncludesEmpty(s: string)
    ensures Includes(s, [])
  {
    assert OccursAt(s, [], 0);
  }

  /** A needle longer than the text is never found. */
  lemma IncludesLonger(s: string, needle: string)
    requires |needle| > |s|
    ensures !Includes(s, needle)
  {
  }
}

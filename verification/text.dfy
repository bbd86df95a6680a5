/** The two string primitives the field rules rely on: Python's substring test
    `keyword in title` and the regular expression `\d{10}` applied with `re.fullmatch`. */
module Text {

  /** A decimal digit, as `\d` matches it (restricted to ASCII '0'..'9'). */
  predicate IsDigit(c: char) {
    '0' <= c <= '9'
  }

  /** `s` is made of decimal digits only. */
  ghost predicate AllDigits(s: string) {
    forall i :: 0 <= i < |s| ==> IsDigit(s[i])
  }

  /** `needle` occurs in `s` starting at index `i`. */
  ghost predicate OccursAt(needle: string, s: string, i: int) {
    0 <= i && i + |needle| <= |s| && s[i..i + |needle|] == needle
  }

  /** Reference definition of a substring: `needle` occurs somewhere in `s`. */
  ghost predicate Occurs(needle: string, s: string) {
    exists i :: OccursAt(needle, s, i)
  }

  /** Python's `needle in s` for two strings, decided by trying every start position from
      left to right. */
  function Contains(needle: string, s: string): (found: bool)
    ensures found <==> Occurs(needle, s)
    decreases |s|
  {
    if |s| < |needle| then
      assert forall i :: !OccursAt(needle, s, i);
      false
    else if s[..|needle|] == needle then
      assert OccursAt(needle, s, 0);
      true
    else
      var rest := Contains(needle, s[1..]);
      ShiftOccurrence(needle, s);
      rest
  }

  /** When `needle` does not start `s`, it occurs in `s` exactly when it occurs in `s[1..]`. */
  lemma ShiftOccurrence(needle: string, s: string)
    requires |needle| <= |s| && s[..|needle|] != needle
    ensures Occurs(needle, s) <==> Occurs(needle, s[1..])
  {
    if Occurs(needle, s) {
      var i :| OccursAt(needle, s, i);
      assert i != 0;
      assert s[1..][i - 1..i - 1 + |needle|] == s[i..i + |needle|];
      assert OccursAt(needle, s[1..], i - 1);
    }
    if Occurs(needle, s[1..]) {
      var j :| OccursAt(needle, s[1..], j);
      assert s[j + 1..j + 1 + |needle|] == s[1..][j..j + |needle|];
      assert OccursAt(needle, s, j + 1);
    }
  }

  /** `re.fullmatch(r'\d{n}', s)`: the quantifier consumes one digit at a time, `n` times,
      and the match must end exactly at the end of `s`. */
  function FullMatchDigits(s: string, n: nat): (matched: bool)
    ensures matched <==> |s| == n && AllDigits(s)
    decreases n
  {
    if n == 0 then s == []
    else if s == [] || !IsDigit(s[0]) then false
    else
      var rest := FullMatchDigits(s[1..], n - 1);
      assert AllDigits(s) <==> AllDigits(s[1..]) by {
        assert forall i :: 0 < i < |s| ==> s[i] == s[1..][i - 1];
      }
      rest
  }

  /** A string in which a non-empty `needle` occurs contains the needle's first character. */
  lemma FirstCharOccurs(needle: string, s: string)
    requires |needle| > 0 && Occurs(needle, s)
    ensures needle[0] in s
  {
  }
}

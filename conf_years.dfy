/**
 * Conference-year keys such as `osdi2024`: the pattern of letters then
 * four digits that several scripts use to split a key into its
 * conference letters and its four year digits. As with Python's regular
 * expressions, the end of the pattern also matches just before one final
 * line break.
 */
module ConfYears {
  import opened Wrappers
  import opened Strings

  predicate Letters(s: string)
  {
    |s| > 0 && forall i :: 0 <= i < |s| ==> IsAsciiLetter(s[i])
  }

  predicate FourDigits(s: string)
  {
    |s| == 4 && forall i :: 0 <= i < 4 ==> IsDigit(s[i])
  }

  /** The key without one final line break. */
  function Body(s: string): (b: string)
    ensures b <= s
  {
    if |s| > 0 && s[|s| - 1] == '\n' then s[..|s| - 1] else s
  }

  /** The letters and the year digits of a key, or `None` when it does not match. */
  function SplitConfYear(s: string): (r: Option<(string, string)>)
    ensures r.Some? ==> Letters(r.value.0) && FourDigits(r.value.1) && Body(s) == r.value.0 + r.value.1
  {
    var b := Body(s);
    if |b| >= 5 && Letters(b[..|b| - 4]) && FourDigits(b[|b| - 4..]) then Some((b[..|b| - 4], b[|b| - 4..]))
    else None
  }

  /** Every key made of letters and four digits is split back into them, with or without a final line break. */
  lemma SplitJoined(letters: string, digits: string, newline: bool)
    requires Letters(letters) && FourDigits(digits)
    ensures SplitConfYear(letters + digits + (if newline then "\n" else "")) == Some((letters, digits))
  {
    var s := letters + digits + (if newline then "\n" else "");
    assert Body(s) == letters + digits;
    var b := letters + digits;
    assert b[..|b| - 4] == letters && b[|b| - 4..] == digits;
  }

  /** A split key is exactly its letters followed by its digits. */
  lemma SplitUnique(s: string)
    requires SplitConfYear(s).Some?
    ensures var (l, d) := SplitConfYear(s).value; s == l + d || s == l + d + "\n"
  {
  }
}

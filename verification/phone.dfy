/** Phone-number normalisation applied to the `phone` column after the
    spreadsheet is read: a number that does not already carry the
    international `+` prefix gets one. Nothing else is validated. */
module Phone {

  /** Python's `s.startswith('+')`: false for the empty string. */
  predicate HasPlus(s: string) {
    |s| > 0 && s[0] == '+'
  }

  /** `t` ends with `s`. */
  predicate EndsWith(t: string, s: string) {
    |s| <= |t| && t[|t| - |s|..] == s
  }

  /** The normalised number starts with `+`, still ends with the whole
      input, is at most one character longer, and leaves a number that
      already had the prefix alone. */
  function Normalize(s: string): (r: string)
    ensures HasPlus(r)
    ensures EndsWith(r, s)
    ensures |r| <= |s| + 1
    ensures HasPlus(s) ==> r == s
  {
    if HasPlus(s) then s else "+" + s
  }

  /** A number without the prefix becomes exactly `"+"` followed by the
      untouched input, and grows by one character. */
  lemma NormalizeAddsPrefix(s: string)
    requires !HasPlus(s)
    ensures |Normalize(s)| == |s| + 1
    ensures Normalize(s) == "+" + s
  {
  }

  /** Normalising twice is normalising once. */
  lemma NormalizeIdempotent(s: string)
    ensures Normalize(Normalize(s)) == Normalize(s)
  {
  }

  /** An independent description of the result: it is the unique
      shortest `+`-prefixed string that ends with the input. */
  lemma NormalizeIsShortestPlusExtension(s: string, t: string)
    requires HasPlus(t) && EndsWith(t, s)
    ensures |Normalize(s)| <= |t|
    ensures |t| == |Normalize(s)| ==> t == Normalize(s)
  {
  }
}

/** String helpers of `UtilityClass` and the culture-invariant lower-casing
    that every case-insensitive comparison in the model goes through. */
module Utility {
  import opened Wrappers

  /** `IsNullOrEmpty`: the string is `null` or has length zero. */
  predicate IsNullOrEmpty(s: Option<string>) {
    s.None? || |s.value| == 0
  }

  /** `IsNotNullOrEmpty`: the string is present and has at least one character. */
  predicate IsNotNullOrEmpty(s: Option<string>) {
    s.Some? && |s.value| > 0
  }

  /** The two helpers are exact complements. */
  lemma NotNullOrEmptyIsComplement(s: Option<string>)
    ensures IsNotNullOrEmpty(s) <==> !IsNullOrEmpty(s)
  {
  }

  /** The cases the unit tests assert, for both helpers. */
  lemma NullOrEmptyCases()
    ensures IsNullOrEmpty(None) && !IsNotNullOrEmpty(None)
    ensures IsNullOrEmpty(Some("")) && !IsNotNullOrEmpty(Some(""))
    ensures !IsNullOrEmpty(Some("test")) && IsNotNullOrEmpty(Some("test"))
  {
  }

  /** Upper-case letters the invariant fold knows: ASCII A-Z and the Latin-1
      capitals U+00C0..U+00DE except the multiplication sign U+00D7. */
  predicate IsUpper(c: char) {
    ('A' <= c <= 'Z') || ('\U{C0}' <= c <= '\U{DE}' && c != '\U{D7}')
  }

  /** Lower-cases one character without consulting any locale. */
  function FoldChar(c: char): (d: char)
    ensures IsUpper(c) ==> d as int == c as int + 32
    ensures !IsUpper(c) ==> d == c
    ensures !IsUpper(d)
  {
    if IsUpper(c) then (c as int + 32) as char else c
  }

  /** `ToLower(CultureInfo.InvariantCulture)`: folds every character and keeps the length. */
  function ToLowerInvariant(s: string): (r: string)
    ensures |r| == |s|
    ensures forall i :: 0 <= i < |s| ==> r[i] == FoldChar(s[i])
  {
    if |s| == 0 then "" else [FoldChar(s[0])] + ToLowerInvariant(s[1..])
  }

  /** Folding twice is folding once. */
  lemma ToLowerInvariantIdempotent(s: string)
    ensures ToLowerInvariant(ToLowerInvariant(s)) == ToLowerInvariant(s)
  {
  }

  /** Character-by-character case-insensitive equality, the way a comparer
      walks two strings; it agrees with comparing the folded strings. */
  function EqualsIgnoreCase(a: string, b: string): (r: bool)
    ensures r <==> ToLowerInvariant(a) == ToLowerInvariant(b)
  {
    |a| == |b| && (|a| == 0 || (FoldChar(a[0]) == FoldChar(b[0]) && EqualsIgnoreCase(a[1..], b[1..])))
  }

  /** Case-insensitive equality is an equivalence relation. */
  lemma EqualsIgnoreCaseIsEquivalence(a: string, b: string, c: string)
    ensures EqualsIgnoreCase(a, a)
    ensures EqualsIgnoreCase(a, b) == EqualsIgnoreCase(b, a)
    ensures EqualsIgnoreCase(a, b) && EqualsIgnoreCase(b, c) ==> EqualsIgnoreCase(a, c)
  {
  }

  /** The display-name fallback chain: the first candidate that is neither
      `null` nor empty, or `fallback` when every candidate is. */
  function FirstNotNullOrEmpty(candidates: seq<Option<string>>, fallback: Option<string>): (r: Option<string>)
    ensures (forall i :: 0 <= i < |candidates| ==> IsNullOrEmpty(candidates[i])) ==> r == fallback
    ensures forall i :: (0 <= i < |candidates| && IsNotNullOrEmpty(candidates[i])
                         && forall j :: 0 <= j < i ==> IsNullOrEmpty(candidates[j])) ==> r == candidates[i]
  {
    if |candidates| == 0 then fallback
    else if IsNotNullOrEmpty(candidates[0]) then candidates[0]
    else FirstNotNullOrEmpty(candidates[1..], fallback)
  }
}

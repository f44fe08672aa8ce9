/**
 * The few pieces of java.lang.String and java.util.regex behaviour the command
 * line front end relies on: String.trim(), the regex class \s and the characters
 * the regex '.' refuses to match.
 */
module Text {

  /** The characters String.trim() strips from both ends: every char at or below U+0020. */
  predicate IsTrimmable(c: char) {
    c <= ' '
  }

  /** The regex class \s of java.util.regex (without UNICODE_CHARACTER_CLASS): [ \t\n\x0B\f\r]. */
  predicate IsRegexSpace(c: char) {
    c == ' ' || c == '\t' || c == '\n' || c == '\U{B}' || c == '\U{C}' || c == '\r'
  }

  /** The line terminators that the regex '.' does not match (no DOTALL, no UNIX_LINES). */
  predicate IsLineTerminator(c: char) {
    c == '\n' || c == '\r' || c == '\U{85}' || c == '\U{2028}' || c == '\U{2029}'
  }

  /** Every \s character is stripped by trim(). */
  lemma RegexSpaceIsTrimmable(c: char)
    requires IsRegexSpace(c)
    ensures IsTrimmable(c)
  {
  }

  /** Number of trimmable characters at the start of s. */
  function LeadingCount(s: string): (k: nat)
    ensures k <= |s|
    ensures forall i :: 0 <= i < k ==> IsTrimmable(s[i])
    ensures k < |s| ==> !IsTrimmable(s[k])
  {
    if s == [] || !IsTrimmable(s[0]) then 0 else 1 + LeadingCount(s[1..])
  }

  /** Number of trimmable characters at the end of s. */
  function TrailingCount(s: string): (k: nat)
    ensures k <= |s|
    ensures forall i :: |s| - k <= i < |s| ==> IsTrimmable(s[i])
    ensures k < |s| ==> !IsTrimmable(s[|s| - 1 - k])
  {
    if s == [] || !IsTrimmable(s[|s| - 1]) then 0 else 1 + TrailingCount(s[..|s| - 1])
  }

  /**
   * s[a..b] is what trim() may return: everything outside it is trimmable, and
   * when it is non-empty it neither starts nor ends with a trimmable character.
   */
  ghost predicate IsTrimSlice(s: string, a: nat, b: nat) {
    a <= b <= |s|
    && (forall i :: 0 <= i < a ==> IsTrimmable(s[i]))
    && (forall i :: b <= i < |s| ==> IsTrimmable(s[i]))
    && (a < b ==> !IsTrimmable(s[a]) && !IsTrimmable(s[b - 1]))
  }

  /** String.trim(): s without its leading and trailing characters at or below U+0020. */
  function Trim(s: string): (t: string)
    ensures IsTrimSlice(s, LeadingCount(s), LeadingCount(s) + |t|)
    ensures t == s[LeadingCount(s)..LeadingCount(s) + |t|]
  {
    var a := LeadingCount(s);
    var rest := s[a..];
    var t := rest[..|rest| - TrailingCount(rest)];
    TrimmedPart(s, a, TrailingCount(rest));
    SliceOfSuffix(s, a, |s| - TrailingCount(rest));
    t
  }

  /** Dropping the leading and then the trailing trimmable characters leaves a trim slice. */
  lemma TrimmedPart(s: string, a: nat, b: nat)
    requires a == LeadingCount(s) && b == TrailingCount(s[a..])
    ensures IsTrimSlice(s, a, |s| - b)
  {
    var rest := s[a..];
    var e := |s| - b;
    forall i | e <= i < |s|
      ensures IsTrimmable(s[i])
    {
      assert s[i] == rest[i - a];
    }
    if a < e {
      assert s[e - 1] == rest[|rest| - 1 - b];
    }
  }

  lemma SliceOfSuffix(s: string, a: nat, e: nat)
    requires a <= e <= |s|
    ensures s[a..][..e - a] == s[a..e]
  {
  }

  /** Trimming is fully determined: any trim slice of s is Trim(s). */
  lemma TrimSliceUnique(s: string, a: nat, b: nat)
    requires IsTrimSlice(s, a, b)
    ensures s[a..b] == Trim(s)
  {
    var t := Trim(s);
    var c := LeadingCount(s);
    if a < b {
      // s[a] is the first character above U+0020, and s[b - 1] the last one
      assert c == a;
      assert c + |t| == b;
    } else {
      // nothing in s is above U+0020
      assert t == [];
    }
  }

  /** A string that neither starts nor ends with a trimmable character is left as it is. */
  lemma TrimOfTrimmed(s: string)
    requires |s| > 0 ==> !IsTrimmable(s[0]) && !IsTrimmable(s[|s| - 1])
    ensures Trim(s) == s
  {
    assert IsTrimSlice(s, 0, |s|);
    TrimSliceUnique(s, 0, |s|);
    assert s[0..|s|] == s;
  }

  /** Trimming twice is trimming once. */
  lemma TrimIdempotent(s: string)
    ensures Trim(Trim(s)) == Trim(s)
  {
    TrimOfTrimmed(Trim(s));
  }

  /** Length of the longest leading run of characters outside \s (the greedy match of \S+). */
  function WordLength(s: string): (k: nat)
    ensures k <= |s|
    ensures forall i :: 0 <= i < k ==> !IsRegexSpace(s[i])
    ensures k < |s| ==> IsRegexSpace(s[k])
  {
    if s == [] || IsRegexSpace(s[0]) then 0 else 1 + WordLength(s[1..])
  }
}

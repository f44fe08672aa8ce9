/**
 * Author: a problem's author number, a string of at least three ASCII digits
 * (the regex \d{3,}). Construction fails with MESSAGE_CONSTRAINTS on anything else;
 * equality and toString are by the wrapped string.
 */
module Authors {
  import opened Wrappers

  const MESSAGE_CONSTRAINTS: string :=
    "Author numbers should only contain numbers, and it should be at least 3 digits long"

  /** The regex class \d of java.util.regex (without UNICODE_CHARACTER_CLASS): [0-9]. */
  predicate IsDigit(c: char) {
    '0' <= c <= '9'
  }

  /**
   * A matcher for \d{owed,} over the whole of s: it consumes one digit at a time and
   * counts down the repetitions still owed.
   */
  function MatchesDigits(s: string, owed: nat): (b: bool)
    ensures b <==> |s| >= owed && forall i :: 0 <= i < |s| ==> IsDigit(s[i])
  {
    if s == [] then owed == 0
    else IsDigit(s[0]) && MatchesDigits(s[1..], if owed == 0 then 0 else owed - 1)
  }

  /** isValidAuthor: the whole string matches \d{3,}. */
  function IsValidAuthor(test: string): (b: bool)
    ensures b <==> |test| >= 3 && forall i :: 0 <= i < |test| ==> IsDigit(test[i])
  {
    MatchesDigits(test, 3)
  }

  datatype AuthorValue = AuthorValue(value: string)

  /** Every Author that exists passed isValidAuthor when it was built. */
  type Author = a: AuthorValue | IsValidAuthor(a.value) witness AuthorValue("000")

  /** new Author(s): succeeds exactly on valid strings and then wraps s unchanged. */
  function NewAuthor(author: string): (r: Result<Author, string>)
    ensures r.Success? <==> IsValidAuthor(author)
    ensures r.Success? ==> r.value.value == author
    ensures r.Failure? ==> r.error == MESSAGE_CONSTRAINTS
  {
    if IsValidAuthor(author) then Success(AuthorValue(author)) else Failure(MESSAGE_CONSTRAINTS)
  }

  function ToString(a: Author): string {
    a.value
  }

  /** toString gives back exactly the string the Author was built from. */
  lemma ToStringRoundTrip(s: string)
    requires IsValidAuthor(s)
    ensures NewAuthor(s).Success? && ToString(NewAuthor(s).value) == s
  {
  }

  /** equals: two Authors are equal when their wrapped strings are. */
  function Equals(a: Author, other: Author): (r: bool)
    ensures r <==> a == other
  {
    a.value == other.value
  }

  /** Building from equal strings gives equal Authors, and from different strings different ones. */
  lemma NewAuthorInjective(s: string, t: string)
    requires IsValidAuthor(s) && IsValidAuthor(t)
    ensures Equals(NewAuthor(s).value, NewAuthor(t).value) <==> s == t
  {
  }

  lemma ExampleAuthors()
    ensures IsValidAuthor("123") && IsValidAuthor("0042")
    ensures !IsValidAuthor("12") && !IsValidAuthor("") && !IsValidAuthor("12a") && !IsValidAuthor("+123")
  {
    assert "12a"[2] == 'a';
    assert "+123"[0] == '+';
  }
}

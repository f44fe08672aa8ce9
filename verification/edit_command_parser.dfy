/**
 * The edit command's argument parser, as its tests pin it down: the text after the
 * word "edit" is split at the prefixes n/, a/, w/, d/ and t/ (each preceded by a
 * space); the text before the first prefix must be a positive index; each field
 * takes the last value given for it and is validated in the order name, author,
 * weblink, description, tags; all t/ values together form the tag set, and a
 * single empty t/ clears it; at least one field must be given.
 *
 * EditCommandParser, ArgumentTokenizer, ParserUtil and the validators of Name,
 * WebLink, Description and Tag are not part of this model. The tokenizer and the
 * index parser follow their usual behaviour; the four validators are a parameter;
 * the Author validator is the one of the Authors module.
 */
module EditParser {
  import opened Wrappers
  import opened Text
  import opened Entities
  import opened Authors

  //========== Prefixes and the tokenizer ==========

  datatype Prefix = PName | PAuthor | PWebLink | PDescription | PTag

  function PrefixText(p: Prefix): (r: string)
    ensures |r| == 2 && r[1] == '/'
  {
    match p
    case PName => "n/"
    case PAuthor => "a/"
    case PWebLink => "w/"
    case PDescription => "d/"
    case PTag => "t/"
  }

  /** The prefix whose text starts with c. */
  function PrefixOf(c: char): (r: Option<Prefix>)
    ensures r.Some? ==> PrefixText(r.value)[0] == c
  {
    if c == 'n' then Some(PName)
    else if c == 'a' then Some(PAuthor)
    else if c == 'w' then Some(PWebLink)
    else if c == 'd' then Some(PDescription)
    else if c == 't' then Some(PTag)
    else None
  }

  /** A prefix starts at position j of s when its text stands there right after a space. */
  function PrefixAt(s: string, j: nat): Option<Prefix> {
    if 1 <= j && j + 2 <= |s| && s[j - 1] == ' ' && s[j + 1] == '/' then PrefixOf(s[j]) else None
  }

  /** The first position at or after `from` where a prefix starts, or |s|. */
  function NextPrefix(s: string, from: nat): (q: nat)
    requires from <= |s|
    ensures from <= q <= |s|
    ensures q < |s| ==> PrefixAt(s, q).Some?
    ensures forall j :: from <= j < q ==> PrefixAt(s, j).None?
    decreases |s| - from
  {
    if from == |s| || PrefixAt(s, from).Some? then from else NextPrefix(s, from + 1)
  }

  /** A field given on the command line: its prefix and its trimmed value. */
  type Token = (Prefix, string)

  /** The prefixed values from position p on, each running up to the next prefix and trimmed. */
  function TokensFrom(s: string, p: nat): seq<Token>
    requires p <= |s| && (p < |s| ==> PrefixAt(s, p).Some?)
    decreases |s| - p
  {
    if p == |s| then []
    else
      var q := NextPrefix(s, p + 2);
      [(PrefixAt(s, p).value, Trim(s[p + 2..q]))] + TokensFrom(s, q)
  }

  /** ArgumentTokenizer.tokenize: the trimmed preamble and the prefixed values in input order. */
  datatype ArgumentMultimap = ArgumentMultimap(preamble: string, tokens: seq<Token>)

  function Tokenize(args: string): ArgumentMultimap {
    var first := NextPrefix(args, 0);
    ArgumentMultimap(Trim(args[..first]), TokensFrom(args, first))
  }

  /** getValue: the last value given for p. */
  function LastValue(tokens: seq<Token>, p: Prefix): (r: Option<string>)
    ensures r.None? <==> forall i :: 0 <= i < |tokens| ==> tokens[i].0 != p
    ensures r.Some? ==> exists i :: 0 <= i < |tokens| && tokens[i] == (p, r.value) &&
                                    forall j :: i < j < |tokens| ==> tokens[j].0 != p
    decreases |tokens|
  {
    if tokens == [] then None
    else if tokens[|tokens| - 1].0 == p then Some(tokens[|tokens| - 1].1)
    else
      var r := LastValue(tokens[..|tokens| - 1], p);
      LastValueStep(tokens, p, r);
      r
  }

  /** A last token without p leaves the last value of p where the earlier tokens put it. */
  lemma LastValueStep(tokens: seq<Token>, p: Prefix, r: Option<string>)
    requires tokens != [] && tokens[|tokens| - 1].0 != p
    requires var init := tokens[..|tokens| - 1];
      && (r.None? <==> forall i :: 0 <= i < |init| ==> init[i].0 != p)
      && (r.Some? ==> exists i :: 0 <= i < |init| && init[i] == (p, r.value) &&
                                  forall j :: i < j < |init| ==> init[j].0 != p)
    ensures r.None? <==> forall i :: 0 <= i < |tokens| ==> tokens[i].0 != p
    ensures r.Some? ==> exists i :: 0 <= i < |tokens| && tokens[i] == (p, r.value) &&
                                    forall j :: i < j < |tokens| ==> tokens[j].0 != p
  {
    var init := tokens[..|tokens| - 1];
    assert forall i :: 0 <= i < |init| ==> init[i] == tokens[i];
    if r.Some? {
      var i :| 0 <= i < |init| && init[i] == (p, r.value) && forall j :: i < j < |init| ==> init[j].0 != p;
      assert tokens[i] == (p, r.value);
    }
  }

  /** getAllValues: every value given for p, in input order. */
  function AllValues(tokens: seq<Token>, p: Prefix): (r: seq<string>)
    ensures |r| <= |tokens|
    ensures forall i :: 0 <= i < |tokens| && tokens[i].0 == p ==> tokens[i].1 in r
    ensures forall x :: x in r ==> (p, x) in tokens
    decreases |tokens|
  {
    if tokens == [] then []
    else
      var rest := AllValues(tokens[1..], p);
      assert forall i :: 1 <= i < |tokens| ==> tokens[i] == tokens[1..][i - 1];
      if tokens[0].0 == p then [tokens[0].1] + rest else rest
  }

  //========== The index preamble ==========

  const INT_MAX: nat := 2147483647

  function DigitValue(c: char): nat
    requires IsDigit(c)
  {
    c as int - '0' as int
  }

  predicate AllDigits(s: string) {
    forall i :: 0 <= i < |s| ==> IsDigit(s[i])
  }

  /** The number a string of decimal digits denotes (Integer.parseInt on such a string). */
  function DecimalValue(s: string): nat
    requires AllDigits(s)
  {
    if s == [] then 0 else DecimalValue(s[..|s| - 1]) * 10 + DigitValue(s[|s| - 1])
  }

  /**
   * StringUtil.isNonZeroUnsignedInteger: Integer.parseInt accepts the string, the
   * value is positive and there is no leading '+'. A leading '-' gives a value of
   * at most zero, so the accepted strings are the non-empty digit strings whose
   * value lies in 1..Integer.MAX_VALUE.
   */
  predicate IsNonZeroUnsignedInteger(s: string) {
    |s| > 0 && AllDigits(s) && 0 < DecimalValue(s) <= INT_MAX
  }

  /** ParserUtil.parseIndex: the trimmed text as a one-based index. */
  function ParseIndex(oneBasedIndex: string): (r: Option<Index>)
    ensures r.Some? ==> var t := Trim(oneBasedIndex);
      |t| > 0 && AllDigits(t) && r.value.OneBased() == DecimalValue(t) <= INT_MAX
    ensures r.None? ==> !IsNonZeroUnsignedInteger(Trim(oneBasedIndex))
  {
    var trimmed := Trim(oneBasedIndex);
    if IsNonZeroUnsignedInteger(trimmed) then Some(Index(DecimalValue(trimmed) - 1)) else None
  }

  /** Integer.toString of a natural number. */
  function ToDecimal(n: nat): (s: string)
    ensures |s| > 0 && AllDigits(s)
    decreases n
  {
    var last := ['0' + ((n % 10) as char)];
    if n < 10 then last else ToDecimal(n / 10) + last
  }

  //========== Fields and validation ==========

  /** The validators of the fields whose classes are not part of this model. */
  datatype Validators = Validators(
    isValidName: string -> bool,
    isValidWebLink: string -> bool,
    isValidDescription: string -> bool,
    isValidTagName: string -> bool)

  datatype EditError =
    | InvalidCommandFormat
    | NameConstraints
    | AuthorConstraints
    | WebLinkConstraints
    | DescriptionConstraints
    | TagConstraints
    | NotEdited

  /** The edits the command will apply: a field left None is kept as it is. */
  datatype EditProblemDescriptor = EditProblemDescriptor(
    name: Option<string>,
    author: Option<Author>,
    weblink: Option<string>,
    description: Option<string>,
    tags: Option<set<Tag>>)

  datatype EditCommand = EditCommand(index: Index, descriptor: EditProblemDescriptor)

  /** isAnyFieldEdited. */
  predicate IsAnyFieldEdited(d: EditProblemDescriptor) {
    d.name.Some? || d.author.Some? || d.weblink.Some? || d.description.Some? || d.tags.Some?
  }

  /** The tag names parseTagsForEdit hands on: a single empty value stands for no tags. */
  function TagNamesForEdit(values: seq<string>): seq<string> {
    if |values| == 1 && values[0] == "" then [] else values
  }

  /** A scalar field is acceptable when it is absent or its last value passes its validator. */
  predicate ScalarValid(tokens: seq<Token>, p: Prefix, valid: string -> bool) {
    LastValue(tokens, p).None? || valid(LastValue(tokens, p).value)
  }

  predicate TagsValid(tokens: seq<Token>, v: Validators) {
    var names := TagNamesForEdit(AllValues(tokens, PTag));
    forall i :: 0 <= i < |names| ==> v.isValidTagName(names[i])
  }

  /** Whether the field of prefix p is acceptable. */
  predicate FieldValid(tokens: seq<Token>, p: Prefix, v: Validators) {
    match p
    case PName => ScalarValid(tokens, PName, v.isValidName)
    case PAuthor => ScalarValid(tokens, PAuthor, IsValidAuthor)
    case PWebLink => ScalarValid(tokens, PWebLink, v.isValidWebLink)
    case PDescription => ScalarValid(tokens, PDescription, v.isValidDescription)
    case PTag => TagsValid(tokens, v)
  }

  /** The position of each field in the order the parser checks them. */
  function Rank(p: Prefix): nat {
    match p
    case PName => 0
    case PAuthor => 1
    case PWebLink => 2
    case PDescription => 3
    case PTag => 4
  }

  function ConstraintError(p: Prefix): EditError {
    match p
    case PName => NameConstraints
    case PAuthor => AuthorConstraints
    case PWebLink => WebLinkConstraints
    case PDescription => DescriptionConstraints
    case PTag => TagConstraints
  }

  /** The fields part of EditCommandParser.parse, after the index has been read. */
  function ParseFields(tokens: seq<Token>, v: Validators): Result<EditProblemDescriptor, EditError> {
    var name := LastValue(tokens, PName);
    var author := LastValue(tokens, PAuthor);
    var weblink := LastValue(tokens, PWebLink);
    var description := LastValue(tokens, PDescription);
    var tagValues := AllValues(tokens, PTag);
    if !FieldValid(tokens, PName, v) then Failure(NameConstraints)
    else if !FieldValid(tokens, PAuthor, v) then Failure(AuthorConstraints)
    else if !FieldValid(tokens, PWebLink, v) then Failure(WebLinkConstraints)
    else if !FieldValid(tokens, PDescription, v) then Failure(DescriptionConstraints)
    else if !FieldValid(tokens, PTag, v) then Failure(TagConstraints)
    else
      var authorValue: Option<Author> := if author.Some? then Some(AuthorValue(author.value)) else None;
      var names := TagNamesForEdit(tagValues);
      var tags := if tagValues == [] then None else Some(set n | n in names :: Tag(n));
      var d := EditProblemDescriptor(name, authorValue, weblink, description, tags);
      if IsAnyFieldEdited(d) then Success(d) else Failure(NotEdited)
  }

  /** EditCommandParser.parse. */
  function ParseEdit(args: string, v: Validators): Result<EditCommand, EditError> {
    var m := Tokenize(args);
    match ParseIndex(m.preamble)
    case None => Failure(InvalidCommandFormat)
    case Some(index) =>
      match ParseFields(m.tokens, v)
      case Failure(e) => Failure(e)
      case Success(d) => Success(EditCommand(index, d))
  }

  //========== Rendering a command line ==========

  /** Neither end of s is stripped by trim(). */
  predicate IsTrimmed(s: string) {
    |s| == 0 || (!IsTrimmable(s[0]) && !IsTrimmable(s[|s| - 1]))
  }

  /** A value that survives tokenizing: trimmed, and without a prefix inside it. */
  predicate PlainValue(s: string) {
    IsTrimmed(s) && forall j: nat | j < |s| :: PrefixAt(s, j).None?
  }

  predicate AllPlain(tokens: seq<Token>) {
    forall i :: 0 <= i < |tokens| ==> PlainValue(tokens[i].1)
  }

  /** The text of prefixed values, each as a space, its prefix and its value. */
  function Join(tokens: seq<Token>): string {
    if tokens == [] then "" else " " + PrefixText(tokens[0].0) + tokens[0].1 + Join(tokens[1..])
  }

  /** A command line built from a preamble and prefixed values, as the tests build theirs. */
  function Render(preamble: string, tokens: seq<Token>): string {
    preamble + Join(tokens)
  }

  //========== The tokenizer inverts rendering ==========

  lemma PrefixTextShape(p: Prefix)
    ensures |PrefixText(p)| == 2 && PrefixText(p)[1] == '/' && PrefixOf(PrefixText(p)[0]) == Some(p)
  {
  }

  /** NextPrefix is the only position its contract describes. */
  lemma NextPrefixIs(s: string, from: nat, q: nat)
    requires from <= q <= |s|
    requires q < |s| ==> PrefixAt(s, q).Some?
    requires forall j :: from <= j < q ==> PrefixAt(s, j).None?
    ensures NextPrefix(s, from) == q
  {
  }

  /** The text t stands in s from position `from` on. */
  ghost predicate Holds(s: string, from: nat, t: string) {
    from + |t| <= |s| && forall i {:trigger t[i]} | 0 <= i < |t| :: s[from + i] == t[i]
  }

  lemma HoldsSplit(s: string, from: nat, x: string, y: string)
    requires Holds(s, from, x + y)
    ensures Holds(s, from, x) && Holds(s, from + |x|, y)
  {
    forall i | 0 <= i < |x|
      ensures s[from + i] == x[i]
    {
      assert (x + y)[i] == x[i];
    }
    forall i | 0 <= i < |y|
      ensures s[from + |x| + i] == y[i]
    {
      assert (x + y)[|x| + i] == y[i];
    }
  }

  /** A trimmed value followed by nothing but trimmable characters trims to itself. */
  lemma TrimPadded(w: string, v: string)
    requires IsTrimmed(v) && |v| <= |w|
    requires forall i | 0 <= i < |v| :: w[i] == v[i]
    requires forall i | |v| <= i < |w| :: IsTrimmable(w[i])
    ensures Trim(w) == v
  {
    assert IsTrimSlice(w, 0, |v|);
    TrimSliceUnique(w, 0, |v|);
    assert w[0..|v|] == v;
  }

  /** One step of TokensFrom, up to the next prefix `end`. */
  lemma TokensFromUnfold(s: string, start: nat, end: nat)
    requires start < |s| && PrefixAt(s, start).Some?
    requires start + 2 <= end <= |s| && NextPrefix(s, start + 2) == end
    ensures TokensFrom(s, start) == [(PrefixAt(s, start).value, Trim(s[start + 2..end]))] + TokensFrom(s, end)
  {
  }

  /** A prefix, its trimmed value up to the next prefix, and the tokens from there on make the tokens from `start`. */
  lemma TokensFromStep(s: string, start: nat, p: Prefix, v: string, end: nat, rest: seq<Token>)
    requires start + 2 <= end <= |s| && PrefixAt(s, start) == Some(p)
    requires NextPrefix(s, start + 2) == end && Trim(s[start + 2..end]) == v
    requires end < |s| ==> PrefixAt(s, end).Some?
    requires TokensFrom(s, end) == rest
    ensures TokensFrom(s, start) == [(p, v)] + rest
  {
    TokensFromUnfold(s, start, end);
  }

  /**
   * Where s holds a plain value v from `start` on, at the start of s or right after
   * a '/', no prefix starts inside v, nor at the space that follows it when another
   * prefix comes next.
   */
  lemma NoPrefixInside(s: string, start: nat, v: string, more: bool)
    requires PlainValue(v) && Holds(s, start, v) && (start == 0 || s[start - 1] == '/')
    requires more ==> start + |v| + 3 <= |s| && s[start + |v|] == ' ' && s[start + |v| + 2] == '/'
    requires !more ==> start + |v| == |s|
    ensures forall j | start <= j < start + |v| + (if more then 1 else 0) :: PrefixAt(s, j).None?
  {
    var x := start + |v|;
    forall j | start <= j < x + (if more then 1 else 0)
      ensures PrefixAt(s, j).None?
    {
      var i := j - start;
      if i == 0 {
        assert start == 0 || s[j - 1] == '/';
      } else if i + 2 <= |v| {
        assert s[j - 1] == v[i - 1] && s[j] == v[i] && s[j + 1] == v[i + 1];
        assert PrefixAt(v, i).None?;
      } else if i < |v| {
        assert j + 1 == x;
      } else {
        assert s[j - 1] == v[|v| - 1];
      }
    }
  }

  /** A plain value at `start`, followed by the end of s or a space, trims back to itself. */
  lemma TrimValueAt(s: string, start: nat, v: string, end: nat)
    requires PlainValue(v) && Holds(s, start, v) && end <= |s|
    requires end == start + |v| || (end == start + |v| + 1 && s[start + |v|] == ' ')
    ensures Trim(s[start..end]) == v
  {
    var w := s[start..end];
    forall i | 0 <= i < |v|
      ensures w[i] == v[i]
    {
      assert w[i] == s[start + i];
    }
    TrimPadded(w, v);
  }

  /** The first rendered value, where s holds it from k - 1 on: its prefix, its text, and what follows. */
  lemma JoinHead(s: string, k: nat, p: Prefix, v: string, tail: string)
    requires 1 <= k && Holds(s, k - 1, " " + PrefixText(p) + v + tail)
    requires k - 1 + |" " + PrefixText(p) + v + tail| == |s|
    ensures PrefixAt(s, k) == Some(p) && s[k + 1] == '/' && Holds(s, k + 2, v)
    ensures Holds(s, k + 2 + |v|, tail) && k + 2 + |v| + |tail| == |s|
  {
    PrefixTextShape(p);
    var head := " " + PrefixText(p);
    HoldsSplit(s, k - 1, head + v, tail);
    HoldsSplit(s, k - 1, head, v);
    assert head[0] == ' ' && head[1] == PrefixText(p)[0] && head[2] == '/';
    assert s[k - 1] == head[0] && s[k] == head[1] && s[k + 1] == head[2];
  }

  /** Where s holds further rendered values from x on, the next prefix starts right after x. */
  lemma JoinNext(s: string, x: nat, rest: seq<Token>)
    requires rest != [] && Holds(s, x, Join(rest)) && x + |Join(rest)| == |s|
    ensures x + 3 <= |s| && s[x] == ' ' && s[x + 2] == '/' && PrefixAt(s, x + 1) == Some(rest[0].0)
  {
    var q := rest[0].0;
    var tail := Join(rest);
    PrefixTextShape(q);
    assert tail == " " + PrefixText(q) + rest[0].1 + Join(rest[1..]);
    assert tail[0] == ' ' && tail[1] == PrefixText(q)[0] && tail[2] == '/';
    assert s[x] == tail[0] && s[x + 1] == tail[1] && s[x + 2] == tail[2];
  }

  /** One rendered value, followed by the end of s or by the next prefix, runs up to that prefix. */
  lemma ValueStep(s: string, k: nat, v: string, more: bool, end: nat)
    requires PlainValue(v) && 1 <= k && Holds(s, k + 2, v) && s[k + 1] == '/'
    requires end == k + 2 + |v| + (if more then 1 else 0)
    requires more ==>
      end + 2 <= |s| && s[end - 1] == ' ' && s[end + 1] == '/' && PrefixAt(s, end).Some?
    requires !more ==> end == |s|
    ensures NextPrefix(s, k + 2) == end
  {
    NoPrefixInside(s, k + 2, v, more);
    NextPrefixIs(s, k + 2, end);
  }

  /**
   * The first rendered value of those s holds from k - 1 on: its prefix, where its
   * value ends, and the rendered values that follow it.
   */
  lemma FirstValueOfJoin(s: string, k: nat, toks: seq<Token>, next: nat)
    requires toks != [] && AllPlain(toks)
    requires 1 <= k && Holds(s, k - 1, Join(toks)) && k - 1 + |Join(toks)| == |s|
    requires next == k + 2 + |toks[0].1| + (if |toks| == 1 then 0 else 1)
    ensures PrefixAt(s, k) == Some(toks[0].0) && k + 2 <= next <= |s|
    ensures NextPrefix(s, k + 2) == next && Trim(s[k + 2..next]) == toks[0].1
    ensures |toks| == 1 ==> next == |s|
    ensures |toks| > 1 ==>
      next < |s| && PrefixAt(s, next).Some?
      && Holds(s, next - 1, Join(toks[1..])) && next - 1 + |Join(toks[1..])| == |s|
  {
    var p, v, rest := toks[0].0, toks[0].1, toks[1..];
    assert Join(toks) == " " + PrefixText(p) + v + Join(rest);
    JoinHead(s, k, p, v, Join(rest));
    assert PlainValue(v);
    var x := k + 2 + |v|;
    if rest == [] {
      ValueStep(s, k, v, false, x);
    } else {
      JoinNext(s, x, rest);
      ValueStep(s, k, v, true, x + 1);
    }
    TrimValueAt(s, k + 2, v, next);
  }

  /** Where s holds rendered prefixed values from k - 1 to its end, TokensFrom(s, k) gives them back. */
  lemma {:induction false} TokensOfJoin(s: string, k: nat, toks: seq<Token>)
    requires toks != [] && AllPlain(toks)
    requires 1 <= k && Holds(s, k - 1, Join(toks)) && k - 1 + |Join(toks)| == |s|
    ensures PrefixAt(s, k).Some? && TokensFrom(s, k) == toks
    decreases |toks|
  {
    var p, v, rest := toks[0].0, toks[0].1, toks[1..];
    var next := k + 2 + |v| + (if |toks| == 1 then 0 else 1);
    FirstValueOfJoin(s, k, toks, next);
    assert toks == [(p, v)] + rest;
    if rest == [] {
      assert TokensFrom(s, next) == rest;
    } else {
      TokensOfJoin(s, next, rest);
    }
    TokensFromStep(s, k, p, v, next, rest);
  }

  /** The preamble: no prefix starts before the one that follows it ... */
  lemma PreambleNext(s: string, preamble: string, more: bool)
    requires PlainValue(preamble) && Holds(s, 0, preamble)
    requires more ==>
      |preamble| + 3 <= |s| && s[|preamble|] == ' ' && s[|preamble| + 2] == '/'
      && PrefixAt(s, |preamble| + 1).Some?
    requires !more ==> |preamble| == |s|
    ensures NextPrefix(s, 0) == |preamble| + (if more then 1 else 0)
  {
    NoPrefixInside(s, 0, preamble, more);
    NextPrefixIs(s, 0, |preamble| + (if more then 1 else 0));
  }

  /** ... and the text up to that prefix trims back to the plain preamble. */
  lemma PreambleTrim(s: string, preamble: string, first: nat)
    requires PlainValue(preamble) && Holds(s, 0, preamble) && first <= |s|
    requires first == |preamble| || (first == |preamble| + 1 && s[|preamble|] == ' ')
    ensures Trim(s[..first]) == preamble
  {
    var w := s[..first];
    forall i | 0 <= i < |preamble|
      ensures w[i] == preamble[i]
    {
      assert w[i] == s[0 + i];
    }
    TrimPadded(w, preamble);
  }

  /** Tokenize, from the position of the first prefix and what lies on either side of it. */
  lemma TokenizeIs(s: string, first: nat, preamble: string, toks: seq<Token>)
    requires first <= |s| && NextPrefix(s, 0) == first
    requires Trim(s[..first]) == preamble && TokensFrom(s, first) == toks
    ensures Tokenize(s) == ArgumentMultimap(preamble, toks)
  {
  }

  /**
   * Round trip of ArgumentTokenizer.tokenize: a command line rendered from a plain
   * preamble and plain prefixed values tokenizes back to that preamble and those
   * values, in order.
   */
  lemma TokenizeRender(preamble: string, toks: seq<Token>)
    requires PlainValue(preamble) && AllPlain(toks)
    ensures Tokenize(Render(preamble, toks)) == ArgumentMultimap(preamble, toks)
  {
    var s := Render(preamble, toks);
    var n := |preamble|;
    assert Holds(s, 0, preamble + Join(toks));
    HoldsSplit(s, 0, preamble, Join(toks));
    var first: nat;
    if toks == [] {
      first := n;
      PreambleNext(s, preamble, false);
      assert TokensFrom(s, first) == [];
    } else {
      first := n + 1;
      var head := " " + PrefixText(toks[0].0) + toks[0].1;
      assert Join(toks) == head + Join(toks[1..]);
      PrefixTextShape(toks[0].0);
      assert s[n] == head[0] && s[n + 2] == head[2];
      TokensOfJoin(s, first, toks);
      PreambleNext(s, preamble, true);
    }
    PreambleTrim(s, preamble, first);
    TokenizeIs(s, first, preamble, toks);
  }

  //========== The index ==========

  lemma {:induction false} DecimalValueOfToDecimal(n: nat)
    ensures DecimalValue(ToDecimal(n)) == n
    decreases n
  {
    var last := ['0' + ((n % 10) as char)];
    assert DigitValue(last[0]) == n % 10;
    if n >= 10 {
      DecimalValueOfToDecimal(n / 10);
      var s := ToDecimal(n);
      assert s == ToDecimal(n / 10) + last;
      assert s[..|s| - 1] == ToDecimal(n / 10);
    }
  }

  /** A digit string has no character trim() strips and no prefix inside it. */
  lemma DigitsArePlain(s: string)
    requires AllDigits(s)
    ensures PlainValue(s) && Trim(s) == s
  {
    TrimPadded(s, s);
  }

  /** Index.getOneBased, written in decimal, parses back to the same index. */
  lemma ParseIndexOfDecimal(n: nat)
    requires 1 <= n <= INT_MAX
    ensures ParseIndex(ToDecimal(n)) == Some(Index(n - 1))
  {
    DecimalValueOfToDecimal(n);
    DigitsArePlain(ToDecimal(n));
  }

  /** The preambles of the invalid-preamble tests are not indices. */
  lemma RejectedPreambles()
    ensures ParseIndex("-5") == None && ParseIndex("0") == None
    ensures ParseIndex("1 some random string") == None && ParseIndex("1 i/ string") == None
  {
    TrimPadded("-5", "-5");
    assert !IsDigit("-5"[0]);
    DigitsArePlain("0");
    assert DecimalValue("0") == DecimalValue("") * 10 + 0;
    TrimPadded("1 some random string", "1 some random string");
    assert !IsDigit("1 some random string"[1]);
    TrimPadded("1 i/ string", "1 i/ string");
    assert !IsDigit("1 i/ string"[1]);
  }

  //========== The fields ==========

  /** The fields are checked in order name, author, weblink, description, tags; the first invalid one is reported. */
  lemma FirstInvalidFieldIsReported(tokens: seq<Token>, v: Validators, p: Prefix)
    ensures ParseFields(tokens, v) == Failure(ConstraintError(p)) <==>
      !FieldValid(tokens, p, v) && forall q :: Rank(q) < Rank(p) ==> FieldValid(tokens, q, v)
  {
    if !FieldValid(tokens, p, v) && forall q :: Rank(q) < Rank(p) ==> FieldValid(tokens, q, v) {
      assert Rank(PName) == 0 && Rank(PAuthor) == 1 && Rank(PWebLink) == 2 && Rank(PDescription) == 3;
    }
  }

  /** The command is rejected as not editing anything exactly when no prefixed value is given. */
  lemma NotEditedIffNoFields(tokens: seq<Token>, v: Validators)
    ensures ParseFields(tokens, v) == Failure(NotEdited) <==> tokens == []
    ensures ParseFields(tokens, v).Success? <==> tokens != [] && forall q :: FieldValid(tokens, q, v)
  {
    if tokens != [] {
      var q := tokens[0].0;
      if q == PTag {
        assert tokens[0].1 in AllValues(tokens, PTag);
      } else {
        assert LastValue(tokens, q).Some?;
      }
    }
  }

  /** Every t/ value becomes a tag, unless the only one is empty, which stands for no tags. */
  lemma TagsAccumulate(tokens: seq<Token>, v: Validators, name: string)
    requires ParseFields(tokens, v).Success?
    ensures var tags := ParseFields(tokens, v).value.tags;
      (tags.Some? <==> exists x :: (PTag, x) in tokens)
      && (tags.Some? && AllValues(tokens, PTag) != [""] ==> (Tag(name) in tags.value <==> (PTag, name) in tokens))
      && (AllValues(tokens, PTag) == [""] ==> tags == Some({}))
  {
    var values := AllValues(tokens, PTag);
    if exists x :: (PTag, x) in tokens {
      var x :| (PTag, x) in tokens;
      var i :| 0 <= i < |tokens| && tokens[i] == (PTag, x);
      assert x in values;
    }
    if values != [] {
      assert (PTag, values[0]) in tokens;
    }
    if values != [""] && (PTag, name) in tokens {
      var i :| 0 <= i < |tokens| && tokens[i] == (PTag, name);
      assert name in values;
    }
    if values == [""] {
      var names := TagNamesForEdit(values);
      assert names == [];
      assert ParseFields(tokens, v).value.tags == Some(set n | n in names :: Tag(n));
      assert (set n | n in names :: Tag(n)) == {};
    }
  }

  /** A lone empty t/ clears the tags, provided the other fields are valid. */
  lemma EmptyTagResets(tokens: seq<Token>, v: Validators)
    requires AllValues(tokens, PTag) == [""]
    requires forall q :: q != PTag ==> FieldValid(tokens, q, v)
    ensures ParseFields(tokens, v).Success? && ParseFields(tokens, v).value.tags == Some({})
  {
    assert FieldValid(tokens, PTag, v);
    assert (PTag, "") in tokens;
    NotEditedIffNoFields(tokens, v);
    TagsAccumulate(tokens, v, "");
  }

  /** An empty t/ together with other t/ values is an invalid tag, since the empty name is not one. */
  lemma EmptyTagAmongOthersFails(tokens: seq<Token>, v: Validators)
    requires "" in AllValues(tokens, PTag) && |AllValues(tokens, PTag)| >= 2
    requires !v.isValidTagName("")
    requires forall q :: q != PTag ==> FieldValid(tokens, q, v)
    ensures ParseFields(tokens, v) == Failure(TagConstraints)
  {
    var values := AllValues(tokens, PTag);
    var i :| 0 <= i < |values| && values[i] == "";
    assert TagNamesForEdit(values) == values;
    assert !v.isValidTagName(TagNamesForEdit(values)[i]);
    assert !FieldValid(tokens, PTag, v);
    FirstInvalidFieldIsReported(tokens, v, PTag);
  }

  lemma {:induction false} AllValuesConcat(a: seq<Token>, b: seq<Token>, p: Prefix)
    ensures AllValues(a + b, p) == AllValues(a, p) + AllValues(b, p)
    decreases |a|
  {
    if a == [] {
      assert a + b == b;
    } else {
      assert (a + b)[1..] == a[1..] + b;
      AllValuesConcat(a[1..], b, p);
    }
  }

  /** One step of LastValue, from the end. */
  lemma LastValueUnfold(tokens: seq<Token>, p: Prefix)
    requires tokens != []
    ensures LastValue(tokens, p) ==
      if tokens[|tokens| - 1].0 == p then Some(tokens[|tokens| - 1].1) else LastValue(tokens[..|tokens| - 1], p)
  {
  }

  lemma {:induction false} LastValueConcat(a: seq<Token>, b: seq<Token>, p: Prefix)
    ensures LastValue(a + b, p) == if LastValue(b, p).Some? then LastValue(b, p) else LastValue(a, p)
    decreases |b|
  {
    if b == [] {
      assert a + b == a;
    } else {
      var ab := a + b;
      var init := b[..|b| - 1];
      assert ab[|ab| - 1] == b[|b| - 1];
      assert ab[..|ab| - 1] == a + init;
      LastValueUnfold(ab, p);
      LastValueUnfold(b, p);
      LastValueConcat(a, init, p);
    }
  }

  /** The parse of the fields depends only on the last scalar values and on the t/ values. */
  lemma SameValuesSameFields(t1: seq<Token>, t2: seq<Token>, v: Validators)
    requires forall q :: q != PTag ==> LastValue(t1, q) == LastValue(t2, q)
    requires AllValues(t1, PTag) == AllValues(t2, PTag)
    ensures ParseFields(t1, v) == ParseFields(t2, v)
  {
    assert LastValue(t1, PName) == LastValue(t2, PName);
    assert LastValue(t1, PAuthor) == LastValue(t2, PAuthor);
    assert LastValue(t1, PWebLink) == LastValue(t2, PWebLink);
    assert LastValue(t1, PDescription) == LastValue(t2, PDescription);
    assert FieldValid(t1, PName, v) == FieldValid(t2, PName, v);
    assert FieldValid(t1, PAuthor, v) == FieldValid(t2, PAuthor, v);
    assert FieldValid(t1, PWebLink, v) == FieldValid(t2, PWebLink, v);
    assert FieldValid(t1, PDescription, v) == FieldValid(t2, PDescription, v);
    assert FieldValid(t1, PTag, v) == FieldValid(t2, PTag, v);
  }

  lemma LastValueSkips(a: seq<Token>, p: Prefix, x: string, b: seq<Token>, q: Prefix)
    requires exists j :: 0 <= j < |b| && b[j].0 == p
    ensures LastValue(a + [(p, x)] + b, q) == LastValue(a + b, q)
  {
    LastValueConcat(a + [(p, x)], b, q);
    LastValueConcat(a, b, q);
    LastValueConcat(a, [(p, x)], q);
  }

  /**
   * Only the last value given for a name, author, weblink or description counts:
   * dropping an earlier one, valid or not, changes nothing.
   */
  lemma EarlierValueIsIgnored(a: seq<Token>, p: Prefix, x: string, b: seq<Token>, v: Validators)
    requires p != PTag && exists j :: 0 <= j < |b| && b[j].0 == p
    ensures ParseFields(a + [(p, x)] + b, v) == ParseFields(a + b, v)
  {
    forall q | q != PTag
      ensures LastValue(a + [(p, x)] + b, q) == LastValue(a + b, q)
    {
      LastValueSkips(a, p, x, b, q);
    }
    AllValuesConcat(a + [(p, x)], b, PTag);
    AllValuesConcat(a, [(p, x)], PTag);
    AllValuesConcat(a, b, PTag);
    assert AllValues([(p, x)], PTag) == [];
    SameValuesSameFields(a + [(p, x)] + b, a + b, v);
  }

  //========== The whole command line ==========

  /**
   * EditCommandParser.parse on a command line rendered from a plain preamble and
   * plain values: the preamble alone decides whether the format is invalid; a valid
   * preamble gives the index, and the values give the descriptor or the error.
   */
  lemma ParseEditRendered(preamble: string, toks: seq<Token>, v: Validators)
    requires PlainValue(preamble) && AllPlain(toks)
    ensures var r := ParseEdit(Render(preamble, toks), v);
      (r == Failure(InvalidCommandFormat) <==> !IsNonZeroUnsignedInteger(preamble))
      && (r.Success? ==>
            r.value.index.OneBased() == DecimalValue(preamble) && Success(r.value.descriptor) == ParseFields(toks, v))
      && (IsNonZeroUnsignedInteger(preamble) && r.Failure? ==> Failure(r.error) == ParseFields(toks, v))
  {
    TokenizeRender(preamble, toks);
    TrimPadded(preamble, preamble);
  }

  /** An empty command line has no index. */
  lemma EmptyInputIsInvalid(v: Validators)
    ensures ParseEdit("", v) == Failure(InvalidCommandFormat)
  {
    ParseEditRendered("", [], v);
    assert Render("", []) == "";
  }

  /** Integer.toString of a valid one-based index is a plain preamble denoting that index. */
  lemma DecimalIsIndexPreamble(n: nat)
    requires 1 <= n <= INT_MAX
    ensures PlainValue(ToDecimal(n)) && IsNonZeroUnsignedInteger(ToDecimal(n)) && DecimalValue(ToDecimal(n)) == n
  {
    DecimalValueOfToDecimal(n);
    DigitsArePlain(ToDecimal(n));
  }

  /** An index with no field edits nothing. */
  lemma IndexAloneIsNotEdited(n: nat, v: Validators)
    requires 1 <= n <= INT_MAX
    ensures ParseEdit(ToDecimal(n), v) == Failure(NotEdited)
  {
    var preamble := ToDecimal(n);
    DecimalIsIndexPreamble(n);
    ParseEditRendered(preamble, [], v);
    assert Render(preamble, []) == preamble;
    NotEditedIffNoFields([], v);
  }

  lemma LoneEmptyTagFields(v: Validators)
    ensures ParseFields([(PTag, "")], v) == Success(EditProblemDescriptor(None, None, None, None, Some({})))
  {
    var toks := [(PTag, "")];
    assert AllValues(toks, PTag) == [""];
    EmptyTagResets(toks, v);
  }

  lemma RenderLoneEmptyTag(preamble: string)
    ensures Render(preamble, [(PTag, "")]) == preamble + " t/"
  {
    assert Join([(PTag, "")]) == " " + "t/" + "" + Join([]);
  }

  /** An index followed by a lone "t/" edits that problem to have no tags. */
  lemma LoneEmptyTagClearsTags(n: nat, v: Validators)
    requires 1 <= n <= INT_MAX
    ensures ParseEdit(ToDecimal(n) + " t/", v)
      == Success(EditCommand(Index(n - 1), EditProblemDescriptor(None, None, None, None, Some({}))))
  {
    var preamble := ToDecimal(n);
    DecimalIsIndexPreamble(n);
    var toks := [(PTag, "")];
    RenderLoneEmptyTag(preamble);
    LoneEmptyTagFields(v);
    ParseEditRendered(preamble, toks, v);
    var r := ParseEdit(Render(preamble, toks), v);
    assert r.Success?;
    assert r.value.index == Index(n - 1);
  }
}

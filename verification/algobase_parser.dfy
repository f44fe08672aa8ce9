/**
 * AlgoBaseParser.parseCommand: trims the user's input, splits it with the pattern
 * (?<commandWord>\S+)(?<arguments>.*) and dispatches on the command word.
 *
 * The command parsers the switch hands the arguments to are not part of this model:
 * the result names the command kind and the argument text it would receive. The
 * commands built without a parser (list, listplan, clear, exit, listtag) are
 * results of their own. The usage text of the help command is a parameter.
 */
module Parser {
  import opened Wrappers
  import opened Text

  const MESSAGE_UNKNOWN_COMMAND: string := "Unknown command"
  /** MESSAGE_INVALID_COMMAND_FORMAT is "Invalid command format! \n%1$s", filled with a usage text. */
  const MESSAGE_INVALID_COMMAND_FORMAT_PREFIX: string := "Invalid command format! \n"

  /** One case of the switch each. */
  datatype CommandKind =
    | Add | Delete | Edit | Find | List | Sort
    | AddPlan | DeletePlan | EditPlan | FindPlan | ListPlan
    | AddTask | DeleteTask | DoneTask | UndoneTask
    | Clear | Exit | Help
    | AddTag | DeleteTag | ListTag | EditTag
    | SwitchTab | OpenTab

  /** The COMMAND_WORD constant of each command class. */
  function CommandWord(k: CommandKind): string {
    match k
    case Add => "add"
    case Delete => "delete"
    case Edit => "edit"
    case Find => "find"
    case List => "list"
    case Sort => "sort"
    case AddPlan => "addplan"
    case DeletePlan => "deleteplan"
    case EditPlan => "editplan"
    case FindPlan => "findplan"
    case ListPlan => "listplan"
    case AddTask => "addtask"
    case DeleteTask => "deletetask"
    case DoneTask => "donetask"
    case UndoneTask => "undonetask"
    case Clear => "clear"
    case Exit => "exit"
    case Help => "help"
    case AddTag => "addtag"
    case DeleteTag => "deletetag"
    case ListTag => "listtag"
    case EditTag => "edittag"
    case SwitchTab => "switchtab"
    case OpenTab => "opentab"
  }

  /** The switch on the command word: exact, case-sensitive string comparison. */
  function KindOf(word: string): Option<CommandKind> {
    match word
    case "add" => Some(Add)
    case "delete" => Some(Delete)
    case "edit" => Some(Edit)
    case "find" => Some(Find)
    case "list" => Some(List)
    case "sort" => Some(Sort)
    case "addplan" => Some(AddPlan)
    case "deleteplan" => Some(DeletePlan)
    case "editplan" => Some(EditPlan)
    case "findplan" => Some(FindPlan)
    case "listplan" => Some(ListPlan)
    case "addtask" => Some(AddTask)
    case "deletetask" => Some(DeleteTask)
    case "donetask" => Some(DoneTask)
    case "undonetask" => Some(UndoneTask)
    case "clear" => Some(Clear)
    case "exit" => Some(Exit)
    case "help" => Some(Help)
    case "addtag" => Some(AddTag)
    case "deletetag" => Some(DeleteTag)
    case "listtag" => Some(ListTag)
    case "edittag" => Some(EditTag)
    case "switchtab" => Some(SwitchTab)
    case "opentab" => Some(OpenTab)
    case _ => None
  }

  /** The commands the switch builds directly, dropping the arguments. */
  predicate IgnoresArguments(k: CommandKind) {
    k == List || k == ListPlan || k == Clear || k == Exit || k == ListTag
  }

  /** What parseCommand produces: a command built directly, or the arguments handed to a command parser. */
  datatype ParsedCommand =
    | Immediate(kind: CommandKind)
    | Delegated(kind: CommandKind, arguments: string)

  datatype ParseError = InvalidCommandFormat(usage: string) | UnknownCommand

  /** The ParseException's message. */
  function ErrorMessage(e: ParseError): string {
    match e
    case InvalidCommandFormat(usage) => MESSAGE_INVALID_COMMAND_FORMAT_PREFIX + usage
    case UnknownCommand => MESSAGE_UNKNOWN_COMMAND
  }

  /**
   * The pattern matches t split after k characters: \S+ takes t[..k] (at least one
   * character, none in \s) and .* takes t[k..] (no line terminator).
   */
  ghost predicate IsMatchAt(t: string, k: nat) {
    1 <= k <= |t|
    && (forall i :: 0 <= i < k ==> !IsRegexSpace(t[i]))
    && (forall i :: k <= i < |t| ==> !IsLineTerminator(t[i]))
  }

  /** No character of s is a line terminator. */
  function NoLineTerminator(s: string): (b: bool)
    ensures b <==> forall i :: 0 <= i < |s| ==> !IsLineTerminator(s[i])
  {
    if s == [] then true else !IsLineTerminator(s[0]) && NoLineTerminator(s[1..])
  }

  /**
   * Matcher.matches() followed by group(): the split the regex engine reports, if
   * any. The greedy \S+ first takes the whole leading word; giving characters back
   * only lengthens what .* must match, so the greedy split is tried first and is
   * the only one that can succeed when any does.
   */
  function Split(t: string): (r: Option<(string, string)>)
    ensures r.Some? <==> exists k :: IsMatchAt(t, k)
    ensures r.Some? ==> IsMatchAt(t, |r.value.0|) && r.value.0 + r.value.1 == t
    ensures r.Some? ==> forall k :: |r.value.0| < k <= |t| ==> !IsMatchAt(t, k)
  {
    var k := WordLength(t);
    if k == 0 || !NoLineTerminator(t[k..]) then
      assert forall j: nat :: !IsMatchAt(t, j) by {
        forall j: nat | IsMatchAt(t, j) ensures false {
          MatchIsAtWordLength(t, j);
        }
      }
      None
    else
      assert t[..k] + t[k..] == t;
      assert forall j: nat :: k < j <= |t| ==> !IsMatchAt(t, j) by {
        forall j: nat | k < j <= |t| && IsMatchAt(t, j) ensures false {
          MatchIsAtWordLength(t, j);
        }
      }
      assert IsMatchAt(t, k) by {
        forall i | k <= i < |t| ensures !IsLineTerminator(t[i]) {
          assert t[i] == t[k..][i - k];
        }
      }
      Some((t[..k], t[k..]))
  }

  /** parseCommand. */
  function ParseCommand(userInput: string, helpUsage: string): (r: Result<ParsedCommand, ParseError>)
  {
    match Split(Trim(userInput))
    case None => Failure(InvalidCommandFormat(helpUsage))
    case Some((commandWord, arguments)) =>
      match KindOf(commandWord)
      case None => Failure(UnknownCommand)
      case Some(k) => if IgnoresArguments(k) then Success(Immediate(k)) else Success(Delegated(k, arguments))
  }

  /** Every command word reaches its own case of the switch ... */
  lemma CommandWordReachesItsCase(k: CommandKind)
    ensures KindOf(CommandWord(k)) == Some(k)
  {
    match k
    case Add => {} case Delete => {} case Edit => {} case Find => {} case List => {} case Sort => {}
    case AddPlan => {} case DeletePlan => {} case EditPlan => {} case FindPlan => {} case ListPlan => {}
    case AddTask => {} case DeleteTask => {} case DoneTask => {} case UndoneTask => {}
    case Clear => {} case Exit => {} case Help => {}
    case AddTag => {} case DeleteTag => {} case ListTag => {} case EditTag => {}
    case SwitchTab => {} case OpenTab => {}
  }

  /** ... and a case is reached only by its own word. */
  lemma DispatchIsExact(k: CommandKind, word: string)
    ensures KindOf(CommandWord(k)) == Some(k)
    ensures KindOf(word) == Some(k) ==> word == CommandWord(k)
  {
    CommandWordReachesItsCase(k);
  }

  /** Different commands have different words. */
  lemma CommandWordsAreDistinct(k1: CommandKind, k2: CommandKind)
    requires k1 != k2
    ensures CommandWord(k1) != CommandWord(k2)
  {
    DispatchIsExact(k1, CommandWord(k2));
  }

  /** The greedy split is the one after the whole leading word. */
  lemma MatchIsAtWordLength(t: string, j: nat)
    requires IsMatchAt(t, j)
    ensures j <= WordLength(t) && IsMatchAt(t, WordLength(t))
  {
    var k := WordLength(t);
    assert j <= k;
    forall i | k <= i < |t| ensures !IsLineTerminator(t[i]) {
    }
  }

  /**
   * A successful parse took the trimmed input apart into the whole leading word and
   * the rest, which is empty or starts with a \s character; the kind is the one the
   * word names, and a command parser receives exactly the rest.
   */
  lemma ParsedInputIsWordThenArguments(userInput: string, helpUsage: string)
    requires ParseCommand(userInput, helpUsage).Success?
    ensures var t := Trim(userInput);
      var k := WordLength(t);
      1 <= k
      && KindOf(t[..k]) == Some(ParseCommand(userInput, helpUsage).value.kind)
      && (ParseCommand(userInput, helpUsage).value.Delegated? ==>
            t[..k] + ParseCommand(userInput, helpUsage).value.arguments == t)
      && (k < |t| ==> IsRegexSpace(t[k]))
  {
    var t := Trim(userInput);
    var word := Split(t).value.0;
    MatchIsAtWordLength(t, |word|);
  }

  /** A trimmed, non-empty text without a line break after its first word matches the pattern there. */
  lemma MatchAtWord(t: string)
    requires |t| > 0 && !IsTrimmable(t[0])
    requires forall i :: WordLength(t) <= i < |t| ==> !IsLineTerminator(t[i])
    ensures IsMatchAt(t, WordLength(t))
  {
    assert !IsRegexSpace(t[0]);
  }

  /** The input is refused as malformed exactly when the trimmed input is empty or has a line break after its first word. */
  lemma MalformedInput(userInput: string, helpUsage: string)
    ensures var t := Trim(userInput);
      ParseCommand(userInput, helpUsage) == Failure(InvalidCommandFormat(helpUsage))
      <==> |t| == 0 || exists i :: WordLength(t) <= i < |t| && IsLineTerminator(t[i])
  {
    var t := Trim(userInput);
    var k := WordLength(t);
    if |t| > 0 && forall i :: k <= i < |t| ==> !IsLineTerminator(t[i]) {
      MatchAtWord(t);
    }
    if Split(t).Some? {
      MatchIsAtWordLength(t, |Split(t).value.0|);
    }
  }

  /** The leading word of a word followed by nothing or by a \s character is that word. */
  lemma {:induction false} WordLengthOfWordThen(word: string, arguments: string)
    requires forall i :: 0 <= i < |word| ==> !IsRegexSpace(word[i])
    requires arguments == [] || IsRegexSpace(arguments[0])
    ensures WordLength(word + arguments) == |word|
    decreases |word|
  {
    var s := word + arguments;
    if word == [] {
      assert s == arguments;
    } else {
      assert s[0] == word[0];
      assert s[1..] == word[1..] + arguments;
      WordLengthOfWordThen(word[1..], arguments);
    }
  }

  /** A word followed by nothing, or by a \s character and no line break, is split right after the word. */
  lemma SplitWordThenArguments(word: string, arguments: string)
    requires |word| >= 1 && forall i :: 0 <= i < |word| ==> !IsRegexSpace(word[i])
    requires arguments == [] || IsRegexSpace(arguments[0])
    requires NoLineTerminator(arguments)
    ensures Split(word + arguments) == Some((word, arguments))
  {
    var s := word + arguments;
    var k := WordLength(s);
    WordLengthOfWordThen(word, arguments);
    assert s[..k] == word && s[k..] == arguments;
  }

  lemma WordThenArgumentsIsTrimmed(word: string, arguments: string)
    requires |word| >= 1 && !IsTrimmable(word[0])
    requires if arguments == [] then !IsTrimmable(word[|word| - 1]) else !IsTrimmable(arguments[|arguments| - 1])
    ensures Trim(word + arguments) == word + arguments
  {
    var s := word + arguments;
    assert s[0] == word[0];
    assert s[|s| - 1] == if arguments == [] then word[|word| - 1] else arguments[|arguments| - 1];
    TrimOfTrimmed(s);
  }

  /** parseCommand once the trimmed input is known to split into the word and the rest. */
  lemma ParseBySplit(userInput: string, word: string, arguments: string, helpUsage: string)
    requires Split(Trim(userInput)) == Some((word, arguments))
    ensures ParseCommand(userInput, helpUsage) ==
      match KindOf(word)
      case None => Failure(UnknownCommand)
      case Some(k) => if IgnoresArguments(k) then Success(Immediate(k)) else Success(Delegated(k, arguments))
  {
  }

  /**
   * Input that is already trimmed and made of a word and the rest (empty, or
   * starting with a \s character, without line breaks) parses by the word alone.
   */
  lemma ParseWordThenArguments(word: string, arguments: string, helpUsage: string)
    requires |word| >= 1 && !IsTrimmable(word[0])
    requires forall i :: 0 <= i < |word| ==> !IsRegexSpace(word[i])
    requires if arguments == [] then !IsTrimmable(word[|word| - 1])
      else IsRegexSpace(arguments[0]) && !IsTrimmable(arguments[|arguments| - 1])
    requires NoLineTerminator(arguments)
    ensures ParseCommand(word + arguments, helpUsage) ==
      match KindOf(word)
      case None => Failure(UnknownCommand)
      case Some(k) => if IgnoresArguments(k) then Success(Immediate(k)) else Success(Delegated(k, arguments))
  {
    var s := word + arguments;
    WordThenArgumentsIsTrimmed(word, arguments);
    SplitWordThenArguments(word, arguments);
    ParseBySplit(s, word, arguments, helpUsage);
  }

  /** An edittag line hands everything after the word, leading space included, to the edittag parser. */
  lemma EditTagLineIsDelegated()
    ensures ParseCommand("edittag" + " 1 t/Easy", "") == Success(Delegated(EditTag, " 1 t/Easy"))
  {
    assert KindOf("edittag") == Some(EditTag) by {
      assert "edittag"[0] == 'e' && "edittag"[1] == 'd' && "edittag"[4] == 't';
    }
    ParseWordThenArguments("edittag", " 1 t/Easy", "");
  }

  /** The switch compares words exactly: another letter case is unknown. */
  lemma WordsAreCaseSensitive()
    ensures ParseCommand("EDITTAG" + " 1 t/Easy", "") == Failure(UnknownCommand)
  {
    assert KindOf("EDITTAG") == None by {
      assert "EDITTAG"[0] == 'E';
    }
    ParseWordThenArguments("EDITTAG", " 1 t/Easy", "");
  }

  /** No case of the switch is the word deletefindrule, which is longer than every command word. */
  lemma DeleteFindRuleWordHasNoCase()
    ensures KindOf("deletefindrule") == None
  {
    var w := "deletefindrule";
    assert |w| == 14;
    forall k: CommandKind ensures |CommandWord(k)| <= 10 {
    }
    if KindOf(w).Some? {
      DispatchIsExact(KindOf(w).value, w);
      assert false;
    }
  }

  /** deletefindrule has no case in the switch: an input whose word it is never parses. */
  lemma DeleteFindRuleIsUnknown(userInput: string, helpUsage: string)
    requires var t := Trim(userInput); t[..WordLength(t)] == "deletefindrule"
    ensures ParseCommand(userInput, helpUsage).Failure?
    ensures var t := Trim(userInput);
      NoLineTerminator(t[WordLength(t)..]) ==> ParseCommand(userInput, helpUsage) == Failure(UnknownCommand)
  {
    var t := Trim(userInput);
    var k := WordLength(t);
    DeleteFindRuleWordHasNoCase();
    assert k == 14;
    match Split(t)
    case None =>
      assert !NoLineTerminator(t[k..]);
    case Some((word, arguments)) =>
      MatchIsAtWordLength(t, |word|);
      assert |word| == k;
      assert word == t[..k];
      assert ParseCommand(userInput, helpUsage) == Failure(UnknownCommand);
  }

  /** The commands built directly drop whatever follows their word. */
  lemma ImmediateCommandsDropArguments(userInput: string, helpUsage: string)
    requires ParseCommand(userInput, helpUsage).Success?
    ensures IgnoresArguments(ParseCommand(userInput, helpUsage).value.kind)
      <==> ParseCommand(userInput, helpUsage).value.Immediate?
  {
  }
}

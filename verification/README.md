# AlgoBase core in Dafny

AlgoBase is a desktop application for keeping a bank of programming problems. Each
problem has a name and a set of tags. The application also keeps tags, study plans
and saved find rules. The user drives it through a command line. This project
models the core of that application and proves what it promises.

- **ModelManager** (`model_manager.dfy`, class `Model.ModelManager`) is the single
  gateway to the data.
  - It holds the store as four sequences without duplicates: problems, tags, plans
    and find rules.
  - It keeps one filter predicate per list, the comparator of the sorted problem
    view, and the user prefs.
  - The `add*` operations reset their own filter to "show all". Delete and set leave
    every filter as it is.
  - Problems refer to tags by name. So `deleteTags` and `setTags` rewrite the tag
    sets of the problems the filter currently shows, and leave the others alone.
  - The two inner loops are methods in `tag_cascade.dfy`. They are proved against
    the set functions `WithoutTagNamed` and `RenamedTags`.
  - The class invariant `Valid()` says the store keeps its no-duplicates rule. Every
    mutating method preserves it.
- **EditTagCommand** (`edit_tag_command.dfy`) edits a tag in three steps:
  1. It checks the displayed index against the filtered tag list.
  2. It refuses a new name that another tag already has.
  3. The corrected cascade (see ## Findings): it replaces the tag in the store,
     renames it in every shown problem, and shows all tags again.

  Both checks come before any write.
- **DeleteFindRuleCommand** (`delete_find_rule_command.dfy`) does a bounds check on
  the filtered find-rule list, then deletes the rule shown at that position.
- **AlgoBaseParser.parseCommand** (`algobase_parser.dfy`) works in four steps:
  1. It trims the input with Java's `String.trim()`.
  2. It splits the result with the pattern `(?<commandWord>\S+)(?<arguments>.*)`.
  3. It dispatches on the command word by exact, case-sensitive match.
  4. Five commands are built directly and drop their arguments. The others hand the
     arguments on to a command parser.

  The word `deletefindrule` has no case in the switch, so that command cannot be
  reached from the command line (`Parser.DeleteFindRuleIsUnknown`).
- **The edit command's argument parser** (`edit_command_parser.dfy`) follows the
  contract its test class fixes:
  - the text is split at the prefixes `n/ a/ w/ d/ t/`;
  - the preamble must be a positive index;
  - the last value of a repeated field wins;
  - fields are validated in the order name, author, weblink, description, tags, and
    the first invalid one is reported;
  - tag values accumulate, and a lone empty `t/` clears the tags;
  - at least one field must be given.

  The tokenizer is proved to invert the way the tests build command lines
  (`EditParser.TokenizeRender`). Each test's assertion is then proved for every
  input of its shape.
- **Author, Plan and UserPrefs** are covered as follows:
  - `Author` is the validator `\d{3,}` with value equality.
  - `Plan` has a weak identity (`isSamePlan`, by name) and a strong equality (all
    five fields). Its `createUpdatedPlan` swaps only the task set.
  - `UserPrefs` is a two-field mutable class with null-refusing setters, `resetData`
    and a copy constructor.

Thrown exceptions are `Failure` results (module `Wrappers`). A `null` argument is
modelled only where the source's setters refuse it: UserPrefs' setters and
`resetData`, and ModelManager's `setUserPrefs`, `setGuiSettings` and
`setAlgoBaseFilePath`. There the argument is an `Option` or a nullable reference, and
`null` gives a `NullPointer` failure.

## Model

| member | source | states |
|---|---|---|
| Text.Trim | src/main/java/seedu/algobase/logic/parser/AlgoBaseParser.java:54 | trim() returns the slice of the input after the leading and before the trailing characters at or below U+0020; a non-empty result starts and ends above U+0020 |
| Text.TrimSliceUnique | src/main/java/seedu/algobase/logic/parser/AlgoBaseParser.java:54 | any slice with only trimmable characters outside it and non-trimmable ends is exactly trim()'s result |
| Text.TrimOfTrimmed | src/main/java/seedu/algobase/logic/parser/AlgoBaseParser.java:54 | a string with no trimmable character at either end is left unchanged by trim() |
| Text.TrimIdempotent | src/main/java/seedu/algobase/logic/parser/AlgoBaseParser.java:54 | trimming twice gives the same string as trimming once |
| Text.WordLength | src/main/java/seedu/algobase/logic/parser/AlgoBaseParser.java:44 | the greedy `\S+`: every character before the returned position is outside `\s`, and the one at it, if any, is in `\s` |
| Parser.Split | src/main/java/seedu/algobase/logic/parser/AlgoBaseParser.java:44 | the pattern matches the trimmed input exactly when some split point fits; the reported split fits, its two groups concatenate back to the input, and no longer command word would fit |
| Parser.MalformedInput | src/main/java/seedu/algobase/logic/parser/AlgoBaseParser.java:54-57 | parseCommand fails with the invalid-format error wrapping the help usage if and only if the trimmed input is empty or its text after the command word holds a line terminator |
| Parser.ParsedInputIsWordThenArguments | src/main/java/seedu/algobase/logic/parser/AlgoBaseParser.java:59-60 | on success the command word is the longest leading run of non-`\s` characters of the trimmed input, it selects the command kind, a delegated command receives the rest of the trimmed input, and that rest is empty or starts with `\s` |
| Parser.ParseWordThenArguments | src/main/java/seedu/algobase/logic/parser/AlgoBaseParser.java:53-141 | for any word of non-space characters followed by arguments that start with `\s` and hold no line terminator, parseCommand's result is fixed by the word's switch case alone: unknown command, an immediate command, or delegation of exactly those arguments |
| Parser.MatchIsAtWordLength | src/main/java/seedu/algobase/logic/parser/AlgoBaseParser.java:44 | any split that the pattern accepts is no longer than the maximal word, and the split at the maximal word is accepted too |
| Parser.CommandWordReachesItsCase | src/main/java/seedu/algobase/logic/parser/AlgoBaseParser.java:61-137 | every registered command word reaches its own case of the switch |
| Parser.DispatchIsExact | src/main/java/seedu/algobase/logic/parser/AlgoBaseParser.java:61-137 | a word selects a command kind only if it equals that kind's command word, and that word does select it |
| Parser.CommandWordsAreDistinct | src/main/java/seedu/algobase/logic/parser/AlgoBaseParser.java:61-137 | different command kinds have different words, so each registered word selects exactly one kind |
| Parser.WordsAreCaseSensitive | src/main/java/seedu/algobase/logic/parser/AlgoBaseParser.java:130-140 | `EDITTAG 1 t/Easy` is an unknown command: the match is case-sensitive |
| Parser.EditTagLineIsDelegated | src/main/java/seedu/algobase/logic/parser/AlgoBaseParser.java:130-131 | `edittag 1 t/Easy` hands ` 1 t/Easy` to the edit-tag parser |
| Parser.ImmediateCommandsDropArguments | src/main/java/seedu/algobase/logic/parser/AlgoBaseParser.java:76-128 | a successful parse builds its command directly (dropping the arguments) if and only if the word is list, listplan, clear, exit or listtag |
| Parser.DeleteFindRuleWordHasNoCase | src/main/java/seedu/algobase/logic/parser/AlgoBaseParser.java:61-140 | the word `deletefindrule` falls through to the default case |
| Parser.DeleteFindRuleIsUnknown | src/main/java/seedu/algobase/logic/parser/AlgoBaseParser.java:139-140 | any input whose command word is `deletefindrule` fails, and with no line terminator in its arguments it fails with the unknown-command error |
| EditParser.NextPrefix | src/test/java/seedu/algobase/logic/parser/EditCommandParserTest.java:108-119 | returns the first position at or after the start where a prefix (a space then `n/ a/ w/ d/ t/`) begins, with none before it, or the end of the text |
| EditParser.LastValue | src/test/java/seedu/algobase/logic/parser/EditCommandParserTest.java:168-181 | a prefix's value is absent exactly when the prefix never occurs; otherwise it is the value of an occurrence after which the prefix does not occur again |
| EditParser.AllValues | src/test/java/seedu/algobase/logic/parser/EditCommandParserTest.java:168-181 | every value given for the prefix is collected, and nothing else is |
| EditParser.ParseIndex | src/test/java/seedu/algobase/logic/parser/EditCommandParserTest.java:67-80 | an index is read exactly when the trimmed preamble is a non-empty digit string whose value lies in 1..2147483647; that value is the one-based index |
| EditParser.TokenizeRender | src/test/java/seedu/algobase/logic/parser/EditCommandParserTest.java:108-181 | tokenizing a command line built from a preamble and prefixed values (as the tests build them) gives back exactly that preamble and those values in order |
| EditParser.TokensOfJoin | src/test/java/seedu/algobase/logic/parser/EditCommandParserTest.java:108-181 | the prefixed part of such a command line tokenizes to exactly the values it was built from |
| EditParser.DecimalValueOfToDecimal | src/test/java/seedu/algobase/logic/parser/EditCommandParserTest.java:108-119 | reading back a number written in decimal gives the number |
| EditParser.ParseIndexOfDecimal | src/test/java/seedu/algobase/logic/parser/EditCommandParserTest.java:108-119 | the one-based index n written in decimal is read as the zero-based index n - 1, for every n in 1..2147483647 |
| EditParser.ParseEditRendered | src/test/java/seedu/algobase/logic/parser/EditCommandParserTest.java:55-80 | for a rendered command line: the invalid-format error occurs exactly when the preamble is not a positive index; on success the command carries that index and the parsed fields; any other failure is the field error |
| EditParser.EmptyInputIsInvalid | src/test/java/seedu/algobase/logic/parser/EditCommandParserTest.java:63-64 | the empty argument string fails with the invalid-format error |
| EditParser.IndexAloneIsNotEdited | src/test/java/seedu/algobase/logic/parser/EditCommandParserTest.java:60-61 | a valid index with no field fails with the not-edited error |
| EditParser.RejectedPreambles | src/test/java/seedu/algobase/logic/parser/EditCommandParserTest.java:67-80 | the preambles `-5`, `0`, `1 some random string` and `1 i/ string` are not indexes |
| EditParser.NotEditedIffNoFields | src/test/java/seedu/algobase/logic/parser/EditCommandParserTest.java:55-65 | the not-edited error occurs if and only if no prefixed value is given; parsing succeeds exactly when some value is given and every field is valid |
| EditParser.FirstInvalidFieldIsReported | src/test/java/seedu/algobase/logic/parser/EditCommandParserTest.java:82-106 | the error reported is a field's constraint error if and only if that field is invalid and every field earlier in the order name, author, weblink, description, tags is valid, whatever the argument order |
| EditParser.AllValuesConcat | src/test/java/seedu/algobase/logic/parser/EditCommandParserTest.java:168-181 | the values given for a prefix in two pieces of input are those of the first followed by those of the second |
| EditParser.LastValueConcat | src/test/java/seedu/algobase/logic/parser/EditCommandParserTest.java:168-199 | the last value over two pieces of input is the second piece's if it has one, else the first piece's |
| EditParser.LastValueSkips | src/test/java/seedu/algobase/logic/parser/EditCommandParserTest.java:183-199 | an occurrence of a prefix that occurs again later does not affect any prefix's last value |
| EditParser.SameValuesSameFields | src/test/java/seedu/algobase/logic/parser/EditCommandParserTest.java:168-199 | two inputs with the same last scalar values and the same tag values parse to the same result |
| EditParser.EarlierValueIsIgnored | src/test/java/seedu/algobase/logic/parser/EditCommandParserTest.java:183-199 | a scalar value followed later by another value for the same prefix does not change the parse, whether it was valid or invalid |
| EditParser.TagsAccumulate | src/test/java/seedu/algobase/logic/parser/EditCommandParserTest.java:168-181 | a successful parse edits the tags exactly when some `t/` is given; the tag set then holds exactly the given names, except that a lone empty `t/` gives the empty set |
| EditParser.EmptyTagResets | src/test/java/seedu/algobase/logic/parser/EditCommandParserTest.java:201-210 | a single empty `t/` with otherwise valid fields parses to an empty tag set |
| EditParser.EmptyTagAmongOthersFails | src/test/java/seedu/algobase/logic/parser/EditCommandParserTest.java:97-101 | an empty `t/` among two or more tag values fails with the tag constraint error when the other fields are valid |
| EditParser.LoneEmptyTagClearsTags | src/test/java/seedu/algobase/logic/parser/EditCommandParserTest.java:201-210 | `n t/` for any valid index n parses to an edit of that index whose only change is an empty tag set |
| Entities.Filter | src/main/java/seedu/algobase/model/ModelManager.java:49-50 | the filtered view holds only elements of the list that the predicate accepts, holds every such element, and repeats none more often than the list |
| Entities.FilterIsSubsequence | src/main/java/seedu/algobase/model/ModelManager.java:49-50 | the filtered view keeps the list's order: it is the list read at strictly increasing positions, the positions `KeptPositions` lists |
| Entities.KeptPositionsExact | src/main/java/seedu/algobase/model/ModelManager.java:49-50 | those positions are exactly the ones whose element the predicate accepts, so the filtered view is the list with the rejected elements left out |
| Entities.FilterShowAll | src/main/java/seedu/algobase/model/ModelManager.java:126-130 | under a predicate that accepts everything, the filtered view is the whole list in order |
| Entities.FilterDistinct | src/main/java/seedu/algobase/model/ModelManager.java:49-50 | filtering a list without duplicates gives a list without duplicates |
| Entities.SortBy | src/main/java/seedu/algobase/model/ModelManager.java:51 | the sorted view is a permutation of the filtered view |
| Entities.SortBySorted | src/main/java/seedu/algobase/model/ModelManager.java:159-163 | under a comparator that orders every pair, the sorted view is ordered by it |
| Entities.InsertSorted | src/main/java/seedu/algobase/model/ModelManager.java:159-163 | inserting into an ordered list keeps it ordered |
| Model.ModelManager.constructor | src/main/java/seedu/algobase/model/ModelManager.java:40-54 | the store is the given one, every list is shown in store order, and the prefs are a fresh copy equal to the given ones |
| Model.ModelManager.SetUserPrefs | src/main/java/seedu/algobase/model/ModelManager.java:62-66 | the held prefs become equal to the given ones; null is refused and changes nothing |
| Model.ModelManager.SetGuiSettings | src/main/java/seedu/algobase/model/ModelManager.java:78-82 | only the GUI settings change; null is refused |
| Model.ModelManager.SetAlgoBaseFilePath | src/main/java/seedu/algobase/model/ModelManager.java:89-93 | only the data file path changes; null is refused |
| Model.ModelManager.SetAlgoBase | src/main/java/seedu/algobase/model/ModelManager.java:103-106 | the store becomes the given data and every filter is kept |
| Model.ModelManager.DeleteProblem | src/main/java/seedu/algobase/model/ModelManager.java:121-124 | succeeds exactly when the problem is stored; it is then removed from its position and no longer stored; filters, tags, plans and find rules are unchanged |
| Model.ModelManager.AddProblem | src/main/java/seedu/algobase/model/ModelManager.java:126-130 | succeeds exactly when no problem of the same name is stored; it is then appended, the problem filter shows all, and the new problem is in the filtered view; a duplicate changes nothing |
| Model.ModelManager.SetProblem | src/main/java/seedu/algobase/model/ModelManager.java:132-136 | succeeds exactly when the target is stored and the edited problem keeps its name or takes an unused one; it then replaces the target in place; filters unchanged |
| Model.ModelManager.FilteredProblemList | src/main/java/seedu/algobase/model/ModelManager.java:142-145 | the exposed problem list holds exactly the stored problems the current predicate accepts, each as often as the filtered view; with no comparator set it is the filtered view in store order; with a comparator that orders every pair it is sorted by that comparator |
| Model.ModelManager.UpdateFilteredProblemList | src/main/java/seedu/algobase/model/ModelManager.java:147-151 | only the problem predicate changes |
| Model.ModelManager.UpdateSortedProblemList | src/main/java/seedu/algobase/model/ModelManager.java:159-163 | only the problem comparator changes |
| Model.ModelManager.DeleteTag | src/main/java/seedu/algobase/model/ModelManager.java:173-176 | succeeds exactly when the tag is stored; it is then removed; filters and problems unchanged |
| Model.ModelManager.DeleteTags | src/main/java/seedu/algobase/model/ModelManager.java:178-188 | the corrected cascade (see ## Findings): every problem the filter shows loses its tag named like the target; problems filtered out are unchanged; the store's lists and filters are kept |
| Model.ModelManager.AddTag | src/main/java/seedu/algobase/model/ModelManager.java:190-194 | succeeds exactly when no tag of the same name is stored; it is then appended and the tag filter shows all; a duplicate changes nothing |
| Model.ModelManager.AddTags | src/main/java/seedu/algobase/model/ModelManager.java:196-201 | repeated addTag: succeeds exactly when none of the tags is stored, and the stored tags then gain exactly the given set; it only appends; the tag filter shows all once anything was added |
| Model.ModelManager.SetTag | src/main/java/seedu/algobase/model/ModelManager.java:203-208 | succeeds exactly when the target is stored and the edited tag keeps its name or takes an unused one; it then replaces the target in place; filters unchanged |
| Model.ModelManager.SetTags | src/main/java/seedu/algobase/model/ModelManager.java:210-222 | the corrected cascade (see ## Findings): every problem the filter shows has its tag named like the target replaced by the edited tag; the others are unchanged; filters kept |
| Model.ModelManager.UpdateFilteredTagList | src/main/java/seedu/algobase/model/ModelManager.java:233-237 | only the tag predicate changes |
| Model.ModelManager.DeletePlan | src/main/java/seedu/algobase/model/ModelManager.java:247-250 | succeeds exactly when the plan is stored; it is then removed; filters unchanged |
| Model.ModelManager.AddPlan | src/main/java/seedu/algobase/model/ModelManager.java:252-256 | succeeds exactly when no plan of the same name is stored; it is then appended and the plan filter shows all, so the filtered plans are all plans |
| Model.ModelManager.SetPlan | src/main/java/seedu/algobase/model/ModelManager.java:258-263 | succeeds exactly when the target is stored and the edited plan is the same plan or takes an unused name; it then replaces the target in place; filters unchanged |
| Model.ModelManager.UpdateFilteredPlanList | src/main/java/seedu/algobase/model/ModelManager.java:273-277 | only the plan predicate changes |
| Model.ModelManager.DeleteFindRule | src/main/java/seedu/algobase/logic/commands/DeleteFindRuleCommand.java:39 | succeeds exactly when the rule is stored; it is then removed and no longer stored; filters and other lists unchanged |
| Model.AppendKeepsPlanNamesUnique | src/main/java/seedu/algobase/model/ModelManager.java:252-256 | appending a plan whose name is not taken keeps plan names unique |
| Model.StoredTagIsMember | src/main/java/seedu/algobase/model/ModelManager.java:167-171 | hasTag (some stored tag has the name) holds exactly when the tag is in the list |
| TagCascade.WithoutTagNamed | src/main/java/seedu/algobase/model/ModelManager.java:178-188 | the intended deletion: a subset of the tags with no tag of the name, keeping every tag of another name |
| TagCascade.RenamedTags | src/main/java/seedu/algobase/model/ModelManager.java:210-222 | the intended rename: when a tag has the name, the edited tag is in the result, nothing new besides it, and the old name is gone unless kept; otherwise nothing changes |
| TagCascade.TagNamedIsUnique | src/main/java/seedu/algobase/model/ModelManager.java:183 | a tag set holds a tag of a name exactly when it holds that tag, so the deletion removes exactly it |
| TagCascade.DeleteTagNamed | src/main/java/seedu/algobase/model/ModelManager.java:181-186 | deleteTags' inner loop over a snapshot computes WithoutTagNamed |
| TagCascade.RenameTagNamed | src/main/java/seedu/algobase/model/ModelManager.java:214-220 | setTags' inner loop, deleting before adding over a snapshot, computes RenamedTags |
| TagCascade.FirstNamed | src/main/java/seedu/algobase/model/ModelManager.java:182-183 | the first position from i on holding a tag of the name, with none before it, or the end |
| TagCascade.IterateDeletingOutcome | src/main/java/seedu/algobase/model/ModelManager.java:182-186 | the fail-fast loop finishes unchanged with no match, finishes having removed the match when it is visited last, and otherwise throws |
| TagCascade.DeleteAsWrittenCompletesOnlyWhenMatchIsLast | src/main/java/seedu/algobase/model/ModelManager.java:180-187 | the loop as written completes if and only if no tag before the last visited one has the name, and then its result is WithoutTagNamed |
| TagCascade.DeleteAsWrittenThrowsOnFirstOfTwo | src/main/java/seedu/algobase/model/ModelManager.java:180-187 | deleting a from tags visited as a, b throws, where the intended result is {b} |
| TagCascade.IterateRenamingOutcome | src/main/java/seedu/algobase/model/ModelManager.java:215-220 | the fail-fast rename loop (add the edited tag, then delete the match) finishes unchanged with no match, finishes with the edited tag in place of the match when the match is visited last, and otherwise throws |
| TagCascade.RenameAsWrittenCompletesOnlyWhenMatchIsLast | src/main/java/seedu/algobase/model/ModelManager.java:213-221 | setTags' loop as written completes if and only if no tag before the last visited one has the name; when it completes it gives RenamedTags if the name changes, and WithoutTagNamed (the tag is lost) if the name is kept |
| TagCascade.RenameAsWrittenThrowsOnFirstOfTwo | src/main/java/seedu/algobase/model/ModelManager.java:213-221 | renaming a to c in tags visited as a, b throws, where the intended result is {b, c} |
| TagCascade.AsWrittenRenameToSameNameDropsTag | src/main/java/seedu/algobase/model/ModelManager.java:216-218 | renaming the only tag x to x as written completes with no tag, where the intended rename keeps x |
| TagCascade.DeleteTagsClearsFilteredView | src/main/java/seedu/algobase/model/ModelManager.java:178-188 | after deleteTags no problem in the filtered view holds a tag of the target's name |
| TagCascade.CascadesKeepNamesAndHidden | src/main/java/seedu/algobase/model/ModelManager.java:180-213 | both cascades keep the number of problems and their names, leave filtered-out problems unchanged, and keep problem names unique |
| TagCascade.RenameTagUpdatesShown | src/main/java/seedu/algobase/model/ModelManager.java:210-222 | a shown problem that held the old name holds the edited tag and, when the name changed, not the old name; a shown problem without it is unchanged |
| EditTag.CreateEditedTag | src/main/java/seedu/algobase/logic/commands/EditTagCommand.java:74-80 | the edited tag carries the given name only, whatever the old tag; it is the same tag exactly when the name is kept |
| EditTag.Equals | src/main/java/seedu/algobase/logic/commands/EditTagCommand.java:82-98 | two commands are equal if and only if their index and name are equal; null is never equal |
| EditTag.Execute | src/main/java/seedu/algobase/logic/commands/EditTagCommand.java:46-67 | the corrected cascade (see ## Findings): an index past the shown tags fails with the invalid-index message and changes nothing; a new name another tag holds fails with the duplicate message and changes nothing; otherwise the tag is replaced in place, renamed in every shown problem, the tag filter shows all, and the message embeds the edited tag |
| EditTag.EditReplacesOnlyTheTag | src/main/java/seedu/algobase/logic/commands/EditTagCommand.java:62 | after the edit the tag list holds the edited tag, not the old one unless the name was kept, and every other tag stays where it was |
| DeleteFindRule.Equals | src/main/java/seedu/algobase/logic/commands/DeleteFindRuleCommand.java:43-48 | two commands are equal if and only if their target indices are equal |
| DeleteFindRule.Execute | src/main/java/seedu/algobase/logic/commands/DeleteFindRuleCommand.java:29-41 | an index past the shown find rules fails with the invalid-index message and changes nothing; otherwise the rule shown there is removed from the store (one fewer rule, that rule gone), nothing else changes, and the message embeds it |
| Authors.MatchesDigits | src/main/java/seedu/algobase/model/Problem/Author.java:15 | the matcher for `\d{n,}` accepts exactly the all-digit strings of length at least n |
| Authors.IsValidAuthor | src/main/java/seedu/algobase/model/Problem/Author.java:32-34 | valid if and only if at least 3 characters, all digits 0-9 |
| Authors.NewAuthor | src/main/java/seedu/algobase/model/Problem/Author.java:23-27 | construction succeeds exactly on valid strings and keeps the string; otherwise it fails with MESSAGE_CONSTRAINTS |
| Authors.ToStringRoundTrip | src/main/java/seedu/algobase/model/Problem/Author.java:37-39 | toString of an Author built from s is s |
| Authors.Equals | src/main/java/seedu/algobase/model/Problem/Author.java:41-46 | two Authors are equal if and only if their values are |
| Authors.NewAuthorInjective | src/main/java/seedu/algobase/model/Problem/Author.java:41-46 | Authors built from two valid strings are equal if and only if the strings are |
| Authors.ExampleAuthors | src/main/java/seedu/algobase/model/Problem/Author.java:15 | 123 and 0042 are valid; 12, the empty string, 12a and +123 are not |
| Plans.IsSamePlan | src/main/java/seedu/algobase/model/plan/Plan.java:89-96 | same plan if and only if the other plan is present and has an equal name |
| Plans.Equals | src/main/java/seedu/algobase/model/plan/Plan.java:102-118 | equal if and only if all five fields are equal |
| Plans.CreateUpdatedPlan | src/main/java/seedu/algobase/model/plan/Plan.java:50-59 | the result is the same plan, keeps description and dates, has exactly the given tasks, and equals the original exactly when the tasks are unchanged |
| Plans.SamePlanReflexive | src/main/java/seedu/algobase/model/plan/Plan.java:89-96 | every plan is the same plan as itself |
| Plans.SamePlanSymmetric | src/main/java/seedu/algobase/model/plan/Plan.java:89-96 | isSamePlan is symmetric |
| Plans.SamePlanTransitive | src/main/java/seedu/algobase/model/plan/Plan.java:89-96 | isSamePlan is transitive |
| Plans.EqualsImpliesSamePlan | src/main/java/seedu/algobase/model/plan/Plan.java:102-118 | equal plans are the same plan |
| Plans.SamePlanIsWeakerThanEquals | src/main/java/seedu/algobase/model/plan/Plan.java:85-118 | a plan with one more task is the same plan but not equal |
| Plans.CreateUpdatedPlanLastWins | src/main/java/seedu/algobase/model/plan/Plan.java:50-59 | updating twice keeps only the last task set; updating with the current tasks gives the same plan |
| Prefs.UserPrefs.constructor | src/main/java/seedu/algobase/model/UserPrefs.java:16-22 | default GUI settings and the path data/algobase.json |
| Prefs.UserPrefs.Copy | src/main/java/seedu/algobase/model/UserPrefs.java:27-30 | the copy equals the source, which is left unchanged |
| Prefs.UserPrefs.ResetData | src/main/java/seedu/algobase/model/UserPrefs.java:35-39 | both fields become the given prefs' values; null is refused and changes nothing |
| Prefs.UserPrefs.SetGuiSettings | src/main/java/seedu/algobase/model/UserPrefs.java:45-48 | overwrites the GUI settings only; null is refused |
| Prefs.UserPrefs.SetAlgoBaseFilePath | src/main/java/seedu/algobase/model/UserPrefs.java:54-57 | overwrites the data file path only; null is refused |
| Prefs.EqualsIsEquivalence | src/main/java/seedu/algobase/model/UserPrefs.java:59-72 | equals, comparing exactly the two fields, is reflexive, symmetric and transitive |
| Prefs.CopyIsIndependent | src/main/java/seedu/algobase/model/UserPrefs.java:27-30 | changing a copy's settings leaves the original's untouched |

## Left out

- The store class AlgoBase and its unique lists are not part of this model. Their
  usual behaviour is modelled inside ModelManager:
  - adding an entry that is the same as a stored one fails;
  - removing or replacing an absent entry fails;
  - replacing with an entry that collides with another entry fails.

  Failures are a `StoreError` result instead of an exception.
- Problem, Tag, FindRule (ProblemSearchRule) and Index are not part of this model:
  - a problem is a name with a set of tags;
  - a tag is its name;
  - a find rule is an opaque named value.

  A tag's text (`Tag.toString`) is taken to be its name in square brackets
  (`EditTag.TagText`, used in EditTagCommand's success message). A find rule's text
  is taken to be its name (used in DeleteFindRuleCommand's success message).

  A problem's `getTags()` is taken to be a view of its live tag set.
- ModelManager.java at this revision declares no `getFilteredFindRuleList` and no
  `deleteFindRule`. `Model.ModelManager.FilteredFindRules` and
  `Model.ModelManager.DeleteFindRule` follow the sibling plan and tag methods.
  Messages.java declares no `MESSAGE_INVALID_FIND_RULE_DISPLAYED_INDEX`, so its text
  follows its sibling messages.
- JavaFX's FilteredList and SortedList become functions of the current lists and
  predicates. Change notification to listeners, the GUI state and the task list
  view (`filteredTasks`) are left out. ModelManager's `equals` and its logging are
  left out too.
- The command classes other than EditTagCommand and DeleteFindRuleCommand are not
  part of this model. Their `COMMAND_WORD` values are their conventional lower-case
  spellings. Only `edittag` and `deletefindrule` are given.
- The command parsers that parseCommand delegates to are not part of this model. The
  result names the command kind and the argument text instead of a command object.
  HelpCommand's usage text is a parameter.
- EditCommandParser, ArgumentTokenizer, ParserUtil and the validators of Name,
  WebLink, Description and Tag are not part of this model:
  - the tokenizer and `parseIndex` follow their usual behaviour;
  - the four validators are a parameter;
  - Author's validator is the real one.
- Only the five prefixes the tests use are recognised. Other prefixes that
  CliSyntax.java declares (`diff/`, `r/`, `src/`) are plain text here.
- `\d` and `\s` are the ASCII classes. Unicode digits, case folding and encodings
  are left out.
- Plan's constructor copies the caller's task set, and `getTasks` returns a read-only
  view of it. A Dafny `set` is an immutable value, so both hold by construction and
  no member states them.
- Plan's dates are opaque integers, and Plan's `toString` formatting is left out.
  GuiSettings and Path are opaque values.
- Model.ModelManager.DeleteTags, Model.ModelManager.SetTags, EditTag.Execute: these
  carry the corrected cascade. The inner loop runs over a snapshot of each problem's
  tags, and the rename deletes before it adds. The loops as the source writes them
  throw ConcurrentModificationException, or lose a tag renamed to its own name (see
  ## Findings). They are modelled separately as `TagCascade.DeleteTagNamedAsWritten`
  and `TagCascade.RenameTagNamedAsWritten`. EditTagCommand's `execute` calls the
  as-written `setTags` after `setTag` has already replaced the stored tag. In the
  source it can therefore throw after that write, with the tag filter not reset and
  no result message. It can also drop the tag from a problem when the edited tag
  keeps the old name. `EditTag.Execute` states neither outcome.
- Other null checks are left out. This covers the `requireNonNull` and
  `requireAllNonNull` calls in ModelManager's other methods (hasProblem, setProblem,
  updateFilteredProblemList, updateSortedProblemList, hasTag, setTag, setTags,
  updateFilteredTagList, hasPlan, setPlan, updateFilteredPlanList), in its
  constructor, and in the Author and Plan constructors. It also covers the asserts
  in createEditedTag. Those members take non-null values, so they have no
  NullPointerException outcome.
- Model.ModelManager.AddTags: on failure the contract states only that the tags
  added before the duplicate came from the given set. Which ones they are depends
  on the set's iteration order, which the model does not fix.
- EditParser.IndexAloneIsNotEdited, EditParser.LoneEmptyTagClearsTags and the other
  test lemmas are stated for every valid index n and every validator set. The
  tests' fixed sample strings are instances of them.
- EditParser.ParseEditRendered covers the command lines the tests build: a preamble
  and trimmed values without prefixes inside them, each preceded by a space and its
  prefix. It covers no other input text.

## Findings

| source | as written | input that shows it | evidently intended | confidence | as-written member | corrected member |
|---|---|---|---|---|---|---|
| src/main/java/seedu/algobase/model/ModelManager.java:216-218 | setTags adds the edited tag and then deletes the matched tag | `edittag` giving a tag its own name: a shown problem whose only tag is x, renamed to x, ends with no tag x | the matched tag is replaced by the edited tag, so a rename to the same name keeps it | not executed; assumes Tag equality by name | TagCascade.AsWrittenRenameToSameNameDropsTag | TagCascade.RenameTagNamed |
| src/main/java/seedu/algobase/model/ModelManager.java:180-187 | deleteTags deletes from the tag set it is iterating over | a shown problem whose tags are visited as a, b, with target a: the next iteration throws ConcurrentModificationException | every shown problem loses the tag of that name | not executed; assumes getTags returns a view of the live set | TagCascade.DeleteAsWrittenThrowsOnFirstOfTwo | TagCascade.DeleteTagNamed |
| src/main/java/seedu/algobase/model/ModelManager.java:213-221 | setTags adds to and deletes from the tag set it is iterating over | a shown problem whose tags are visited as a, b, renaming a to c: the next iteration throws ConcurrentModificationException | every shown problem holding a gets c in its place, giving {b, c} | not executed; assumes getTags returns a view of the live set | TagCascade.RenameAsWrittenThrowsOnFirstOfTwo | TagCascade.RenameTagNamed |

/**
 * EditTagCommand: renames the tag at a position of the shown tag list, in the tag
 * list itself and in every shown problem that carries it, then shows all tags.
 */
module EditTag {
  import opened Wrappers
  import opened Entities
  import opened Commands
  import opened TagCascade
  import opened Model

  const COMMAND_WORD: string := "edittag"
  /** MESSAGE_EDIT_TAG_SUCCESS is "Edited Tag: %1$s", filled with the edited tag's text. */
  const MESSAGE_EDIT_TAG_SUCCESS_PREFIX: string := "Edited Tag: "
  const MESSAGE_DUPLICATE_TAG: string := "This Tag already exists in the algobase."

  /** The command: a position in the shown tag list (one-based for the user) and the new name. */
  datatype EditTagCommand = EditTagCommand(index: Index, name: string)

  /** A tag as String.format shows it: its name in square brackets. */
  function TagText(t: Tag): string {
    "[" + t.name + "]"
  }

  /** createEditedTag: a tag carrying the new name; it is the same tag exactly when the name is kept. */
  function CreateEditedTag(tagToEdit: Tag, name: string): (r: Tag)
    ensures r.name == name
    ensures IsSameTag(tagToEdit, r) <==> tagToEdit.name == name
    ensures IsSameTag(tagToEdit, r) <==> r == tagToEdit
  {
    Tag(name)
  }

  /** equals: another EditTagCommand with the same index and name (None stands for null or another class). */
  function Equals(c: EditTagCommand, other: Option<EditTagCommand>): (r: bool)
    ensures r <==> other == Some(c)
  {
    match other
    case None => false
    case Some(e) => c.index.zeroBased == e.index.zeroBased && c.name == e.name
  }

  /**
   * execute: refuses an index past the shown tag list and a new name another tag
   * already has; otherwise replaces the tag in the store, renames it in the shown
   * problems, and shows all tags again.
   */
  method Execute(cmd: EditTagCommand, model: ModelManager) returns (r: Result<CommandResult, CommandException>)
    requires model.Valid()
    modifies model
    ensures model.Valid()
    ensures cmd.index.zeroBased >= |old(model.FilteredTags())| ==>
      r == Failure(CommandException(MESSAGE_INVALID_TAG_DISPLAYED_INDEX)) && unchanged(model)
    ensures cmd.index.zeroBased < |old(model.FilteredTags())| ==>
      var tagToEdit := old(model.FilteredTags())[cmd.index.zeroBased];
      var editedTag := Tag(cmd.name);
      if tagToEdit.name != cmd.name && old(model.HasTag(editedTag)) then
        r == Failure(CommandException(MESSAGE_DUPLICATE_TAG)) && unchanged(model)
      else
        r == Success(CommandResult(MESSAGE_EDIT_TAG_SUCCESS_PREFIX + TagText(editedTag)))
        && model.tags == old(model.tags)[IndexOf(old(model.tags), tagToEdit) := editedTag]
        && model.problems == RenameTagInShown(old(model.problems), old(model.problemFilter), tagToEdit.name, editedTag)
        && model.View() == old(model.View()).(tagFilter := PREDICATE_SHOW_ALL_TAGS)
        && model.plans == old(model.plans) && model.findRules == old(model.findRules)
  {
    var lastShownList := model.FilteredTags();
    if cmd.index.zeroBased >= |lastShownList| {
      return Failure(CommandException(MESSAGE_INVALID_TAG_DISPLAYED_INDEX));
    }
    var tagToEdit := lastShownList[cmd.index.zeroBased];
    var editedTag := CreateEditedTag(tagToEdit, cmd.name);
    if !IsSameTag(tagToEdit, editedTag) && model.HasTag(editedTag) {
      return Failure(CommandException(MESSAGE_DUPLICATE_TAG));
    }
    var stored := model.SetTag(tagToEdit, editedTag);
    model.SetTags(tagToEdit, editedTag);
    model.UpdateFilteredTagList(PREDICATE_SHOW_ALL_TAGS);
    r := Success(CommandResult(MESSAGE_EDIT_TAG_SUCCESS_PREFIX + TagText(editedTag)));
  }

  /**
   * After a successful edit the tag list holds the edited tag and no longer holds
   * the old one unless the name was kept; every other tag stays where it was.
   */
  lemma EditReplacesOnlyTheTag(tags: seq<Tag>, tagToEdit: Tag, editedTag: Tag)
    requires UniqueTagNames(tags) && tagToEdit in tags
    ensures var after := tags[IndexOf(tags, tagToEdit) := editedTag];
      editedTag in after
      && (tagToEdit != editedTag ==> tagToEdit !in after)
      && forall j :: 0 <= j < |tags| && tags[j] != tagToEdit ==> after[j] == tags[j]
  {
    var i := IndexOf(tags, tagToEdit);
    var after := tags[i := editedTag];
    assert after[i] == editedTag;
    forall j | 0 <= j < |after| && j != i ensures after[j] != tagToEdit {
      assert tags[i] == tagToEdit && after[j] == tags[j];
    }
  }
}

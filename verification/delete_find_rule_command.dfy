/**
 * DeleteFindRuleCommand: deletes the find rule at a position of the shown find
 * rule list.
 */
module DeleteFindRule {
  import opened Wrappers
  import opened Entities
  import opened Commands
  import opened Model

  const COMMAND_WORD: string := "deletefindrule"
  /** MESSAGE_SUCCESS is "Deleted Find Rule: %1$s", filled with the deleted rule's text. */
  const MESSAGE_SUCCESS_PREFIX: string := "Deleted Find Rule: "

  datatype DeleteFindRuleCommand = DeleteFindRuleCommand(targetIndex: Index)

  /** equals: another DeleteFindRuleCommand with the same index (None stands for null or another class). */
  function Equals(c: DeleteFindRuleCommand, other: Option<DeleteFindRuleCommand>): (r: bool)
    ensures r <==> other == Some(c)
  {
    match other
    case None => false
    case Some(d) => c.targetIndex.zeroBased == d.targetIndex.zeroBased
  }

  /**
   * execute: refuses an index past the shown find rule list; otherwise removes the
   * rule shown there from the store and reports it. Nothing else changes.
   */
  method Execute(cmd: DeleteFindRuleCommand, model: ModelManager) returns (r: Result<CommandResult, CommandException>)
    requires model.Valid()
    modifies model
    ensures model.Valid()
    ensures cmd.targetIndex.zeroBased >= |old(model.FilteredFindRules())| ==>
      r == Failure(CommandException(MESSAGE_INVALID_FIND_RULE_DISPLAYED_INDEX)) && unchanged(model)
    ensures cmd.targetIndex.zeroBased < |old(model.FilteredFindRules())| ==>
      var ruleToDelete := old(model.FilteredFindRules())[cmd.targetIndex.zeroBased];
      r == Success(CommandResult(MESSAGE_SUCCESS_PREFIX + ruleToDelete.name))
      && model.findRules == RemoveAt(old(model.findRules), IndexOf(old(model.findRules), ruleToDelete))
      && ruleToDelete !in model.findRules
      && |model.findRules| == |old(model.findRules)| - 1
      && model.problems == old(model.problems) && model.tags == old(model.tags)
      && model.plans == old(model.plans) && model.View() == old(model.View())
  {
    var lastShownList := model.FilteredFindRules();
    if cmd.targetIndex.zeroBased >= |lastShownList| {
      return Failure(CommandException(MESSAGE_INVALID_FIND_RULE_DISPLAYED_INDEX));
    }
    var ruleToDelete := lastShownList[cmd.targetIndex.zeroBased];
    var deleted := model.DeleteFindRule(ruleToDelete);
    r := Success(CommandResult(MESSAGE_SUCCESS_PREFIX + ruleToDelete.name));
  }
}

/**
 * What every command's execute hands back: a CommandResult carrying the feedback
 * shown to the user, or a CommandException carrying the error message.
 */
module Commands {

  datatype CommandResult = CommandResult(feedbackToUser: string)

  datatype CommandException = CommandException(message: string)

  /** Messages.MESSAGE_INVALID_TAG_DISPLAYED_INDEX. */
  const MESSAGE_INVALID_TAG_DISPLAYED_INDEX: string := "The Tag index provided is invalid"

  /**
   * Messages.MESSAGE_INVALID_FIND_RULE_DISPLAYED_INDEX. Messages.java at this revision
   * does not declare it; the text follows its sibling messages.
   */
  const MESSAGE_INVALID_FIND_RULE_DISPLAYED_INDEX: string := "The Find Rule index provided is invalid"
}

/** The validated command value object sent from the user interface to a bug. */
module Commands {
  import opened Failures

  /** The six user actions (CommandValue). */
  datatype CommandValue = Vote | Possession | Resolved | Verified | Reopen | Confirm

  /** The four ways a bug can be resolved. */
  datatype Resolution = Fixed | Duplicate | WontFix | WorksForMe

  /** The wire name of a resolution. */
  function ResolutionName(r: Resolution): string
  {
    match r
    case Fixed => "Fixed"
    case Duplicate => "Duplicate"
    case WontFix => "WontFix"
    case WorksForMe => "WorksForMe"
  }

  /** An immutable command: an action and the parameters some actions use. */
  datatype Command = Command(
    action: CommandValue,
    developerId: Option<string>,
    resolution: Option<Resolution>,
    note: Option<string>)

  /** The checks the constructor makes on a present action. */
  predicate ValidCommand(c: Command)
  {
    && (c.action == Resolved ==> c.resolution.Some?)
    && (c.action == Possession ==> c.developerId.Some? && c.developerId.value != "")
  }

  /**
   * The validating constructor. It throws IllegalArgumentException for a null action, for RESOLVED
   * without a resolution and for POSSESSION without a non-empty developer id, and otherwise keeps
   * every argument exactly as given, including those the action ignores.
   */
  function NewCommand(action: Option<CommandValue>, developerId: Option<string>,
                      resolution: Option<Resolution>, note: Option<string>): (r: Result<Command>)
    ensures r.Failure? <==>
      action.None? || !ValidCommand(Command(action.value, developerId, resolution, note))
    ensures r.Failure? ==> r.error == IllegalArgument
    ensures r.Success? ==>
      && r.value.action == action.value
      && r.value.developerId == developerId
      && r.value.resolution == resolution
      && r.value.note == note
  {
    if action.None? then
      Failure(IllegalArgument)
    else if action.value == Resolved && resolution.None? then
      Failure(IllegalArgument)
    else if action.value == Possession && (developerId.None? || developerId.value == "") then
      Failure(IllegalArgument)
    else
      Success(Command(action.value, developerId, resolution, note))
  }

  /** Every command the constructor can return is valid, and every valid command can be constructed. */
  lemma ConstructedCommandsAreTheValidOnes(c: Command)
    ensures NewCommand(Some(c.action), c.developerId, c.resolution, c.note) == Success(c) <==> ValidCommand(c)
  {
  }

  /** Nothing else is checked: a null note, and a null developer id or resolution on actions that do not need them, are accepted. */
  lemma NoOtherValidation(a: CommandValue, developerId: Option<string>, resolution: Option<Resolution>, note: Option<string>)
    requires a != Resolved && a != Possession
    ensures NewCommand(Some(a), developerId, resolution, note).Success?
  {
  }

  /** The four wire names are distinct. */
  lemma ResolutionNamesDistinct(r1: Resolution, r2: Resolution)
    ensures ResolutionName(r1) == ResolutionName(r2) ==> r1 == r2
  {
  }
}

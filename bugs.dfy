/**
 * A tracked bug: its six lifecycle states, the fields a command changes, the transition table that
 * says how each state handles a command, and the class whose per-state handlers update those
 * fields in place.
 */
module Bugs {
  import opened Failures
  import opened Commands

  const UnconfirmedName: string := "Unconfirmed"
  const NewName: string := "New"
  const AssignedName: string := "Assigned"
  const ResolvedName: string := "Resolved"
  const ReopenName: string := "Reopen"
  const ClosedName: string := "Closed"

  /** Votes a bug needs to leave the Unconfirmed state. */
  const VoteThreshold: int := 3

  /** Printed after every note by the notes listing. */
  const NoteSeparator: string := "\n------\n"

  /** The six states; each is one handler of the state pattern. */
  datatype BugState = UnconfirmedState | NewState | AssignedState | ResolvedState | ReopenState | ClosedState

  /** The name each state handler reports. */
  function StateName(s: BugState): string
  {
    match s
    case UnconfirmedState => UnconfirmedName
    case NewState => NewName
    case AssignedState => AssignedName
    case ResolvedState => ResolvedName
    case ReopenState => ReopenName
    case ClosedState => ClosedName
  }

  /**
   * The name-keyed lookup used by the state setter and by the record constructor; None for a name
   * that is none of the six (the caller then leaves the state as it was).
   */
  function StateNamed(name: string): (s: Option<BugState>)
    ensures s.Some? ==> StateName(s.value) == name
  {
    if name == UnconfirmedName then Some(UnconfirmedState)
    else if name == NewName then Some(NewState)
    else if name == AssignedName then Some(AssignedState)
    else if name == ResolvedName then Some(ResolvedState)
    else if name == ReopenName then Some(ReopenState)
    else if name == ClosedName then Some(ClosedState)
    else None
  }

  /** The name-keyed lookup of the resolution setter; None for an unknown name. */
  function ResolutionNamed(name: string): (r: Option<Resolution>)
    ensures r.Some? ==> ResolutionName(r.value) == name
  {
    if name == ResolutionName(Fixed) then Some(Fixed)
    else if name == ResolutionName(Duplicate) then Some(Duplicate)
    else if name == ResolutionName(WontFix) then Some(WontFix)
    else if name == ResolutionName(WorksForMe) then Some(WorksForMe)
    else None
  }

  /**
   * The resolution after the resolution setter is given `name`: a null name clears it, a known
   * name selects that resolution, and an unknown name leaves `current` in place.
   */
  function ResolutionAfter(current: Option<Resolution>, name: Option<string>): (r: Option<Resolution>)
    ensures name.None? ==> r.None?
    ensures name.Some? && r != current ==> r.Some? && ResolutionName(r.value) == name.value
  {
    match name
    case None => None
    case Some(n) =>
      match ResolutionNamed(n)
      case Some(res) => Some(res)
      case None => current
  }

  /** Every field of a bug, as a value. */
  datatype BugRecord = BugRecord(
    bugId: int,
    state: Option<BugState>,
    summary: string,
    reporter: string,
    owner: Option<string>,
    votes: int,
    confirmed: bool,
    resolution: Option<Resolution>,
    notes: seq<string>)

  /** The fields of a bug a user has just reported, given the counter's current value. */
  function Reported(id: int, summary: string, reporter: string): BugRecord
  {
    BugRecord(id, Some(UnconfirmedState), summary, reporter, None, 1, false, None, [])
  }

  /**
   * The resolution's wire name while the bug is Resolved or Closed, null in every other state. A
   * Resolved or Closed bug without a resolution makes the lookup dereference null.
   */
  function ResolutionString(b: BugRecord): (r: Result<Option<string>>)
    ensures r.Failure? <==> b.state in {Some(ResolvedState), Some(ClosedState)} && b.resolution.None?
    ensures r.Failure? ==> r.error == NullPointer
    ensures r == Success(None) <==> b.state !in {Some(ResolvedState), Some(ClosedState)}
    ensures r.Success? && r.value.Some? ==> ResolutionNamed(r.value.value) == b.resolution
  {
    if b.state == Some(ClosedState) || b.state == Some(ResolvedState) then
      match b.resolution
      case None => Failure(NullPointer)
      case Some(res) => Success(Some(ResolutionName(res)))
    else
      Success(None)
  }

  /** The text of the notes listing: every note followed by the separator line, in order. */
  function NotesText(notes: seq<string>): string
  {
    if notes == [] then "" else notes[0] + NoteSeparator + NotesText(notes[1..])
  }

  /** Logging one more note extends the listing by exactly that note's block. */
  lemma {:induction false} NotesTextAppend(notes: seq<string>, note: string)
    ensures NotesText(notes + [note]) == NotesText(notes) + note + NoteSeparator
    decreases |notes|
  {
    if notes == [] {
      assert [note][1..] == [];
    } else {
      assert (notes + [note])[1..] == notes[1..] + [note];
      NotesTextAppend(notes[1..], note);
    }
  }

  // ---------------------------------------------------------------------------------------------
  // The transition table
  // ---------------------------------------------------------------------------------------------

  /** The actions each state's handler accepts; every other action is rejected. */
  predicate Accepts(s: BugState, a: CommandValue)
  {
    match s
    case UnconfirmedState => a == Vote || a == Confirm
    case NewState => a == Possession
    case AssignedState => a == Resolved
    case ResolvedState => a == Verified || a == Reopen
    case ReopenState => a == Possession || a == Resolved
    case ClosedState => a == Reopen
  }

  /** The notes after a command's note, when it has one, is logged. */
  function Logged(notes: seq<string>, c: Command): seq<string>
  {
    if c.note.Some? then notes + [c.note.value] else notes
  }

  /** A bug's fields after one command, and how the command ended. */
  datatype Step = Step(after: BugRecord, outcome: Outcome)

  /** VOTE or CONFIRM on an Unconfirmed bug, after its note is logged. */
  function UnconfirmedStep(b: BugRecord, c: Command): BugRecord
  {
    if c.action == Vote then
      var votes := b.votes + 1;
      var next := if b.owner.None? then NewState else AssignedState;
      b.(votes := votes, state := if votes >= VoteThreshold then Some(next) else b.state)
    else
      var state :=
        if b.owner.None? then Some(NewState)
        else if c.developerId.Some? then Some(AssignedState)
        else b.state;
      b.(state := state, confirmed := true)
  }

  /** RESOLVED with a resolution: FIXED goes to Resolved, any other reason to Closed. */
  function ResolveStep(b: BugRecord, r: Resolution): BugRecord
  {
    if r == Fixed then b.(state := Some(ResolvedState), resolution := Some(Fixed))
    else b.(state := Some(ClosedState), resolution := Some(r))
  }

  /** REOPEN: back to Reopen for a confirmed bug and to Unconfirmed otherwise, resolution cleared. */
  function ReopenStep(b: BugRecord): BugRecord
  {
    b.(state := Some(if b.confirmed then ReopenState else UnconfirmedState), resolution := None)
  }

  /**
   * One command applied to a bug: the state's handler rejects an action it does not accept before
   * logging anything, logs the note of one it does accept, and only then checks the fields the
   * action needs and changes the bug. A bug whose state is unset cannot be updated at all.
   */
  function Transition(b: BugRecord, c: Command): Step
  {
    match b.state
    case None => Step(b, Fail(NullPointer))
    case Some(s) =>
      if !Accepts(s, c.action) then Step(b, Fail(UnsupportedOperation))
      else
        var noted := b.(notes := Logged(b.notes, c));
        match s
        case UnconfirmedState => Step(UnconfirmedStep(noted, c), Pass)
        case NewState =>
          if c.developerId.Some? then Step(noted.(owner := c.developerId, state := Some(AssignedState)), Pass)
          else Step(noted, Fail(IllegalArgument))
        case AssignedState =>
          if c.resolution.Some? then Step(ResolveStep(noted, c.resolution.value), Pass)
          else Step(noted, Fail(IllegalArgument))
        case ResolvedState =>
          if c.action == Verified then Step(noted.(state := Some(ClosedState)), Pass)
          else Step(ReopenStep(noted), Pass)
        case ReopenState =>
          if c.action == Possession then Step(noted.(state := Some(AssignedState), owner := c.developerId), Pass)
          else if c.resolution.Some? then Step(ResolveStep(noted, c.resolution.value), Pass)
          else Step(noted.(state := Some(ClosedState)), Pass)
        case ClosedState => Step(ReopenStep(noted), Pass)
  }

  // ---------------------------------------------------------------------------------------------
  // Records read from a file
  // ---------------------------------------------------------------------------------------------

  /** A bug record as the file reader delivers it; its note list may be absent. */
  datatype StoredBug = StoredBug(
    bugId: int,
    state: string,
    summary: string,
    reporter: string,
    owner: Option<string>,
    votes: int,
    confirmed: bool,
    resolution: Option<string>,
    notes: Option<seq<string>>)

  /**
   * The fields the record constructor gives a bug: the record's id shifted by the counter, the
   * state of that name (unset for an unknown name), the record's other fields, and no resolution,
   * because the constructor writes the record's resolution back into the record instead of the bug.
   */
  function Loaded(rec: StoredBug, counter: int): BugRecord
  {
    BugRecord(rec.bugId + counter, StateNamed(rec.state), rec.summary, rec.reporter, rec.owner,
              rec.votes, rec.confirmed, None, if rec.notes.Some? then rec.notes.value else [])
  }

  // ---------------------------------------------------------------------------------------------
  // The mutable objects
  // ---------------------------------------------------------------------------------------------

  /** The id counter shared by every bug of a list (a static field in the source). */
  class Counter {
    var value: int

    constructor ()
      ensures value == 0
    {
      value := 0;
    }

    /** Advances the counter by one. */
    method Increment()
      modifies this
      ensures value == old(value) + 1
    {
      value := value + 1;
    }

    /** Sets the counter to a value. */
    method Set(v: int)
      modifies this
      ensures value == v
    {
      value := v;
    }
  }

  /** A tracked bug; its id, summary and reporter are set once by a constructor. */
  class TrackedBug {
    const bugId: int
    var state: Option<BugState>
    const summary: string
    const reporter: string
    var owner: Option<string>
    var votes: int
    var confirmed: bool
    var resolution: Option<Resolution>
    var notes: seq<string>

    /** The bug's fields as a value. */
    function Record(): BugRecord
      reads this
    {
      BugRecord(bugId, state, summary, reporter, owner, votes, confirmed, resolution, notes)
    }

    /**
     * A bug reported by a user: Unconfirmed, one vote, unconfirmed, no owner, no resolution, no
     * notes, and the counter's current value as its id. The counter is read, not advanced.
     */
    constructor (summary: string, reporter: string, counter: Counter)
      ensures bugId == counter.value && state == Some(UnconfirmedState)
      ensures this.summary == summary && this.reporter == reporter
      ensures owner.None? && votes == 1 && !confirmed && resolution.None? && notes == []
      ensures Record() == Reported(counter.value, summary, reporter)
    {
      state := Some(UnconfirmedState);
      votes := 1;
      confirmed := false;
      bugId := counter.value;
      owner := None;
      this.summary := summary;
      this.reporter := reporter;
      resolution := None;
      notes := [];
    }

    /** A bug rebuilt from a stored record; the counter is read, not advanced. */
    constructor FromStored(rec: StoredBug, counter: Counter)
      ensures Record() == Loaded(rec, counter.value)
    {
      state := None;
      if rec.state == UnconfirmedName {
        state := Some(UnconfirmedState);
      } else if rec.state == NewName {
        state := Some(NewState);
      } else if rec.state == AssignedName {
        state := Some(AssignedState);
      } else if rec.state == ResolvedName {
        state := Some(ResolvedState);
      } else if rec.state == ReopenName {
        state := Some(ReopenState);
      } else if rec.state == ClosedName {
        state := Some(ClosedState);
      }
      votes := rec.votes;
      confirmed := rec.confirmed;
      bugId := rec.bugId + counter.value;
      owner := rec.owner;
      summary := rec.summary;
      reporter := rec.reporter;
      resolution := None;
      if rec.notes.Some? {
        notes := rec.notes.value;
      } else {
        notes := [];
      }
    }

    /** The notes listing, built one note at a time. */
    method GetNotesString() returns (s: string)
      ensures s == NotesText(notes)
    {
      s := "";
      var i := 0;
      while i < |notes|
        invariant 0 <= i <= |notes|
        invariant s == NotesText(notes[..i])
      {
        NotesTextAppend(notes[..i], notes[i]);
        assert notes[..i + 1] == notes[..i] + [notes[i]];
        s := s + (notes[i] + NoteSeparator);
        i := i + 1;
      }
      assert notes[..i] == notes;
    }

    /** Hands the command to the handler of the bug's current state. */
    method Update(c: Command) returns (outcome: Outcome)
      modifies this
      ensures Step(Record(), outcome) == Transition(old(Record()), c)
    {
      match state
      case None =>
        outcome := Fail(NullPointer);
      case Some(UnconfirmedState) =>
        outcome := UpdateUnconfirmed(c);
      case Some(NewState) =>
        outcome := UpdateNew(c);
      case Some(AssignedState) =>
        outcome := UpdateAssigned(c);
      case Some(ResolvedState) =>
        outcome := UpdateResolved(c);
      case Some(ReopenState) =>
        outcome := UpdateReopen(c);
      case Some(ClosedState) =>
        outcome := UpdateClosed(c);
    }

    /** The name-keyed state setter; an unknown name leaves the state unchanged. */
    method SetState(name: string)
      modifies this`state
      ensures state == if StateNamed(name).Some? then StateNamed(name) else old(state)
    {
      if name == UnconfirmedName {
        state := Some(UnconfirmedState);
      } else if name == NewName {
        state := Some(NewState);
      } else if name == AssignedName {
        state := Some(AssignedState);
      } else if name == ResolvedName {
        state := Some(ResolvedState);
      } else if name == ReopenName {
        state := Some(ReopenState);
      } else if name == ClosedName {
        state := Some(ClosedState);
      }
    }

    /** The name-keyed resolution setter. */
    method SetResolution(name: Option<string>)
      modifies this`resolution
      ensures resolution == ResolutionAfter(old(resolution), name)
    {
      if name.None? {
        resolution := None;
      } else if name.value == ResolutionName(Fixed) {
        resolution := Some(Fixed);
      } else if name.value == ResolutionName(Duplicate) {
        resolution := Some(Duplicate);
      } else if name.value == ResolutionName(WontFix) {
        resolution := Some(WontFix);
      } else if name.value == ResolutionName(WorksForMe) {
        resolution := Some(WorksForMe);
      }
    }

    /** Appends the command's note, if it has one. */
    method LogNote(c: Command)
      modifies this`notes
      ensures notes == Logged(old(notes), c)
    {
      if c.note.Some? {
        notes := notes + [c.note.value];
      }
    }

    /** The chain both resolving handlers run for a reason other than FIXED; a null reason sets nothing. */
    method SetClosingResolution(r: Option<Resolution>)
      modifies this`resolution
      ensures resolution == if r.Some? && r.value != Fixed then r else old(resolution)
    {
      if r == Some(Duplicate) {
        SetResolution(Some(ResolutionName(Duplicate)));
      } else if r == Some(WontFix) {
        SetResolution(Some(ResolutionName(WontFix)));
      } else if r == Some(WorksForMe) {
        SetResolution(Some(ResolutionName(WorksForMe)));
      }
    }

    method UpdateUnconfirmed(c: Command) returns (outcome: Outcome)
      requires state == Some(UnconfirmedState)
      modifies this
      ensures Step(Record(), outcome) == Transition(old(Record()), c)
    {
      if c.action != Vote && c.action != Confirm {
        return Fail(UnsupportedOperation);
      }
      LogNote(c);
      if c.action == Vote {
        votes := votes + 1;
        if votes >= VoteThreshold {
          if owner.None? {
            SetState(NewName);
          } else {
            SetState(AssignedName);
          }
        }
      }
      if c.action == Confirm {
        if owner.None? {
          SetState(NewName);
        } else {
          if c.developerId.Some? {
            SetState(AssignedName);
          }
        }
        confirmed := true;
      }
      outcome := Pass;
    }

    method UpdateNew(c: Command) returns (outcome: Outcome)
      requires state == Some(NewState)
      modifies this
      ensures Step(Record(), outcome) == Transition(old(Record()), c)
    {
      if c.action != Possession {
        return Fail(UnsupportedOperation);
      }
      LogNote(c);
      if c.action == Possession && c.developerId.Some? {
        owner := c.developerId;
        SetState(AssignedName);
        outcome := Pass;
      } else {
        outcome := Fail(IllegalArgument);
      }
    }

    method UpdateAssigned(c: Command) returns (outcome: Outcome)
      requires state == Some(AssignedState)
      modifies this
      ensures Step(Record(), outcome) == Transition(old(Record()), c)
    {
      if c.action != Resolved {
        return Fail(UnsupportedOperation);
      }
      LogNote(c);
      var r := c.resolution;
      if r.None? {
        return Fail(IllegalArgument);
      }
      if r.value == Fixed {
        SetState(ResolvedName);
        SetResolution(Some(ResolutionName(Fixed)));
      } else {
        SetState(ClosedName);
        SetClosingResolution(r);
      }
      outcome := Pass;
    }

    method UpdateResolved(c: Command) returns (outcome: Outcome)
      requires state == Some(ResolvedState)
      modifies this
      ensures Step(Record(), outcome) == Transition(old(Record()), c)
    {
      if c.action != Verified && c.action != Reopen {
        return Fail(UnsupportedOperation);
      }
      LogNote(c);
      if c.action == Verified {
        SetState(ClosedName);
      }
      if c.action == Reopen {
        if confirmed {
          SetState(ReopenName);
        } else {
          SetState(UnconfirmedName);
        }
        SetResolution(None);
      }
      outcome := Pass;
    }

    method UpdateReopen(c: Command) returns (outcome: Outcome)
      requires state == Some(ReopenState)
      modifies this
      ensures Step(Record(), outcome) == Transition(old(Record()), c)
    {
      if c.action != Possession && c.action != Resolved {
        return Fail(UnsupportedOperation);
      }
      LogNote(c);
      var r := c.resolution;
      if c.action == Possession {
        SetState(AssignedName);
        owner := c.developerId;
      }
      if c.action == Resolved {
        if r == Some(Fixed) {
          SetState(ResolvedName);
          SetResolution(Some(ResolutionName(Fixed)));
        } else {
          SetState(ClosedName);
          SetClosingResolution(r);
        }
      }
      outcome := Pass;
    }

    method UpdateClosed(c: Command) returns (outcome: Outcome)
      requires state == Some(ClosedState)
      modifies this
      ensures Step(Record(), outcome) == Transition(old(Record()), c)
    {
      if c.action != Reopen {
        return Fail(UnsupportedOperation);
      }
      LogNote(c);
      if c.action == Reopen {
        if confirmed {
          SetState(ReopenName);
        } else {
          SetState(UnconfirmedName);
        }
        SetResolution(None);
      }
      outcome := Pass;
    }
  }
}

/** What the transition table promises about a bug's fields, one command at a time and over a whole history. */
module BugLifecycle {
  import opened Failures
  import opened Commands
  import opened Bugs

  /**
   * The facts that hold of every bug a user reported and only validated commands updated: its state
   * is set, it has at least one vote, it has a resolution exactly while Resolved or Closed, it has a
   * non-empty owner once it has been assigned, none while New, and a reopened bug is confirmed.
   */
  predicate WellFormed(b: BugRecord)
  {
    && b.state.Some?
    && b.votes >= 1
    && (b.resolution.Some? <==> b.state.value in {ResolvedState, ClosedState})
    && (b.state.value in {AssignedState, ResolvedState, ReopenState, ClosedState} ==> b.owner.Some?)
    && (b.owner.Some? ==> b.owner.value != "")
    && (b.state.value == NewState ==> b.owner.None?)
    && (b.state.value == ReopenState ==> b.confirmed)
  }

  /**
   * How a bug may change from `b` to `r`: id, summary and reporter stay, votes never go down, a
   * confirmed bug stays confirmed, and the earlier notes stay in place in front of any new ones.
   */
  predicate Evolves(b: BugRecord, r: BugRecord)
  {
    && r.bugId == b.bugId && r.summary == b.summary && r.reporter == b.reporter
    && b.votes <= r.votes
    && (b.confirmed ==> r.confirmed)
    && b.notes <= r.notes
  }

  /** A bug after a history of commands; a command that throws leaves whatever it changed (its note) in place. */
  function Run(b: BugRecord, cs: seq<Command>): BugRecord
    decreases |cs|
  {
    if cs == [] then b else Run(Transition(b, cs[0]).after, cs[1..])
  }

  // ----- names --------------------------------------------------------------------------------

  lemma StateNamesRoundTrip(s: BugState)
    ensures StateNamed(StateName(s)) == Some(s)
  {
  }

  lemma StateNamesDistinct(s1: BugState, s2: BugState)
    ensures StateName(s1) == StateName(s2) ==> s1 == s2
  {
    StateNamesRoundTrip(s1);
    StateNamesRoundTrip(s2);
  }

  /** Setting a resolution by its wire name selects exactly that resolution, whatever was there before. */
  lemma ResolutionNamesRoundTrip(r: Resolution, current: Option<Resolution>)
    ensures ResolutionNamed(ResolutionName(r)) == Some(r)
    ensures ResolutionAfter(current, Some(ResolutionName(r))) == Some(r)
  {
  }

  // ----- one command ------------------------------------------------------------------------------

  /** A freshly reported bug satisfies the invariant. */
  lemma ReportedIsWellFormed(id: int, summary: string, reporter: string)
    ensures WellFormed(Reported(id, summary, reporter))
  {
  }

  /**
   * An action the current state does not accept, and only such an action, is rejected with
   * UnsupportedOperationException; the rejection changes no field, not even the notes.
   */
  lemma RejectedExactlyWhenNotAccepted(b: BugRecord, c: Command)
    requires b.state.Some?
    ensures Transition(b, c).outcome == Fail(UnsupportedOperation) <==> !Accepts(b.state.value, c.action)
    ensures !Accepts(b.state.value, c.action) ==> Transition(b, c).after == b
  {
  }

  /** An accepted action appends its note, if any, exactly once at the end and keeps the earlier notes. */
  lemma AcceptedActionLogsNote(b: BugRecord, c: Command)
    requires b.state.Some? && Accepts(b.state.value, c.action)
    ensures var notes := Transition(b, c).after.notes;
      && |notes| == |b.notes| + (if c.note.Some? then 1 else 0)
      && notes[..|b.notes|] == b.notes
      && (c.note.Some? ==> notes[|b.notes|] == c.note.value)
  {
  }

  /**
   * The note is logged before the handler checks the fields its action needs: POSSESSION without a
   * developer id on a New bug, and RESOLVED without a resolution on an Assigned bug, log the note and
   * then throw IllegalArgumentException without changing anything else.
   */
  lemma FieldChecksFollowLogging(b: BugRecord, c: Command)
    requires || (b.state == Some(NewState) && c.action == Possession && c.developerId.None?)
             || (b.state == Some(AssignedState) && c.action == Resolved && c.resolution.None?)
    ensures Transition(b, c) == Step(b.(notes := Logged(b.notes, c)), Fail(IllegalArgument))
  {
  }

  /**
   * VOTE on an Unconfirmed bug adds exactly one vote; on reaching the threshold the bug becomes New
   * when it has no owner and Assigned when it has one, and below it stays Unconfirmed.
   */
  lemma VoteOnUnconfirmed(b: BugRecord, c: Command)
    requires b.state == Some(UnconfirmedState) && c.action == Vote
    ensures var s := Transition(b, c); var a := s.after;
      && s.outcome == Pass
      && a.votes == b.votes + 1
      && (b.votes + 1 < VoteThreshold ==> a.state == Some(UnconfirmedState))
      && (b.votes + 1 >= VoteThreshold && b.owner.None? ==> a.state == Some(NewState))
      && (b.votes + 1 >= VoteThreshold && b.owner.Some? ==> a.state == Some(AssignedState))
      && a.owner == b.owner && a.confirmed == b.confirmed && a.resolution == b.resolution
  {
  }

  /**
   * CONFIRM on an Unconfirmed bug confirms it; it becomes New without an owner, Assigned with an owner
   * when the command names a developer, and otherwise stays Unconfirmed. Votes and owner stay.
   */
  lemma ConfirmOnUnconfirmed(b: BugRecord, c: Command)
    requires b.state == Some(UnconfirmedState) && c.action == Confirm
    ensures var s := Transition(b, c); var a := s.after;
      && s.outcome == Pass
      && a.confirmed
      && (b.owner.None? ==> a.state == Some(NewState))
      && (b.owner.Some? && c.developerId.Some? ==> a.state == Some(AssignedState))
      && (b.owner.Some? && c.developerId.None? ==> a.state == Some(UnconfirmedState))
      && a.votes == b.votes && a.owner == b.owner && a.resolution == b.resolution
  {
  }

  /** POSSESSION naming a developer on a New or Reopen bug makes that developer the owner and the bug Assigned. */
  lemma PossessionAssigns(b: BugRecord, c: Command)
    requires b.state in {Some(NewState), Some(ReopenState)} && c.action == Possession && c.developerId.Some?
    ensures var s := Transition(b, c); var a := s.after;
      && s.outcome == Pass
      && a.owner == c.developerId && a.state == Some(AssignedState)
      && a.votes == b.votes && a.confirmed == b.confirmed && a.resolution == b.resolution
  {
  }

  /**
   * RESOLVED with a reason on an Assigned or Reopen bug: FIXED makes it Resolved with resolution
   * FIXED, any other reason makes it Closed with that reason. The owner stays.
   */
  lemma ResolveBranches(b: BugRecord, c: Command)
    requires b.state in {Some(AssignedState), Some(ReopenState)} && c.action == Resolved && c.resolution.Some?
    ensures var s := Transition(b, c); var a := s.after;
      && s.outcome == Pass
      && a.resolution == c.resolution
      && a.state == Some(if c.resolution == Some(Fixed) then ResolvedState else ClosedState)
      && a.owner == b.owner && a.votes == b.votes && a.confirmed == b.confirmed
  {
  }

  /** VERIFIED closes a Resolved bug and keeps its resolution. */
  lemma VerifyCloses(b: BugRecord, c: Command)
    requires b.state == Some(ResolvedState) && c.action == Verified
    ensures var s := Transition(b, c); var a := s.after;
      && s.outcome == Pass
      && a.state == Some(ClosedState) && a.resolution == b.resolution && a.owner == b.owner
  {
  }

  /**
   * REOPEN on a Resolved or Closed bug clears its resolution and sends it to Reopen when confirmed
   * and to Unconfirmed otherwise; the owner stays.
   */
  lemma ReopenClearsResolution(b: BugRecord, c: Command)
    requires b.state in {Some(ResolvedState), Some(ClosedState)} && c.action == Reopen
    ensures var s := Transition(b, c); var a := s.after;
      && s.outcome == Pass
      && a.resolution.None?
      && a.state == Some(if b.confirmed then ReopenState else UnconfirmedState)
      && a.owner == b.owner && a.votes == b.votes
  {
  }

  /** One validated command keeps the invariant and changes the bug only in the permitted ways. */
  lemma TransitionPreservesWellFormed(b: BugRecord, c: Command)
    requires WellFormed(b) && ValidCommand(c)
    ensures WellFormed(Transition(b, c).after) && Evolves(b, Transition(b, c).after)
  {
  }

  /** Without validation the owner invariant breaks: POSSESSION without a developer id on a Reopen bug assigns nobody. */
  lemma UnvalidatedPossessionLosesOwner(b: BugRecord)
    requires b.state == Some(ReopenState)
    ensures var a := Transition(b, Command(Possession, None, None, None)).after;
      a.state == Some(AssignedState) && a.owner.None? && !WellFormed(a)
  {
  }

  // ----- whole histories --------------------------------------------------------------------------

  /** Any history of validated commands keeps the invariant and changes the bug only in the permitted ways. */
  lemma {:induction false} RunPreservesWellFormed(b: BugRecord, cs: seq<Command>)
    requires WellFormed(b)
    requires forall i :: 0 <= i < |cs| ==> ValidCommand(cs[i])
    ensures WellFormed(Run(b, cs)) && Evolves(b, Run(b, cs))
    decreases |cs|
  {
    if cs != [] {
      var next := Transition(b, cs[0]).after;
      TransitionPreservesWellFormed(b, cs[0]);
      assert forall i :: 0 <= i < |cs[1..]| ==> ValidCommand(cs[1..][i]) by {
        forall i | 0 <= i < |cs[1..]| ensures ValidCommand(cs[1..][i]) {
          assert cs[1..][i] == cs[i + 1];
        }
      }
      RunPreservesWellFormed(next, cs[1..]);
    }
  }

  /** The resolution's wire name of a well-formed bug is always defined: present exactly while Resolved or Closed. */
  lemma ResolutionStringDefined(b: BugRecord)
    requires WellFormed(b)
    ensures ResolutionString(b).Success?
    ensures ResolutionString(b).value.Some? <==> b.state.value in {ResolvedState, ClosedState}
  {
  }

  /**
   * A reported bug driven by validated commands keeps its id, summary and reporter, keeps at least
   * one vote, and never makes the resolution lookup dereference null.
   */
  lemma ReportedBugsStayWellFormed(id: int, summary: string, reporter: string, cs: seq<Command>)
    requires forall i :: 0 <= i < |cs| ==> ValidCommand(cs[i])
    ensures var b := Run(Reported(id, summary, reporter), cs);
      && WellFormed(b)
      && b.bugId == id && b.summary == summary && b.reporter == reporter
      && b.votes >= 1
      && ResolutionString(b).Success?
  {
    ReportedIsWellFormed(id, summary, reporter);
    RunPreservesWellFormed(Reported(id, summary, reporter), cs);
    ResolutionStringDefined(Run(Reported(id, summary, reporter), cs));
  }

  // ----- scenarios -------------------------------------------------------------------------------

  /**
   * A reported bug voted twice becomes New; taking possession, resolving as FIXED and reopening it
   * sends it back to Unconfirmed with its owner kept; a further VOTE then takes the owner branch to
   * Assigned, and so does a CONFIRM that names a developer, while a CONFIRM without one leaves it
   * Unconfirmed.
   */
  lemma OwnerBranchesReachable()
    ensures var vote := Command(Vote, None, None, None);
      var b := Run(Reported(0, "Summary", "Reporter"),
                   [vote, vote, Command(Possession, Some("bob"), None, None),
                    Command(Resolved, None, Some(Fixed), None), Command(Reopen, None, None, None)]);
      && b.state == Some(UnconfirmedState) && b.owner == Some("bob") && !b.confirmed && b.votes == 3
      && Transition(b, vote).after.state == Some(AssignedState)
      && Transition(b, Command(Confirm, Some("ann"), None, None)).after.state == Some(AssignedState)
      && Transition(b, Command(Confirm, None, None, None)).after.state == Some(UnconfirmedState)
  {
    var vote := Command(Vote, None, None, None);
    var possess := Command(Possession, Some("bob"), None, None);
    var fix := Command(Resolved, None, Some(Fixed), None);
    var reopen := Command(Reopen, None, None, None);
    var b0 := Reported(0, "Summary", "Reporter");
    var b1 := Transition(b0, vote).after;
    assert b1.state == Some(UnconfirmedState) && b1.votes == 2;
    var b2 := Transition(b1, vote).after;
    assert b2.state == Some(NewState) && b2.votes == 3;
    var b3 := Transition(b2, possess).after;
    assert b3.state == Some(AssignedState) && b3.owner == Some("bob");
    var b4 := Transition(b3, fix).after;
    assert b4.state == Some(ResolvedState);
    var b5 := Transition(b4, reopen).after;
    assert b5.state == Some(UnconfirmedState) && b5.owner == Some("bob");
    assert Run(b5, []) == b5;
    assert Run(b4, [reopen]) == b5;
    assert Run(b3, [fix, reopen]) == b5;
    assert Run(b2, [possess, fix, reopen]) == b5;
    assert Run(b1, [vote, possess, fix, reopen]) == b5;
  }

  /**
   * A full walk through the states: a bug reported by alice gets id 0, two votes make it New with three votes,
   * bob takes possession, FIXED makes it Resolved, VERIFIED closes it with the resolution kept, and
   * reopening the unconfirmed bug returns it to Unconfirmed with no resolution.
   */
  lemma FullWalk()
    ensures var vote := Command(Vote, None, None, None);
      var b0 := Reported(0, "Crash on save", "alice");
      var b2 := Run(b0, [vote, vote]);
      var b3 := Run(b2, [Command(Possession, Some("bob"), None, None)]);
      var b4 := Run(b3, [Command(Resolved, None, Some(Fixed), None)]);
      var b5 := Run(b4, [Command(Verified, None, None, None)]);
      var b6 := Run(b5, [Command(Reopen, None, None, None)]);
      && b0.bugId == 0 && b0.state == Some(UnconfirmedState) && b0.votes == 1
      && b2.votes == 3 && b2.state == Some(NewState) && b2.owner.None?
      && b3.state == Some(AssignedState) && b3.owner == Some("bob")
      && b4.state == Some(ResolvedState) && b4.resolution == Some(Fixed)
      && b5.state == Some(ClosedState) && b5.resolution == Some(Fixed)
      && b6.state == Some(UnconfirmedState) && b6.resolution.None?
  {
    var vote := Command(Vote, None, None, None);
    var b0 := Reported(0, "Crash on save", "alice");
    var b1 := Transition(b0, vote).after;
    assert Run(b1, [vote]) == Transition(b1, vote).after;
  }

  // ----- records read from a file -----------------------------------------------------------------

  /**
   * The record constructor drops the resolution, so a Resolved or Closed record loads into a bug
   * whose resolution lookup dereferences null.
   */
  lemma LoadedClosedBugLosesResolution(rec: StoredBug, counter: int)
    requires rec.state == ResolvedName || rec.state == ClosedName
    ensures Loaded(rec, counter).resolution.None?
    ensures ResolutionString(Loaded(rec, counter)) == Failure(NullPointer)
  {
  }

  /** A record with an unknown state name loads into a bug with no state, which no command can update. */
  lemma UnknownStateCannotBeUpdated(rec: StoredBug, counter: int, c: Command)
    requires StateNamed(rec.state).None?
    ensures Transition(Loaded(rec, counter), c) == Step(Loaded(rec, counter), Fail(NullPointer))
  {
  }
}

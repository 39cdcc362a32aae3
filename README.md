# Bug tracker lifecycle in Dafny

This project models the core of a small bug tracker and proves what it promises. The core has four parts:

- A tracked bug moves through six states: Unconfirmed, New, Assigned, Resolved, Reopen and Closed. Each state has a handler for the user's commands.
- A command is a validated value object: an action (VOTE, POSSESSION, RESOLVED, VERIFIED, REOPEN or CONFIRM), an optional developer id, an optional resolution and an optional note.
- A bug list holds the bugs and drives the shared id counter. Creating a list resets the counter, reporting a bug advances it, and loading stored records sets it one past the largest id.
- The tracker model holds the current list. It projects the list into tables of id, state name and summary, either for every bug or for one owner's bugs.

## Modules

- `Failures` (`failures.dfy`) holds `Option`, `Result` and `Outcome`. They stand in for Java's null and for the three exceptions the core throws: IllegalArgumentException, UnsupportedOperationException and NullPointerException.
- `Commands` (`commands.dfy`) holds the `Command` datatype and its validating constructor `NewCommand`. A command is immutable because it is a datatype, which has no setters.
- `Bugs` (`bugs.dfy`) holds the bug's fields and the transition table:
  - `BugRecord` is a bug's fields as a value.
  - `Transition` is the transition table as a pure function.
  - `Counter` models the static id counter as one explicit shared object.
  - `TrackedBug` is a class whose per-state handler methods update the bug's fields in place. Every handler, and `Update`, which dispatches on the state, is proved to leave the fields exactly as `Transition` says.
- `BugLifecycle` (`bug_lifecycle.dfy`) holds what the transition table promises, one command at a time and over any history of validated commands. The history results rest on the invariant `WellFormed` and the change relation `Evolves`.
- `Tracker` (`bug_list.dfy`) holds the `BugList` class. Each of its loops is proved against a specification function over the bugs' fields:
  - `LoadAll` specifies loading records;
  - `OwnedBy` specifies the owner filter;
  - `ApplyToId` specifies sending a command;
  - `DeleteSkipping` specifies deleting.
- `BugListFacts` (`bug_list_facts.dfy`) holds the properties of those specification functions.
- `TrackerModel` (`tracker_model.dfy`) holds the `BugTrackerModel` class and its table projections. The tables are specified by `Table` and `OwnedRecords`.

## Behaviour of the code worth knowing

- Legality is checked before the note is logged (TrackedBug.java:315-320, and the matching lines of every handler), so a rejected command changes nothing (`BugLifecycle.RejectedExactlyWhenNotAccepted`). In New and Assigned the note is logged before the field checks, so a command that fails those checks still leaves its note (`BugLifecycle.FieldChecksFollowLogging`).
- The `owner != null` branches of VOTE and CONFIRM in Unconfirmed (TrackedBug.java:324 and 332) are reachable: VOTE, VOTE, POSSESSION, RESOLVED FIXED, REOPEN returns an unconfirmed bug to Unconfirmed with its owner kept (`BugLifecycle.OwnerBranchesReachable`).
- Stored records do not round-trip (TrackedBug.java:85-111). The record constructor adds the counter to the stored id (line 101), never copies the resolution (line 105 writes the record's own value back into the record) and leaves the state unset for an unknown state name (lines 86-98). The model keeps these behaviours (`Bugs.Loaded`, `BugLifecycle.LoadedClosedBugLosesResolution`, `BugLifecycle.UnknownStateCannotBeUpdated`).
- `deleteBugById` (BugList.java:122-128) removes an element inside an ascending index loop, so it never examines the bug that moves into the freed slot. With unique ids, which the counter guarantees for reported bugs, this does not matter: `BugListFacts.DeleteUniqueId` shows that exactly the one bug goes and the order of the rest is kept. With two adjacent bugs of the same id, one survives (`BugListFacts.AdjacentDuplicateSurvives`).

## Model

All source paths are under `BugTracker/src/edu/ncsu/csc216/bug_tracker/`.

| member | source | states |
|---|---|---|
| Commands.NewCommand | BugTracker/src/edu/ncsu/csc216/bug_tracker/bug/Command.java:34-47 | Construction fails, always with IllegalArgumentException, exactly when the action is null or the command is invalid (RESOLVED without a resolution, or POSSESSION without a non-empty developer id). Otherwise the command keeps all four arguments as given. |
| Commands.ConstructedCommandsAreTheValidOnes | BugTracker/src/edu/ncsu/csc216/bug_tracker/bug/Command.java:34-47 | Constructing from a command's own fields returns that command if and only if the command is valid. |
| Commands.NoOtherValidation | BugTracker/src/edu/ncsu/csc216/bug_tracker/bug/Command.java:34-47 | Any action other than RESOLVED and POSSESSION is accepted whatever its developer id, resolution and note, including nulls. |
| Commands.ResolutionNamesDistinct | BugTracker/src/edu/ncsu/csc216/bug_tracker/bug/Command.java:11-17 | The four resolution wire names are pairwise distinct. |
| Bugs.StateName | BugTracker/src/edu/ncsu/csc216/bug_tracker/bug/TrackedBug.java:343-515 | Each state reports its own name, the constant of that state; `BugLifecycle.StateNamesDistinct` and `BugLifecycle.StateNamesRoundTrip` state that the names are distinct and select their state again. |
| Bugs.StateNamed | BugTracker/src/edu/ncsu/csc216/bug_tracker/bug/TrackedBug.java:273-287 | The state the name-keyed setter selects reports exactly that name. |
| Bugs.ResolutionNamed | BugTracker/src/edu/ncsu/csc216/bug_tracker/bug/TrackedBug.java:293-305 | The resolution the name-keyed setter selects has exactly that wire name. |
| Bugs.ResolutionAfter | BugTracker/src/edu/ncsu/csc216/bug_tracker/bug/TrackedBug.java:293-305 | A null name clears the resolution. Any change to the resolution sets one whose wire name is the given name. An unknown name changes nothing. |
| Bugs.ResolutionString | BugTracker/src/edu/ncsu/csc216/bug_tracker/bug/TrackedBug.java:156-169 | The lookup dereferences null exactly for a Resolved or Closed bug without a resolution. It returns null exactly outside Resolved and Closed. Otherwise it returns the wire name that maps back to the bug's resolution. |
| Bugs.NotesText | BugTracker/src/edu/ncsu/csc216/bug_tracker/bug/TrackedBug.java:207-213 | The notes listing is every note followed by the separator line, in order; `Bugs.NotesTextAppend` states how it grows. |
| Bugs.NotesTextAppend | BugTracker/src/edu/ncsu/csc216/bug_tracker/bug/TrackedBug.java:207-213 | One more note extends the notes listing by exactly that note and the separator line. |
| Bugs.Accepts | BugTracker/src/edu/ncsu/csc216/bug_tracker/bug/TrackedBug.java:312-516 | The legality tests of the six handlers (lines 315, 356, 383, 424, 456 and 497): Unconfirmed accepts VOTE and CONFIRM, New POSSESSION, Assigned RESOLVED, Resolved VERIFIED and REOPEN, Reopen POSSESSION and RESOLVED, Closed REOPEN; `BugLifecycle.RejectedExactlyWhenNotAccepted` ties it to the rejection. |
| Bugs.Transition | BugTracker/src/edu/ncsu/csc216/bug_tracker/bug/TrackedBug.java:312-516 | The transition table of the six handlers: the new fields and the outcome of one command on a bug. Its properties are the `BugLifecycle` lemmas below, and every `update` handler is proved equal to it. |
| Bugs.Counter.constructor | BugTracker/src/edu/ncsu/csc216/bug_tracker/bug/TrackedBug.java:50 | The counter starts at 0. |
| Bugs.Counter.Increment | BugTracker/src/edu/ncsu/csc216/bug_tracker/bug/TrackedBug.java:116-118 | The counter goes up by exactly one. |
| Bugs.Counter.Set | BugTracker/src/edu/ncsu/csc216/bug_tracker/bug/TrackedBug.java:124-126 | The counter takes the given value. |
| Bugs.TrackedBug.constructor | BugTracker/src/edu/ncsu/csc216/bug_tracker/bug/TrackedBug.java:69-79 | A reported bug is Unconfirmed with one vote, unconfirmed, with no owner, no resolution and no notes. Its id is the counter's value, and the counter is only read. |
| Bugs.TrackedBug.FromStored | BugTracker/src/edu/ncsu/csc216/bug_tracker/bug/TrackedBug.java:85-111 | The loaded bug has the fields `Loaded` gives: the id shifted by the counter, the named state or none, and no resolution. |
| Bugs.TrackedBug.GetNotesString | BugTracker/src/edu/ncsu/csc216/bug_tracker/bug/TrackedBug.java:207-213 | The loop builds the listing of every note, each followed by the separator, in order. |
| Bugs.TrackedBug.Update | BugTracker/src/edu/ncsu/csc216/bug_tracker/bug/TrackedBug.java:265-267 | Dispatching to the current state's handler leaves the fields and the outcome exactly as the transition table gives them. A bug with no state dereferences null. |
| Bugs.TrackedBug.SetState | BugTracker/src/edu/ncsu/csc216/bug_tracker/bug/TrackedBug.java:273-287 | A known name selects its state. An unknown name leaves the state as it was. |
| Bugs.TrackedBug.SetResolution | BugTracker/src/edu/ncsu/csc216/bug_tracker/bug/TrackedBug.java:293-305 | The resolution becomes `ResolutionAfter` of the old one and the name. |
| Bugs.TrackedBug.LogNote | BugTracker/src/edu/ncsu/csc216/bug_tracker/bug/TrackedBug.java:318-320 | A present note is appended at the end. An absent one changes nothing. |
| Bugs.TrackedBug.SetClosingResolution | BugTracker/src/edu/ncsu/csc216/bug_tracker/bug/TrackedBug.java:399-405 | A non-FIXED reason becomes the resolution. A null reason leaves the resolution as it was. |
| Bugs.TrackedBug.UpdateUnconfirmed | BugTracker/src/edu/ncsu/csc216/bug_tracker/bug/TrackedBug.java:312-346 | The Unconfirmed handler does exactly what the transition table says for this state. |
| Bugs.TrackedBug.UpdateNew | BugTracker/src/edu/ncsu/csc216/bug_tracker/bug/TrackedBug.java:353-373 | The New handler does exactly what the transition table says for this state. |
| Bugs.TrackedBug.UpdateAssigned | BugTracker/src/edu/ncsu/csc216/bug_tracker/bug/TrackedBug.java:380-414 | The Assigned handler does exactly what the transition table says for this state. |
| Bugs.TrackedBug.UpdateResolved | BugTracker/src/edu/ncsu/csc216/bug_tracker/bug/TrackedBug.java:421-446 | The Resolved handler does exactly what the transition table says for this state. |
| Bugs.TrackedBug.UpdateReopen | BugTracker/src/edu/ncsu/csc216/bug_tracker/bug/TrackedBug.java:453-487 | The Reopen handler does exactly what the transition table says for this state. |
| Bugs.TrackedBug.UpdateClosed | BugTracker/src/edu/ncsu/csc216/bug_tracker/bug/TrackedBug.java:494-516 | The Closed handler does exactly what the transition table says for this state. |
| BugLifecycle.StateNamesRoundTrip | BugTracker/src/edu/ncsu/csc216/bug_tracker/bug/TrackedBug.java:273-287 | Setting the state by a state's own name selects that state. |
| BugLifecycle.StateNamesDistinct | BugTracker/src/edu/ncsu/csc216/bug_tracker/bug/TrackedBug.java:36-46 | The six state names are pairwise distinct. |
| BugLifecycle.ResolutionNamesRoundTrip | BugTracker/src/edu/ncsu/csc216/bug_tracker/bug/TrackedBug.java:293-305 | Setting the resolution by a resolution's wire name selects that resolution, whatever was there before. |
| BugLifecycle.ReportedIsWellFormed | BugTracker/src/edu/ncsu/csc216/bug_tracker/bug/TrackedBug.java:69-79 | A reported bug satisfies the lifecycle invariant. |
| BugLifecycle.RejectedExactlyWhenNotAccepted | BugTracker/src/edu/ncsu/csc216/bug_tracker/bug/TrackedBug.java:312-516 | UnsupportedOperationException happens exactly for an action the state does not accept. The rejected bug is unchanged, notes included. |
| BugLifecycle.AcceptedActionLogsNote | BugTracker/src/edu/ncsu/csc216/bug_tracker/bug/TrackedBug.java:312-516 | An accepted action appends its note, if present, once at the end and keeps the earlier notes. |
| BugLifecycle.FieldChecksFollowLogging | BugTracker/src/edu/ncsu/csc216/bug_tracker/bug/TrackedBug.java:355-409 | POSSESSION without a developer id on a New bug, or RESOLVED without a resolution on an Assigned bug, logs the note. It then throws IllegalArgumentException and changes nothing else. |
| BugLifecycle.VoteOnUnconfirmed | BugTracker/src/edu/ncsu/csc216/bug_tracker/bug/TrackedBug.java:321-330 | VOTE adds exactly one vote. At the threshold of 3 the bug goes to New without an owner and to Assigned with one; below the threshold it stays Unconfirmed. Owner, confirmed and resolution stay. |
| BugLifecycle.ConfirmOnUnconfirmed | BugTracker/src/edu/ncsu/csc216/bug_tracker/bug/TrackedBug.java:331-340 | CONFIRM confirms the bug. The bug goes to New without an owner, to Assigned with an owner when a developer id is given, and otherwise stays Unconfirmed. Votes stay. |
| BugLifecycle.PossessionAssigns | BugTracker/src/edu/ncsu/csc216/bug_tracker/bug/TrackedBug.java:353-487 | POSSESSION with a developer id on a New or Reopen bug makes that developer the owner and the bug Assigned. |
| BugLifecycle.ResolveBranches | BugTracker/src/edu/ncsu/csc216/bug_tracker/bug/TrackedBug.java:380-487 | RESOLVED with FIXED goes to Resolved with FIXED; any other reason goes to Closed with that reason. The owner stays. |
| BugLifecycle.VerifyCloses | BugTracker/src/edu/ncsu/csc216/bug_tracker/bug/TrackedBug.java:430-432 | VERIFIED closes a Resolved bug and keeps its resolution. |
| BugLifecycle.ReopenClearsResolution | BugTracker/src/edu/ncsu/csc216/bug_tracker/bug/TrackedBug.java:433-510 | REOPEN on a Resolved or Closed bug clears the resolution. The bug goes to Reopen if confirmed and to Unconfirmed otherwise. The owner stays. |
| BugLifecycle.TransitionPreservesWellFormed | BugTracker/src/edu/ncsu/csc216/bug_tracker/bug/TrackedBug.java:312-516 | A validated command keeps the invariant. Id, summary and reporter stay, votes never drop, confirmation never reverts, and earlier notes stay in front. |
| BugLifecycle.UnvalidatedPossessionLosesOwner | BugTracker/src/edu/ncsu/csc216/bug_tracker/bug/TrackedBug.java:463-466 | Without command validation, POSSESSION with no developer id on a Reopen bug yields an Assigned bug with no owner. |
| BugLifecycle.RunPreservesWellFormed | BugTracker/src/edu/ncsu/csc216/bug_tracker/bug/TrackedBug.java:265-267 | Any history of validated commands keeps the invariant and the permitted-change relation. |
| BugLifecycle.ResolutionStringDefined | BugTracker/src/edu/ncsu/csc216/bug_tracker/bug/TrackedBug.java:156-169 | For a well-formed bug the resolution lookup never dereferences null, and it returns a name exactly in Resolved and Closed. |
| BugLifecycle.ReportedBugsStayWellFormed | BugTracker/src/edu/ncsu/csc216/bug_tracker/bug/TrackedBug.java:69-79 | A reported bug under any history of validated commands keeps its id, summary and reporter. It keeps at least one vote, and its resolution lookup is always defined. |
| BugLifecycle.OwnerBranchesReachable | BugTracker/src/edu/ncsu/csc216/bug_tracker/bug/TrackedBug.java:321-340 | A concrete history reaches Unconfirmed with an owner, where VOTE and CONFIRM take their owner branches. |
| BugLifecycle.FullWalk | BugTracker/src/edu/ncsu/csc216/bug_tracker/bug/TrackedBug.java:312-516 | A concrete walk gives the expected state, votes, owner and resolution at every step: report, vote twice, take possession, fix, verify, reopen. |
| BugLifecycle.LoadedClosedBugLosesResolution | BugTracker/src/edu/ncsu/csc216/bug_tracker/bug/TrackedBug.java:105 | A Resolved or Closed record loads without its resolution, so the bug's resolution lookup dereferences null. |
| BugLifecycle.UnknownStateCannotBeUpdated | BugTracker/src/edu/ncsu/csc216/bug_tracker/bug/TrackedBug.java:86-98 | A record with an unknown state name loads with no state. Every command then dereferences null and changes nothing. |
| Tracker.MaxId | BugTracker/src/edu/ncsu/csc216/bug_tracker/tracker/BugList.java:53-59 | The result is at least 0 and at least every id, and it is either 0 or one of the ids. |
| Tracker.LoadAll | BugTracker/src/edu/ncsu/csc216/bug_tracker/tracker/BugList.java:48-52 | The bugs loaded from a run of records: one per present record, in order, with null records skipped; `BugListFacts.LoadAllSkipsNulls` and `BugListFacts.LoadAllFromRecords` state this. |
| Tracker.OwnedBy | BugTracker/src/edu/ncsu/csc216/bug_tracker/tracker/BugList.java:77-89 | The bugs whose owner is set and equal to the given owner, in list order; `BugListFacts.OwnedByMembers` states membership both ways. |
| Tracker.ApplyToId | BugTracker/src/edu/ncsu/csc216/bug_tracker/tracker/BugList.java:110-116 | The command sent front to back to every bug with the id, stopping at the first update that throws; the `BugListFacts.ApplyTo` lemmas state its effect. |
| Tracker.DeleteSkipping | BugTracker/src/edu/ncsu/csc216/bug_tracker/tracker/BugList.java:122-128 | Deletion as the index loop does it: a removed bug's successor is passed over unexamined; `BugListFacts.DeleteUniqueId` and `BugListFacts.AdjacentDuplicateSurvives` state its effect. |
| Tracker.BugList.constructor | BugTracker/src/edu/ncsu/csc216/bug_tracker/tracker/BugList.java:24-27 | A new list is empty and resets the shared counter to 0. |
| Tracker.BugList.AddBug | BugTracker/src/edu/ncsu/csc216/bug_tracker/tracker/BugList.java:35-40 | One reported bug is appended at the end with the old counter as its id, which no earlier bug has. Earlier bugs are unchanged, the counter goes up by one, and the id is returned. |
| Tracker.BugList.AddXMLBugs | BugTracker/src/edu/ncsu/csc216/bug_tracker/tracker/BugList.java:46-62 | A null list changes nothing. Otherwise one bug per present record is appended in order, and the counter becomes one past the largest id of the whole list, or 1. |
| Tracker.BugList.AppendLoaded | BugTracker/src/edu/ncsu/csc216/bug_tracker/tracker/BugList.java:48-52 | The loop appends exactly `LoadAll` of the records and keeps the earlier bugs in front. |
| Tracker.BugList.LoadRecord | BugTracker/src/edu/ncsu/csc216/bug_tracker/tracker/BugList.java:49-51 | One record is loaded: a present record appends its bug and a null one is skipped. |
| Tracker.BugList.GetBugsByOwner | BugTracker/src/edu/ncsu/csc216/bug_tracker/tracker/BugList.java:77-89 | A null owner is rejected with IllegalArgumentException. Otherwise the result is the owner's bugs in list order, and the list is not modified. |
| Tracker.BugList.GetBugById | BugTracker/src/edu/ncsu/csc216/bug_tracker/tracker/BugList.java:96-103 | The result is the first bug with the id, or null exactly when no bug has it. |
| Tracker.BugList.ExecuteCommand | BugTracker/src/edu/ncsu/csc216/bug_tracker/tracker/BugList.java:110-116 | Every bug with the id is updated front to back until one update throws. The new fields and the outcome are `ApplyToId` of the old fields. |
| Tracker.BugList.Visit | BugTracker/src/edu/ncsu/csc216/bug_tracker/tracker/BugList.java:112-114 | One step of the walk updates the bug at the index when its id matches and extends the walk's specification by that bug. |
| Tracker.BugList.DeleteBugById | BugTracker/src/edu/ncsu/csc216/bug_tracker/tracker/BugList.java:122-128 | The list becomes `DeleteSkipping` of the old list, and the list invariant is kept. |
| Tracker.DeleteStepRemoves | BugTracker/src/edu/ncsu/csc216/bug_tracker/tracker/BugList.java:124-126 | Removing a matching bug at the index skips the bug that moves into its slot. |
| Tracker.DeleteStepKeeps | BugTracker/src/edu/ncsu/csc216/bug_tracker/tracker/BugList.java:123-124 | A bug with another id stays, and the index moves past it. |
| Tracker.DeleteSkippingKeeps | BugTracker/src/edu/ncsu/csc216/bug_tracker/tracker/BugList.java:122-128 | Deleting only removes bugs and keeps distinct bugs distinct. |
| Tracker.DeleteKeepsValid | BugTracker/src/edu/ncsu/csc216/bug_tracker/tracker/BugList.java:122-128 | Deleting keeps the bugs distinct and every id below the counter. |
| Tracker.StopAfterFailure | BugTracker/src/edu/ncsu/csc216/bug_tracker/tracker/BugList.java:110-116 | Once an update throws, the list holds the walked prefix followed by the untouched rest, as `ApplyToId` says. |
| Tracker.ApplyAfterFailure | BugTracker/src/edu/ncsu/csc216/bug_tracker/tracker/BugList.java:110-116 | After a failure the walk passes over the remaining bugs unchanged and keeps the failure. |
| BugListFacts.OwnedByMembers | BugTracker/src/edu/ncsu/csc216/bug_tracker/tracker/BugList.java:77-89 | A bug is in the owner's list if and only if it is in the list and its owner is set and equal. |
| BugListFacts.OwnedByConcat | BugTracker/src/edu/ncsu/csc216/bug_tracker/tracker/BugList.java:77-89 | Filtering a concatenation filters each part, so the list order is kept. |
| BugListFacts.LoadAllConcat | BugTracker/src/edu/ncsu/csc216/bug_tracker/tracker/BugList.java:48-52 | Loading two runs of records loads the first run's bugs, then the second's. |
| BugListFacts.LoadAllSkipsNulls | BugTracker/src/edu/ncsu/csc216/bug_tracker/tracker/BugList.java:48-52 | One bug is loaded per present record, and all-null records load nothing. |
| BugListFacts.LoadAllFromRecords | BugTracker/src/edu/ncsu/csc216/bug_tracker/tracker/BugList.java:48-52 | Every loaded bug comes from a present record and has no resolution. |
| BugListFacts.ApplyToIdKeepsOthers | BugTracker/src/edu/ncsu/csc216/bug_tracker/tracker/BugList.java:110-116 | Sending a command keeps the length and every id, and leaves each bug with another id unchanged. |
| BugListFacts.TransitionKeepsId | BugTracker/src/edu/ncsu/csc216/bug_tracker/bug/TrackedBug.java:265-267 | An update never changes the bug's id. |
| BugListFacts.ApplyToAbsentId | BugTracker/src/edu/ncsu/csc216/bug_tracker/tracker/BugList.java:110-116 | A command sent to an id no bug has is a no-op that succeeds. |
| BugListFacts.ApplyToFirstHolder | BugTracker/src/edu/ncsu/csc216/bug_tracker/tracker/BugList.java:110-116 | Up to the first bug with the id, only that bug changes, by its transition. |
| BugListFacts.ApplyToUniqueId | BugTracker/src/edu/ncsu/csc216/bug_tracker/tracker/BugList.java:110-116 | A command sent to an id exactly one bug has updates that bug by its transition, changes nothing else, and returns its outcome. |
| BugListFacts.ApplyToIdRest | BugTracker/src/edu/ncsu/csc216/bug_tracker/tracker/BugList.java:110-116 | Bugs after the last holder of the id pass unchanged. |
| BugListFacts.ApplyToIdUpdatesAll | BugTracker/src/edu/ncsu/csc216/bug_tracker/tracker/BugList.java:110-116 | When no update throws, every bug with the id has taken its transition. |
| BugListFacts.DeleteAbsentId | BugTracker/src/edu/ncsu/csc216/bug_tracker/tracker/BugList.java:122-128 | Deleting an id no bug has leaves the list unchanged. |
| BugListFacts.DeleteUniqueId | BugTracker/src/edu/ncsu/csc216/bug_tracker/tracker/BugList.java:122-128 | Deleting an id exactly one bug has removes exactly that bug and keeps the order of the rest. |
| BugListFacts.AdjacentDuplicateSurvives | BugTracker/src/edu/ncsu/csc216/bug_tracker/tracker/BugList.java:122-128 | Of two neighbouring bugs with the deleted id, the second survives. |
| TrackerModel.Table | BugTracker/src/edu/ncsu/csc216/bug_tracker/tracker/BugTrackerModel.java:82-96 | A table that fails always fails with a null dereference. A table that succeeds has one line per bug. |
| TrackerModel.TableLines | BugTracker/src/edu/ncsu/csc216/bug_tracker/tracker/BugTrackerModel.java:82-96 | The table fails exactly when some bug has no state. Otherwise line `k` is the id, state name and summary of bug `k`. |
| TrackerModel.TableGrows | BugTracker/src/edu/ncsu/csc216/bug_tracker/tracker/BugTrackerModel.java:84-94 | One more bug with a state adds its line at the end. |
| TrackerModel.TableFailsAt | BugTracker/src/edu/ncsu/csc216/bug_tracker/tracker/BugTrackerModel.java:89 | A bug with no state anywhere in the list fails the whole table with a null dereference. |
| TrackerModel.WellFormedBugsHaveRows | BugTracker/src/edu/ncsu/csc216/bug_tracker/tracker/BugTrackerModel.java:82-96 | The table of well-formed bugs never fails. |
| TrackerModel.OwnedRecords | BugTracker/src/edu/ncsu/csc216/bug_tracker/tracker/BugTrackerModel.java:103-130 | The owner's bugs whose lines the owner table holds, in list order; `TrackerModel.OwnedRecordsMembers` and `TrackerModel.OwnedRecordsOfOwnedBy` state which bugs they are. |
| TrackerModel.OwnedRecordsMembers | BugTracker/src/edu/ncsu/csc216/bug_tracker/tracker/BugTrackerModel.java:115-128 | A bug is among the owner's if and only if it is in the list and its owner is set and equal. |
| TrackerModel.OwnedRecordsCount | BugTracker/src/edu/ncsu/csc216/bug_tracker/tracker/BugTrackerModel.java:107-113 | The first pass counts exactly as many bugs as the second pass selects, and no more than the list has. |
| TrackerModel.OwnerCountPrefix | BugTracker/src/edu/ncsu/csc216/bug_tracker/tracker/BugTrackerModel.java:107-113 | A prefix of the list never has more of the owner's bugs than the whole list. |
| TrackerModel.OwnedRecordsOfOwnedBy | BugTracker/src/edu/ncsu/csc216/bug_tracker/tracker/BugTrackerModel.java:103-130 | The owner's table shows the same bugs, in the same order, as the list's owner filter. |
| TrackerModel.FillSkips | BugTracker/src/edu/ncsu/csc216/bug_tracker/tracker/BugTrackerModel.java:117 | A bug of another owner adds no line. |
| TrackerModel.FillFails | BugTracker/src/edu/ncsu/csc216/bug_tracker/tracker/BugTrackerModel.java:121 | One of the owner's bugs with no state fails the owner's table with a null dereference. |
| TrackerModel.FillAdds | BugTracker/src/edu/ncsu/csc216/bug_tracker/tracker/BugTrackerModel.java:117-125 | One of the owner's bugs with a state adds its line, and the fill index stays below the first-pass count. |
| TrackerModel.BugTrackerModel.constructor | BugTracker/src/edu/ncsu/csc216/bug_tracker/tracker/BugTrackerModel.java:24-26 | The model starts with a fresh empty list, and the counter is reset to 0. |
| TrackerModel.BugTrackerModel.CreateNewBugList | BugTracker/src/edu/ncsu/csc216/bug_tracker/tracker/BugTrackerModel.java:73-76 | A fresh empty list is installed and the counter is 0, so the next reported bugs get ids 0, 1, and so on. |
| TrackerModel.BugTrackerModel.GetBugListAsArray | BugTracker/src/edu/ncsu/csc216/bug_tracker/tracker/BugTrackerModel.java:82-96 | The result is a fresh array equal to `Table` of the list: one line of id, state name and summary per bug in list order. A bug with no state gives a null dereference. |
| TrackerModel.BugTrackerModel.GetBugListByOwnerAsArray | BugTracker/src/edu/ncsu/csc216/bug_tracker/tracker/BugTrackerModel.java:103-130 | A null owner is rejected with IllegalArgumentException. Otherwise the result is `Table` of the owner's bugs in list order. |
| TrackerModel.BugTrackerModel.CountOwned | BugTracker/src/edu/ncsu/csc216/bug_tracker/tracker/BugTrackerModel.java:107-112 | The first pass counts exactly the bugs whose owner is set and equal. |
| TrackerModel.BugTrackerModel.FillOwnerTable | BugTracker/src/edu/ncsu/csc216/bug_tracker/tracker/BugTrackerModel.java:113-129 | The second pass fills a table of the counted size with the owner's lines in list order, with the index never passing the count. |
| TrackerModel.BugTrackerModel.FillNext | BugTracker/src/edu/ncsu/csc216/bug_tracker/tracker/BugTrackerModel.java:116-127 | One bug of the second pass fills the next row, is passed over, or fails the table. The rows filled so far stay equal to the owner's table of the bugs seen. |
| TrackerModel.BugTrackerModel.GetBugById | BugTracker/src/edu/ncsu/csc216/bug_tracker/tracker/BugTrackerModel.java:137-139 | The lookup delegates to the list: the first bug with the id, or null. |
| TrackerModel.BugTrackerModel.ExecuteCommand | BugTracker/src/edu/ncsu/csc216/bug_tracker/tracker/BugTrackerModel.java:146-148 | An unknown id dereferences null and changes no bug. Otherwise the command goes to every bug with the id, as the list does. |
| TrackerModel.BugTrackerModel.DeleteBugById | BugTracker/src/edu/ncsu/csc216/bug_tracker/tracker/BugTrackerModel.java:154-156 | Deletion delegates to the list. |
| TrackerModel.BugTrackerModel.AddBugToList | BugTracker/src/edu/ncsu/csc216/bug_tracker/tracker/BugTrackerModel.java:163-165 | Adding delegates to the list: one reported bug with the old counter as its id is appended, and the counter goes up by one. |

## Left out

- Reading and writing the bug file (`saveBugsToFile`, `loadBugsFromFile`, `getXMLBug`) is left out. The file reader is represented by its result, a sequence of optional `StoredBug` records given to `AddXMLBugs`.
- The Swing user interface is left out.
- The `getInstance` singleton is left out. The model is an ordinary object. The static counter is one explicit `Counter` object shared by the list and the model.
- Exception messages are left out. Each exception is represented by its kind only.
- Java's 32-bit `int` is not modelled. Ids, votes and the counter are unbounded integers, so wrap-around after 2^31 - 1 bugs or votes is not captured.
- Summary, reporter and state-name strings are never null in the model. A null state name in a stored record would make the Java constructor throw, and that path is not modelled.
- The notes list shared between a loaded bug and its record (Java reference aliasing) is not modelled. The bug gets its own copy of the notes.
- The `Object[][]` tables are modelled as an array of `Row` values. The inner three-column loop is collapsed into one row write. When a bug with no state throws halfway, the cells already written are not modelled, because the exception discards the table.
- TrackerModel.BugTrackerModel.GetBugListAsArray: specified against the list as it stood at the call (`old(Records())`). The method changes nothing, so the two are equal.
- TrackerModel.BugTrackerModel.GetBugListByOwnerAsArray: the source's two passes are split into the helper methods `CountOwned` and `FillOwnerTable`.
- Tracker.BugList.DeleteBugById: the loop removes from a local copy of the sequence and stores it back once at the end. Java removes from the list in place, with the same result.
- The getters of `TrackedBug` and `Command` are represented by field access.

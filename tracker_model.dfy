/** The tracker's front object: the current bug list, its table views and the commands on it. */
module TrackerModel {
  import opened Failures
  import opened Commands
  import opened Bugs
  import opened Tracker
  import opened BugListFacts
  import opened BugLifecycle

  /** One line of a bug table: the id, the state's name and the summary. */
  datatype Row = Row(bugId: int, stateName: string, summary: string)

  /** The table line of a bug whose state is set. */
  function RowOf(b: BugRecord): Row
    requires b.state.Some?
  {
    Row(b.bugId, StateName(b.state.value), b.summary)
  }

  /**
   * The table of a sequence of bugs, one line per bug in order; asking a bug with no state for its
   * state's name is a null dereference.
   */
  function Table(rs: seq<BugRecord>): (r: Result<seq<Row>>)
    ensures r.Failure? ==> r.error == NullPointer
    ensures r.Success? ==> |r.value| == |rs|
  {
    if rs == [] then Success([])
    else
      var last := rs[|rs| - 1];
      match Table(rs[..|rs| - 1])
      case Failure(e) => Failure(e)
      case Success(rows) => if last.state.None? then Failure(NullPointer) else Success(rows + [RowOf(last)])
  }

  /** The bugs whose owner is set and equal to `owner`, in order. */
  function OwnedRecords(rs: seq<BugRecord>, owner: string): seq<BugRecord>
  {
    if rs == [] then []
    else
      var last := rs[|rs| - 1];
      OwnedRecords(rs[..|rs| - 1], owner) + (if last.owner == Some(owner) then [last] else [])
  }

  /** The number of bugs whose owner is set and equal to `owner`. */
  function OwnerCount(rs: seq<BugRecord>, owner: string): nat
  {
    if rs == [] then 0
    else OwnerCount(rs[..|rs| - 1], owner) + (if rs[|rs| - 1].owner == Some(owner) then 1 else 0)
  }

  /**
   * The table fails, with a null dereference, exactly when some bug has no state; otherwise it has
   * one line per bug and line `k` shows bug `k`.
   */
  lemma {:induction false} TableLines(rs: seq<BugRecord>)
    ensures Table(rs).Failure? <==> exists k :: 0 <= k < |rs| && rs[k].state.None?
    ensures Table(rs).Failure? ==> Table(rs).error == NullPointer
    ensures Table(rs).Success? ==>
      |Table(rs).value| == |rs| && forall k :: 0 <= k < |rs| ==> rs[k].state.Some? && Table(rs).value[k] == RowOf(rs[k])
    decreases |rs|
  {
    if rs != [] {
      var front := rs[..|rs| - 1];
      TableLines(front);
      if Table(front).Failure? {
        var k :| 0 <= k < |front| && front[k].state.None?;
        assert rs[k] == front[k];
      }
    }
  }

  /** One more bug with a state adds its line to the table of the bugs before it. */
  lemma TableGrows(rs: seq<BugRecord>, i: int, rows: seq<Row>)
    requires 0 <= i < |rs| && rs[i].state.Some? && Table(rs[..i]) == Success(rows)
    ensures Table(rs[..i + 1]) == Success(rows + [RowOf(rs[i])])
  {
    var p := rs[..i + 1];
    assert p[..|p| - 1] == rs[..i] && p[|p| - 1] == rs[i];
  }

  /** A bug with no state anywhere in the list fails the whole table with a null dereference. */
  lemma {:induction false} TableFailsAt(rs: seq<BugRecord>, i: int)
    requires 0 <= i < |rs| && rs[i].state.None?
    ensures Table(rs) == Failure(NullPointer)
    decreases |rs|
  {
    var front := rs[..|rs| - 1];
    if i < |front| {
      assert front[i] == rs[i];
      TableFailsAt(front, i);
    }
  }

  /** The bugs of a user-created history always have a state, so their table never fails. */
  lemma WellFormedBugsHaveRows(rs: seq<BugRecord>)
    requires forall k :: 0 <= k < |rs| ==> WellFormed(rs[k])
    ensures Table(rs).Success?
  {
    TableLines(rs);
  }

  /** A bug is among the owner's exactly when it is in the list and its owner is set and equal. */
  lemma {:induction false} OwnedRecordsMembers(rs: seq<BugRecord>, owner: string, r: BugRecord)
    ensures r in OwnedRecords(rs, owner) <==> r in rs && r.owner == Some(owner)
    decreases |rs|
  {
    if rs != [] {
      var front := rs[..|rs| - 1];
      OwnedRecordsMembers(front, owner, r);
      assert rs == front + [rs[|rs| - 1]];
    }
  }

  /** The first pass counts exactly the bugs the second pass selects, and no more than the list has. */
  lemma {:induction false} OwnedRecordsCount(rs: seq<BugRecord>, owner: string)
    ensures |OwnedRecords(rs, owner)| == OwnerCount(rs, owner) <= |rs|
    decreases |rs|
  {
    if rs != [] {
      OwnedRecordsCount(rs[..|rs| - 1], owner);
    }
  }

  /** A prefix of the list never has more of the owner's bugs than the whole list. */
  lemma {:induction false} OwnerCountPrefix(rs: seq<BugRecord>, owner: string, i: int)
    requires 0 <= i <= |rs|
    ensures OwnerCount(rs[..i], owner) <= OwnerCount(rs, owner)
    decreases |rs| - i
  {
    if i < |rs| {
      OwnerCountPrefix(rs, owner, i + 1);
      assert rs[..i + 1][..i] == rs[..i];
    } else {
      assert rs[..i] == rs;
    }
  }

  /** The owner's table shows the same bugs, in the same order, as the list's own owner filter. */
  lemma {:induction false} OwnedRecordsOfOwnedBy(bs: seq<TrackedBug>, owner: string)
    ensures OwnedRecords(RecordsOf(bs), owner) == RecordsOf(OwnedBy(bs, owner))
    decreases |bs|
  {
    if bs != [] {
      var front := bs[..|bs| - 1];
      var last := bs[|bs| - 1];
      OwnedRecordsOfOwnedBy(front, owner);
      assert bs == front + [last];
      RecordsOfAppend(front, last);
      assert RecordsOf(bs)[..|bs| - 1] == RecordsOf(front);
      if last.owner == Some(owner) {
        RecordsOfAppend(OwnedBy(front, owner), last);
      } else {
        assert OwnedBy(bs, owner) == OwnedBy(front, owner) + [];
        assert OwnedBy(front, owner) + [] == OwnedBy(front, owner);
      }
    }
  }

  /** A bug of another owner adds no line to the owner's table. */
  lemma FillSkips(rs: seq<BugRecord>, owner: string, i: int, rows: seq<Row>)
    requires 0 <= i < |rs| && rs[i].owner != Some(owner) && Table(OwnedRecords(rs[..i], owner)) == Success(rows)
    ensures Table(OwnedRecords(rs[..i + 1], owner)) == Success(rows)
  {
    var p := rs[..i + 1];
    assert p[..|p| - 1] == rs[..i] && p[|p| - 1] == rs[i];
    assert OwnedRecords(p, owner) == OwnedRecords(rs[..i], owner) + [];
    assert OwnedRecords(rs[..i], owner) + [] == OwnedRecords(rs[..i], owner);
  }

  /** One of the owner's bugs with no state fails the owner's whole table. */
  lemma FillFails(rs: seq<BugRecord>, owner: string, i: int)
    requires 0 <= i < |rs| && rs[i].owner == Some(owner) && rs[i].state.None?
    ensures Table(OwnedRecords(rs, owner)) == Failure(NullPointer)
  {
    OwnedRecordsMembers(rs, owner, rs[i]);
    var j :| 0 <= j < |OwnedRecords(rs, owner)| && OwnedRecords(rs, owner)[j] == rs[i];
    TableFailsAt(OwnedRecords(rs, owner), j);
  }

  /** One of the owner's bugs with a state adds its line, which still fits in the counted table. */
  lemma FillAdds(rs: seq<BugRecord>, owner: string, i: int, rows: seq<Row>)
    requires 0 <= i < |rs| && rs[i].owner == Some(owner) && rs[i].state.Some?
    requires Table(OwnedRecords(rs[..i], owner)) == Success(rows)
    ensures Table(OwnedRecords(rs[..i + 1], owner)) == Success(rows + [RowOf(rs[i])])
    ensures |rows| < OwnerCount(rs, owner)
  {
    var p := rs[..i + 1];
    var owned := OwnedRecords(rs[..i], owner);
    assert p[..|p| - 1] == rs[..i] && p[|p| - 1] == rs[i];
    assert OwnedRecords(p, owner) == owned + [rs[i]];
    TableGrows(owned + [rs[i]], |owned|, rows);
    assert (owned + [rs[i]])[..|owned|] == owned && (owned + [rs[i]])[..|owned| + 1] == owned + [rs[i]];
    OwnedRecordsCount(p, owner);
    OwnerCountPrefix(rs, owner, i + 1);
  }

  class BugTrackerModel {
    var bugList: BugList
    const counter: Counter

    /** The list drives this model's counter and keeps its own invariant. */
    ghost predicate Valid()
      reads this, bugList, counter
    {
      bugList.counter == counter && bugList.Valid()
    }

    /** The fields of every bug of the current list, in order. */
    ghost function Records(): seq<BugRecord>
      reads this, bugList, bugList.bugs
    {
      bugList.Records()
    }

    /** The model starts with an empty list, which resets the counter. */
    constructor (counter: Counter)
      modifies counter
      ensures Valid() && this.counter == counter
      ensures fresh(bugList) && bugList.bugs == [] && counter.value == 0
    {
      this.counter := counter;
      bugList := new BugList(counter);
    }

    /** Installs a new empty list and resets the counter, so the next bugs get ids 0, 1, and so on. */
    method CreateNewBugList()
      requires Valid()
      modifies this, counter
      ensures Valid()
      ensures fresh(bugList) && bugList.bugs == [] && counter.value == 0
    {
      bugList := new BugList(counter);
      counter.Set(0);
    }

    /** The table of every bug: one line per bug, in list order, or a null dereference. */
    method GetBugListAsArray() returns (r: Result<array<Row>>)
      ensures r.Failure? ==> Table(old(Records())) == Failure(r.error)
      ensures r.Success? ==> fresh(r.value) && Table(old(Records())) == Success(r.value[..])
    {
      var bugs := bugList.bugs;
      ghost var rs := Records();
      forall k | 0 <= k < |bugs|
        ensures bugs[k].state == rs[k].state
        ensures bugs[k].bugId == rs[k].bugId && bugs[k].summary == rs[k].summary
      {
        RecordsOfAt(bugs, k);
      }
      var table := new Row[|bugs|];
      ghost var rows: seq<Row> := [];
      var i := 0;
      while i < |bugs|
        invariant 0 <= i <= |bugs|
        invariant |rows| == i && forall k :: 0 <= k < i ==> table[k] == rows[k]
        invariant Table(rs[..i]) == Success(rows)
      {
        if bugs[i].state.None? {
          TableFailsAt(rs, i);
          return Failure(NullPointer);
        }
        TableGrows(rs, i, rows);
        table[i] := Row(bugs[i].bugId, StateName(bugs[i].state.value), bugs[i].summary);
        rows := rows + [RowOf(rs[i])];
        i := i + 1;
      }
      assert rs[..i] == rs && table[..] == rows;
      r := Success(table);
    }

    /**
     * The table of one owner's bugs: a null owner is rejected; otherwise the lines are counted in a
     * first pass and filled in a second.
     */
    method GetBugListByOwnerAsArray(owner: Option<string>) returns (r: Result<array<Row>>)
      ensures owner.None? ==> r == Failure(IllegalArgument)
      ensures owner.Some? && r.Failure? ==> Table(OwnedRecords(old(Records()), owner.value)) == Failure(r.error)
      ensures owner.Some? && r.Success? ==>
        fresh(r.value) && Table(OwnedRecords(old(Records()), owner.value)) == Success(r.value[..])
    {
      if owner.None? {
        return Failure(IllegalArgument);
      }
      var ownerCount := CountOwned(owner.value);
      r := FillOwnerTable(owner.value, ownerCount);
    }

    /** The first pass of the owner's table: the number of bugs whose owner is set and equal. */
    method CountOwned(owner: string) returns (ownerCount: nat)
      ensures ownerCount == OwnerCount(Records(), owner)
    {
      var bugs := bugList.bugs;
      ghost var rs := Records();
      forall k | 0 <= k < |bugs| ensures bugs[k].Record() == rs[k] {
        RecordsOfAt(bugs, k);
      }
      ownerCount := 0;
      var i := 0;
      while i < |bugs|
        invariant 0 <= i <= |bugs|
        invariant ownerCount == OwnerCount(rs[..i], owner)
      {
        assert rs[..i + 1][..i] == rs[..i];
        if bugs[i].owner.Some? && bugs[i].owner.value == owner {
          ownerCount := ownerCount + 1;
        }
        i := i + 1;
      }
      assert rs[..i] == rs;
    }

    /**
     * The second pass of the owner's table: a table of the counted size, filled with the owner's
     * bugs in list order through an index that never passes the count.
     */
    method FillOwnerTable(owner: string, ownerCount: nat) returns (r: Result<array<Row>>)
      requires ownerCount == OwnerCount(Records(), owner)
      ensures r.Failure? ==> Table(OwnedRecords(old(Records()), owner)) == Failure(r.error)
      ensures r.Success? ==> fresh(r.value) && Table(OwnedRecords(old(Records()), owner)) == Success(r.value[..])
    {
      var bugs := bugList.bugs;
      ghost var rs := Records();
      forall k | 0 <= k < |bugs| ensures bugs[k].Record() == rs[k] {
        RecordsOfAt(bugs, k);
      }
      var table := new Row[ownerCount];
      ghost var rows: seq<Row> := [];
      var activeRow := 0;
      var i := 0;
      while i < |bugs|
        invariant 0 <= i <= |bugs|
        invariant activeRow == |rows| <= table.Length
        invariant forall k :: 0 <= k < activeRow ==> table[k] == rows[k]
        invariant Table(OwnedRecords(rs[..i], owner)) == Success(rows)
      {
        var failed;
        activeRow, failed, rows := FillNext(table, owner, rs, i, bugs[i], activeRow, rows);
        if failed {
          return Failure(NullPointer);
        }
        i := i + 1;
      }
      assert Table(OwnedRecords(rs, owner)) == Success(rows) && |rows| == ownerCount by {
        assert rs[..i] == rs;
        OwnedRecordsCount(rs, owner);
      }
      assert table[..] == rows;
      r := Success(table);
    }

    /**
     * One bug of the second pass: a bug of another owner is passed over, one of the owner's bugs
     * fills the next row, and one of the owner's bugs with no state fails the table.
     */
    static method FillNext(table: array<Row>, owner: string, ghost rs: seq<BugRecord>, i: int, b: TrackedBug,
                           activeRow: int, ghost rows: seq<Row>)
      returns (next: int, failed: bool, ghost rows': seq<Row>)
      requires 0 <= i < |rs| && b.Record() == rs[i] && table.Length == OwnerCount(rs, owner)
      requires activeRow == |rows| <= table.Length && forall k :: 0 <= k < activeRow ==> table[k] == rows[k]
      requires Table(OwnedRecords(rs[..i], owner)) == Success(rows)
      modifies table
      ensures failed ==> Table(OwnedRecords(rs, owner)) == Failure(NullPointer)
      ensures !failed ==> next == |rows'| <= table.Length && forall k :: 0 <= k < next ==> table[k] == rows'[k]
      ensures !failed ==> Table(OwnedRecords(rs[..i + 1], owner)) == Success(rows')
    {
      next, failed, rows' := activeRow, false, rows;
      if b.owner.Some? && b.owner.value == owner {
        if b.state.None? {
          FillFails(rs, owner, i);
          return activeRow, true, rows;
        }
        FillAdds(rs, owner, i, rows);
        table[activeRow] := Row(b.bugId, StateName(b.state.value), b.summary);
        next, rows' := activeRow + 1, rows + [RowOf(rs[i])];
      } else {
        FillSkips(rs, owner, i, rows);
      }
    }

    /** The first bug of the list with the id, or null. */
    method GetBugById(id: int) returns (r: Option<TrackedBug>)
      ensures r.Some? ==> r.value in bugList.bugs && r.value.bugId == id
      ensures r.None? <==> forall i :: 0 <= i < |bugList.bugs| ==> bugList.bugs[i].bugId != id
      ensures r.Some? ==> exists i :: 0 <= i < |bugList.bugs| && bugList.bugs[i] == r.value && bugList.bugs[i].bugId == id
                                      && forall j :: 0 <= j < i ==> bugList.bugs[j].bugId != id
    {
      r := bugList.GetBugById(id);
    }

    /**
     * Sends a command to the bug with the id: the id is looked up first, and an id no bug has makes
     * the lookup's null result throw before anything changes.
     */
    method ExecuteCommand(id: int, c: Command) returns (outcome: Outcome)
      requires Valid()
      modifies bugList.bugs
      ensures Valid()
      ensures (forall i :: 0 <= i < |bugList.bugs| ==> bugList.bugs[i].bugId != id) ==>
        outcome == Fail(NullPointer) && unchanged(bugList.bugs)
      ensures (exists i :: 0 <= i < |bugList.bugs| && bugList.bugs[i].bugId == id) ==>
        Batch(Records(), outcome) == ApplyToId(old(Records()), id, c)
    {
      var found := bugList.GetBugById(id);
      if found.None? {
        return Fail(NullPointer);
      }
      outcome := bugList.ExecuteCommand(found.value.bugId, c);
    }

    /** Deletes bugs with the id, as the list does. */
    method DeleteBugById(id: int)
      requires Valid()
      modifies bugList
      ensures Valid()
      ensures bugList.bugs == DeleteSkipping(old(bugList.bugs), id)
    {
      bugList.DeleteBugById(id);
    }

    /** Reports a bug into the current list, which gives it the counter's value as its id. */
    method AddBugToList(summary: string, reporter: string)
      requires Valid()
      modifies bugList, counter
      ensures Valid()
      ensures counter.value == old(counter.value) + 1
      ensures Records() == old(Records()) + [Reported(old(counter.value), summary, reporter)]
    {
      var _ := bugList.AddBug(summary, reporter);
    }
  }

}

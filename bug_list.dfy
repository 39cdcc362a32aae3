/** The list of tracked bugs, which drives the shared id counter. */
module Tracker {
  import opened Failures
  import opened Commands
  import opened Bugs

  /** The fields of a sequence of bugs, in order. */
  function RecordsOf(bs: seq<TrackedBug>): (rs: seq<BugRecord>)
    reads bs
    ensures |rs| == |bs|
  {
    if bs == [] then [] else [bs[0].Record()] + RecordsOf(bs[1..])
  }

  /** Position `i` of the fields is the fields of the bug at position `i`. */
  lemma {:induction false} RecordsOfAt(bs: seq<TrackedBug>, i: int)
    requires 0 <= i < |bs|
    ensures RecordsOf(bs)[i] == bs[i].Record()
    decreases |bs|
  {
    if i > 0 {
      RecordsOfAt(bs[1..], i - 1);
    }
  }

  /** The fields of a sequence of bugs are determined position by position. */
  lemma RecordsOfIs(bs: seq<TrackedBug>, rs: seq<BugRecord>)
    requires |bs| == |rs| && forall k :: 0 <= k < |bs| ==> bs[k].Record() == rs[k]
    ensures RecordsOf(bs) == rs
  {
    forall k | 0 <= k < |bs| ensures RecordsOf(bs)[k] == rs[k] {
      RecordsOfAt(bs, k);
    }
  }

  /** Appending a bug appends its fields. */
  lemma RecordsOfAppend(bs: seq<TrackedBug>, b: TrackedBug)
    ensures RecordsOf(bs + [b]) == RecordsOf(bs) + [b.Record()]
  {
    var r := RecordsOf(bs) + [b.Record()];
    forall k | 0 <= k < |bs| + 1 ensures (bs + [b])[k].Record() == r[k] {
      if k < |bs| {
        RecordsOfAt(bs, k);
      }
    }
    RecordsOfIs(bs + [b], r);
  }

  /** No bug object occurs twice. */
  predicate Distinct(bs: seq<TrackedBug>)
  {
    forall i, j :: 0 <= i < j < |bs| ==> bs[i] != bs[j]
  }

  lemma DistinctAppend(bs: seq<TrackedBug>, b: TrackedBug)
    requires Distinct(bs) && b !in bs
    ensures Distinct(bs + [b])
  {
  }

  /** The larger of zero and every id in the sequence. */
  function MaxId(bs: seq<TrackedBug>): (m: int)
    ensures 0 <= m
    ensures forall i :: 0 <= i < |bs| ==> bs[i].bugId <= m
    ensures m == 0 || exists i :: 0 <= i < |bs| && bs[i].bugId == m
  {
    if bs == [] then 0
    else
      var m := MaxId(bs[..|bs| - 1]);
      if bs[|bs| - 1].bugId > m then bs[|bs| - 1].bugId else m
  }

  /** The bugs read from a list of records, one per present record, in order. */
  function LoadAll(recs: seq<Option<StoredBug>>, counter: int): seq<BugRecord>
  {
    if recs == [] then []
    else
      var last := recs[|recs| - 1];
      LoadAll(recs[..|recs| - 1], counter) + (if last.Some? then [Loaded(last.value, counter)] else [])
  }

  /** The bugs owned by `owner`, in list order. */
  function OwnedBy(bs: seq<TrackedBug>, owner: string): seq<TrackedBug>
    reads bs
  {
    if bs == [] then []
    else
      var last := bs[|bs| - 1];
      OwnedBy(bs[..|bs| - 1], owner) + (if last.owner == Some(owner) then [last] else [])
  }

  /** The fields of a list after a command was sent to every bug with an id, and how that ended. */
  datatype Batch = Batch(records: seq<BugRecord>, outcome: Outcome)

  /**
   * A command sent to every bug with id `id`, front to back; the first bug whose update throws ends
   * the walk, so the bugs after it are not updated.
   */
  function ApplyToId(rs: seq<BugRecord>, id: int, c: Command): Batch
  {
    if rs == [] then Batch([], Pass)
    else
      var done := ApplyToId(rs[..|rs| - 1], id, c);
      var last := rs[|rs| - 1];
      if done.outcome.Fail? || last.bugId != id then Batch(done.records + [last], done.outcome)
      else
        var step := Transition(last, c);
        Batch(done.records + [step.after], step.outcome)
  }

  /**
   * The list left by deleting `id` the way the source does: removing an element inside an ascending
   * index loop, so the element that moves into the freed slot is never examined.
   */
  function DeleteSkipping(bs: seq<TrackedBug>, id: int): seq<TrackedBug>
  {
    if bs == [] then []
    else if bs[0].bugId != id then [bs[0]] + DeleteSkipping(bs[1..], id)
    else if |bs| == 1 then []
    else [bs[1]] + DeleteSkipping(bs[2..], id)
  }

  class BugList {
    var bugs: seq<TrackedBug>
    const counter: Counter

    /** No bug occurs twice, and every id is below the counter, so the next reported bug's id is new. */
    ghost predicate Valid()
      reads this, counter
    {
      && Distinct(bugs)
      && (forall i :: 0 <= i < |bugs| ==> bugs[i].bugId < counter.value)
    }

    /** The fields of every bug, in list order. */
    ghost function Records(): seq<BugRecord>
      reads this, bugs
    {
      RecordsOf(bugs)
    }

    /** A new list is empty and resets the shared counter to zero. */
    constructor (counter: Counter)
      modifies counter
      ensures Valid()
      ensures this.counter == counter && bugs == [] && counter.value == 0
    {
      this.counter := counter;
      bugs := [];
      new;
      counter.Set(0);
    }

    /**
     * Reports a bug: it goes at the end with the counter's value as its id, which no bug of the list
     * has, and the counter advances by one.
     */
    method AddBug(summary: string, reporter: string) returns (id: int)
      requires Valid()
      modifies this, counter
      ensures Valid()
      ensures id == old(counter.value) && counter.value == old(counter.value) + 1
      ensures |bugs| == |old(bugs)| + 1 && bugs[..|old(bugs)|] == old(bugs) && fresh(bugs[|old(bugs)|])
      ensures Records() == old(Records()) + [Reported(id, summary, reporter)]
      ensures forall i :: 0 <= i < |old(bugs)| ==> old(bugs)[i].bugId != id
    {
      var b := new TrackedBug(summary, reporter, counter);
      RecordsOfAppend(bugs, b);
      bugs := bugs + [b];
      counter.Increment();
      id := b.bugId;
      assert bugs[..|old(bugs)|] == old(bugs);
    }

    /**
     * Loads records: nothing happens for a null list; otherwise one bug per non-null record is
     * appended in order, and the counter is set one past the largest id in the whole list (or to 1).
     */
    method AddXMLBugs(xmlBugs: Option<seq<Option<StoredBug>>>)
      requires Valid()
      modifies this, counter
      ensures Valid()
      ensures xmlBugs.None? ==> bugs == old(bugs) && counter.value == old(counter.value)
      ensures xmlBugs.Some? ==> |old(bugs)| <= |bugs| && bugs[..|old(bugs)|] == old(bugs)
      ensures xmlBugs.Some? ==> Records() == old(Records()) + LoadAll(xmlBugs.value, old(counter.value))
      ensures xmlBugs.Some? ==> counter.value == MaxId(bugs) + 1
    {
      if xmlBugs.Some? {
        AppendLoaded(xmlBugs.value);
        var maxId := 0;
        var j := 0;
        while j < |bugs|
          invariant 0 <= j <= |bugs|
          invariant maxId == MaxId(bugs[..j])
        {
          assert bugs[..j + 1][..j] == bugs[..j];
          if bugs[j].bugId > maxId {
            maxId := bugs[j].bugId;
          }
          j := j + 1;
        }
        assert bugs[..j] == bugs;
        counter.Set(maxId + 1);
      }
    }

    /** The first half of loading: one new bug per non-null record, appended in order. */
    method AppendLoaded(recs: seq<Option<StoredBug>>)
      requires Distinct(bugs)
      modifies this
      ensures Distinct(bugs)
      ensures |old(bugs)| <= |bugs| && bugs[..|old(bugs)|] == old(bugs)
      ensures Records() == old(Records()) + LoadAll(recs, counter.value)
    {
      ghost var before := bugs;
      ghost var records := Records();
      ghost var cv := counter.value;
      ghost var added: seq<TrackedBug> := [];
      assert before + added == before;
      assert recs[..0] == [];
      var i := 0;
      while i < |recs|
        invariant 0 <= i <= |recs| && counter.value == cv
        invariant bugs == before + added
        invariant Distinct(bugs)
        invariant RecordsOf(bugs) == records + LoadAll(recs[..i], cv)
      {
        ghost var extra := LoadRecord(recs, i, records);
        assert before + added + extra == before + (added + extra);
        added := added + extra;
        i := i + 1;
      }
      assert recs[..i] == recs;
      assert (before + added)[..|before|] == before;
    }

    /** Appends the bug of record `i` when it is present; a null record is skipped. */
    method LoadRecord(recs: seq<Option<StoredBug>>, i: int, ghost records: seq<BugRecord>)
      returns (ghost extra: seq<TrackedBug>)
      requires 0 <= i < |recs|
      requires Distinct(bugs) && RecordsOf(bugs) == records + LoadAll(recs[..i], counter.value)
      modifies this
      ensures Distinct(bugs) && bugs == old(bugs) + extra
      ensures RecordsOf(bugs) == records + LoadAll(recs[..i + 1], counter.value)
    {
      LoadAllPrefix(recs, i + 1, counter.value);
      if recs[i].Some? {
        var b := new TrackedBug.FromStored(recs[i].value, counter);
        AppendOne(bugs, b, records, LoadAll(recs[..i], counter.value));
        DistinctAppend(bugs, b);
        bugs := bugs + [b];
        extra := [b];
      } else {
        extra := [];
        assert bugs == old(bugs) + extra;
      }
    }

    /** The bugs owned by `owner`, in list order; a null owner is rejected. */
    method GetBugsByOwner(owner: Option<string>) returns (r: Result<seq<TrackedBug>>)
      ensures owner.None? ==> r == Failure(IllegalArgument)
      ensures owner.Some? ==> r == Success(OwnedBy(bugs, owner.value))
    {
      if owner.None? {
        return Failure(IllegalArgument);
      }
      var byOwner: seq<TrackedBug> := [];
      var i := 0;
      while i < |bugs|
        invariant 0 <= i <= |bugs|
        invariant byOwner == OwnedBy(bugs[..i], owner.value)
      {
        assert bugs[..i + 1][..i] == bugs[..i];
        var current := bugs[i];
        if current.owner.Some? && current.owner.value == owner.value {
          byOwner := byOwner + [current];
        }
        i := i + 1;
      }
      assert bugs[..i] == bugs;
      r := Success(byOwner);
    }

    /** The first bug with id `id`, or null when there is none. */
    method GetBugById(id: int) returns (r: Option<TrackedBug>)
      ensures r.Some? ==> r.value in bugs && r.value.bugId == id
      ensures r.None? <==> forall i :: 0 <= i < |bugs| ==> bugs[i].bugId != id
      ensures r.Some? ==> exists i :: 0 <= i < |bugs| && bugs[i] == r.value && bugs[i].bugId == id
                                       && forall j :: 0 <= j < i ==> bugs[j].bugId != id
    {
      var i := 0;
      while i < |bugs|
        invariant 0 <= i <= |bugs|
        invariant forall j :: 0 <= j < i ==> bugs[j].bugId != id
      {
        if bugs[i].bugId == id {
          return Some(bugs[i]);
        }
        i := i + 1;
      }
      r := None;
    }

    /** Sends a command to every bug with id `id`; the first one that throws ends the walk. */
    method ExecuteCommand(id: int, c: Command) returns (outcome: Outcome)
      requires Valid()
      modifies bugs
      ensures Valid()
      ensures Batch(Records(), outcome) == ApplyToId(old(Records()), id, c)
    {
      ghost var start := Records();
      forall k | 0 <= k < |bugs| ensures bugs[k].Record() == start[k] {
        RecordsOfAt(bugs, k);
      }
      ghost var done: seq<BugRecord> := [];
      var i := 0;
      while i < |bugs|
        invariant Valid() && 0 <= i <= |bugs| && |done| == i
        invariant forall k :: 0 <= k < i ==> bugs[k].Record() == done[k]
        invariant forall k :: i <= k < |bugs| ==> bugs[k].Record() == start[k]
        invariant ApplyToId(start[..i], id, c) == Batch(done, Pass)
      {
        var o;
        o, done := Visit(i, id, c, start, done);
        if o.Fail? {
          StopAfterFailure(bugs, start, done, i, id, c);
          return o;
        }
        i := i + 1;
      }
      assert start[..i] == start;
      RecordsOfIs(bugs, done);
      outcome := Pass;
    }

    /** One step of the walk: the bug at position `i` is updated when it has id `id`. */
    method Visit(i: int, id: int, c: Command, ghost start: seq<BugRecord>, ghost done: seq<BugRecord>)
      returns (o: Outcome, ghost done': seq<BugRecord>)
      requires Distinct(bugs) && 0 <= i < |bugs| == |start| && |done| == i
      requires forall k :: 0 <= k < i ==> bugs[k].Record() == done[k]
      requires forall k :: i <= k < |bugs| ==> bugs[k].Record() == start[k]
      requires ApplyToId(start[..i], id, c) == Batch(done, Pass)
      modifies bugs[i]
      ensures |done'| == i + 1
      ensures forall k :: 0 <= k <= i ==> bugs[k].Record() == done'[k]
      ensures forall k :: i < k < |bugs| ==> bugs[k].Record() == start[k]
      ensures ApplyToId(start[..i + 1], id, c) == Batch(done', o)
    {
      assert start[..i + 1][..i] == start[..i];
      o := Pass;
      if bugs[i].bugId == id {
        o := bugs[i].Update(c);
      }
      done' := done + [bugs[i].Record()];
    }

    /** Deletes bugs with id `id` the way the source's removing loop does. */
    method DeleteBugById(id: int)
      requires Valid()
      modifies this
      ensures Valid()
      ensures bugs == DeleteSkipping(old(bugs), id)
    {
      var list := bugs;
      ghost var rest := list;
      var i := 0;
      while i < |list|
        invariant 0 <= i <= |list| + 1
        invariant i <= |list| ==> list[i..] == rest
        invariant i <= |list| ==> list[..i] + DeleteSkipping(rest, id) == DeleteSkipping(old(bugs), id)
        invariant i == |list| + 1 ==> list == DeleteSkipping(old(bugs), id)
        decreases |list| - i + 1
      {
        if list[i].bugId == id {
          DeleteStepRemoves(list, i, rest, id);
          if |rest| >= 2 {
            rest := rest[2..];
          }
          list := list[..i] + list[i + 1..];
        } else {
          DeleteStepKeeps(list, i, rest, id);
          rest := rest[1..];
        }
        i := i + 1;
      }
      if i == |list| {
        assert list[..i] == list;
      }
      assert list == DeleteSkipping(old(bugs), id);
      bugs := list;
      DeleteKeepsValid(old(bugs), id, counter.value);
    }
  }

  /** Removing a bug with the id at `i` skips its successor, as the index moves on past it. */
  lemma DeleteStepRemoves(bs: seq<TrackedBug>, i: int, rest: seq<TrackedBug>, id: int)
    requires 0 <= i < |bs| && bs[i..] == rest && bs[i].bugId == id
    ensures |rest| >= 2 ==>
      && (bs[..i] + bs[i + 1..])[i + 1..] == rest[2..]
      && (bs[..i] + bs[i + 1..])[..i + 1] + DeleteSkipping(rest[2..], id) == bs[..i] + DeleteSkipping(rest, id)
    ensures |rest| < 2 ==> bs[..i] + bs[i + 1..] == bs[..i] + DeleteSkipping(rest, id) && |rest| == 1
  {
    assert rest[0] == bs[i];
    if |rest| >= 2 {
      assert bs[i + 1..] == [rest[1]] + rest[2..];
      assert (bs[..i] + bs[i + 1..])[..i + 1] == bs[..i] + [rest[1]];
    } else {
      assert bs[i + 1..] == [];
    }
  }

  /** A bug with another id stays, and the index moves on to its successor. */
  lemma DeleteStepKeeps(bs: seq<TrackedBug>, i: int, rest: seq<TrackedBug>, id: int)
    requires 0 <= i < |bs| && bs[i..] == rest && bs[i].bugId != id
    ensures bs[i + 1..] == rest[1..]
    ensures bs[..i + 1] + DeleteSkipping(rest[1..], id) == bs[..i] + DeleteSkipping(rest, id)
  {
    assert rest[0] == bs[i];
    assert bs[..i + 1] == bs[..i] + [bs[i]];
  }

  /** Deleting keeps the bugs distinct and every id below the counter. */
  lemma DeleteKeepsValid(bs: seq<TrackedBug>, id: int, bound: int)
    requires Distinct(bs) && forall j :: 0 <= j < |bs| ==> bs[j].bugId < bound
    ensures Distinct(DeleteSkipping(bs, id))
    ensures forall j :: 0 <= j < |DeleteSkipping(bs, id)| ==> DeleteSkipping(bs, id)[j].bugId < bound
  {
    DeleteSkippingKeeps(bs, id);
    forall j | 0 <= j < |DeleteSkipping(bs, id)| ensures DeleteSkipping(bs, id)[j].bugId < bound {
      assert DeleteSkipping(bs, id)[j] in bs;
    }
  }

  /** Deleting keeps only bugs of the list, and no bug twice. */
  lemma {:induction false} DeleteSkippingKeeps(bs: seq<TrackedBug>, id: int)
    ensures forall x :: x in DeleteSkipping(bs, id) ==> x in bs
    ensures Distinct(bs) ==> Distinct(DeleteSkipping(bs, id))
    decreases |bs|
  {
    if bs == [] {
    } else if bs[0].bugId != id {
      DeleteSkippingKeeps(bs[1..], id);
      DistinctCons(bs[0], bs[1..]);
      DistinctCons(bs[0], DeleteSkipping(bs[1..], id));
    } else if |bs| == 1 {
    } else {
      DeleteSkippingKeeps(bs[2..], id);
      assert bs == [bs[0]] + ([bs[1]] + bs[2..]);
      DistinctCons(bs[0], [bs[1]] + bs[2..]);
      DistinctCons(bs[1], bs[2..]);
      DistinctCons(bs[1], DeleteSkipping(bs[2..], id));
    }
  }

  /** A bug followed by a sequence is distinct exactly when the sequence is and lacks that bug. */
  lemma DistinctCons(b: TrackedBug, bs: seq<TrackedBug>)
    ensures Distinct([b] + bs) <==> b !in bs && Distinct(bs)
  {
    if b !in bs && Distinct(bs) {
      forall i, j | 0 <= i < j < |[b] + bs| ensures ([b] + bs)[i] != ([b] + bs)[j] {
        if i > 0 {
          assert ([b] + bs)[i] == bs[i - 1];
        }
        assert ([b] + bs)[j] == bs[j - 1];
      }
    }
    if Distinct([b] + bs) {
      forall i, j | 0 <= i < j < |bs| ensures bs[i] != bs[j] {
        assert bs[i] == ([b] + bs)[i + 1];
        assert bs[j] == ([b] + bs)[j + 1];
      }
      forall k | 0 <= k < |bs| ensures bs[k] != b {
        assert ([b] + bs)[0] == b && ([b] + bs)[k + 1] == bs[k];
      }
    }
  }

  /** A list whose prefix was updated and whose rest is untouched. */
  lemma RecordsAfterStop(bs: seq<TrackedBug>, start: seq<BugRecord>, done: seq<BugRecord>, i: int)
    requires 0 <= i < |start| == |bs| && |done| == i + 1
    requires forall k :: 0 <= k <= i ==> bs[k].Record() == done[k]
    requires forall k :: i < k < |bs| ==> bs[k].Record() == start[k]
    ensures RecordsOf(bs) == done + start[i + 1..]
  {
    forall k | 0 <= k < |bs| ensures bs[k].Record() == (done + start[i + 1..])[k] {
      if k > i {
        assert (done + start[i + 1..])[k] == start[k];
      }
    }
    RecordsOfIs(bs, done + start[i + 1..]);
  }

  /**
   * Once the update at position `i` has thrown, the list holds the updated prefix followed by the
   * untouched rest, as the specification of the walk says.
   */
  lemma StopAfterFailure(bs: seq<TrackedBug>, start: seq<BugRecord>, done: seq<BugRecord>, i: int, id: int, c: Command)
    requires 0 <= i < |start| == |bs| && |done| == i + 1
    requires ApplyToId(start[..i + 1], id, c).outcome.Fail?
    requires ApplyToId(start[..i + 1], id, c).records == done
    requires forall k :: 0 <= k <= i ==> bs[k].Record() == done[k]
    requires forall k :: i < k < |bs| ==> bs[k].Record() == start[k]
    ensures ApplyToId(start, id, c) == Batch(RecordsOf(bs), ApplyToId(start[..i + 1], id, c).outcome)
  {
    ApplyAfterFailure(start[..i + 1], start[i + 1..], id, c);
    assert start[..i + 1] + start[i + 1..] == start;
    RecordsAfterStop(bs, start, done, i);
  }

  /** Loading one more record appends its bug when the record is present. */
  lemma LoadAllPrefix(recs: seq<Option<StoredBug>>, i: int, counter: int)
    requires 0 <= i <= |recs|
    ensures i == 0 ==> LoadAll(recs[..i], counter) == []
    ensures 0 < i ==>
      LoadAll(recs[..i], counter) ==
      LoadAll(recs[..i - 1], counter) + (if recs[i - 1].Some? then [Loaded(recs[i - 1].value, counter)] else [])
  {
    if 0 < i {
      assert recs[..i][..i - 1] == recs[..i - 1];
    }
  }

  lemma AppendOne(bs: seq<TrackedBug>, b: TrackedBug, records: seq<BugRecord>, loaded: seq<BugRecord>)
    requires RecordsOf(bs) == records + loaded
    ensures RecordsOf(bs + [b]) == records + (loaded + [b.Record()])
  {
    RecordsOfAppend(bs, b);
  }

  /** After an update has thrown, the remaining bugs are passed over unchanged. */
  lemma {:induction false} ApplyAfterFailure(p: seq<BugRecord>, q: seq<BugRecord>, id: int, c: Command)
    requires ApplyToId(p, id, c).outcome.Fail?
    ensures ApplyToId(p + q, id, c) == Batch(ApplyToId(p, id, c).records + q, ApplyToId(p, id, c).outcome)
    decreases |q|
  {
    if q != [] {
      var q' := q[..|q| - 1];
      assert (p + q)[..|p + q| - 1] == p + q';
      ApplyAfterFailure(p, q', id, c);
      assert ApplyToId(p, id, c).records + q' + [q[|q| - 1]] == ApplyToId(p, id, c).records + q;
    } else {
      assert p + q == p;
      assert ApplyToId(p, id, c).records + q == ApplyToId(p, id, c).records;
    }
  }
}

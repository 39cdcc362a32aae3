/** What the list operations promise, stated over the functions that specify them. */
module BugListFacts {
  import opened Failures
  import opened Commands
  import opened Bugs
  import opened Tracker

  // ---------------------------------------------------------------------------------------------
  // Filtering by owner
  // ---------------------------------------------------------------------------------------------

  /** A bug is in the owner's list exactly when it is in the list and its owner is set and equal. */
  lemma {:induction false} OwnedByMembers(bs: seq<TrackedBug>, owner: string, x: TrackedBug)
    ensures x in OwnedBy(bs, owner) <==> x in bs && x.owner == Some(owner)
    decreases |bs|
  {
    if bs != [] {
      var front := bs[..|bs| - 1];
      OwnedByMembers(front, owner, x);
      assert bs == front + [bs[|bs| - 1]];
    }
  }

  /** Filtering a concatenation filters each part, so the owner's bugs keep their list order. */
  lemma {:induction false} OwnedByConcat(bs: seq<TrackedBug>, more: seq<TrackedBug>, owner: string)
    ensures OwnedBy(bs + more, owner) == OwnedBy(bs, owner) + OwnedBy(more, owner)
    decreases |more|
  {
    if more == [] {
      assert bs + more == bs;
    } else {
      var front := more[..|more| - 1];
      var last := more[|more| - 1];
      assert (bs + more)[..|bs + more| - 1] == bs + front;
      OwnedByConcat(bs, front, owner);
    }
  }

  // ---------------------------------------------------------------------------------------------
  // Loading records
  // ---------------------------------------------------------------------------------------------

  /** The number of present records. */
  function PresentCount(recs: seq<Option<StoredBug>>): (n: nat)
    ensures n <= |recs|
  {
    if recs == [] then 0 else PresentCount(recs[..|recs| - 1]) + (if recs[|recs| - 1].Some? then 1 else 0)
  }

  /** Loading two runs of records one after the other loads the first run's bugs, then the second's. */
  lemma {:induction false} LoadAllConcat(recs: seq<Option<StoredBug>>, more: seq<Option<StoredBug>>, counter: int)
    ensures LoadAll(recs + more, counter) == LoadAll(recs, counter) + LoadAll(more, counter)
    decreases |more|
  {
    if more == [] {
      assert recs + more == recs;
    } else {
      var front := more[..|more| - 1];
      assert (recs + more)[..|recs + more| - 1] == recs + front;
      LoadAllConcat(recs, front, counter);
    }
  }

  /** One bug is loaded per present record, and null records are skipped. */
  lemma {:induction false} LoadAllSkipsNulls(recs: seq<Option<StoredBug>>, counter: int)
    ensures |LoadAll(recs, counter)| == PresentCount(recs)
    ensures (forall k :: 0 <= k < |recs| ==> recs[k].None?) ==> LoadAll(recs, counter) == []
    decreases |recs|
  {
    if recs != [] {
      LoadAllSkipsNulls(recs[..|recs| - 1], counter);
    }
  }

  /** Every loaded bug carries its record's id shifted by the counter, its summary and its reporter. */
  lemma {:induction false} LoadAllFromRecords(recs: seq<Option<StoredBug>>, counter: int, r: BugRecord)
    requires r in LoadAll(recs, counter)
    ensures exists k :: 0 <= k < |recs| && recs[k].Some? && r == Loaded(recs[k].value, counter)
    ensures r.resolution.None?
    decreases |recs|
  {
    var front := recs[..|recs| - 1];
    if r in LoadAll(front, counter) {
      LoadAllFromRecords(front, counter, r);
      var k :| 0 <= k < |front| && front[k].Some? && r == Loaded(front[k].value, counter);
      assert recs[k] == front[k];
    } else {
      assert r == Loaded(recs[|recs| - 1].value, counter);
    }
  }

  // ---------------------------------------------------------------------------------------------
  // Sending a command to the bugs with an id
  // ---------------------------------------------------------------------------------------------

  /**
   * The walk keeps the list's length and every id, and leaves every bug with another id exactly
   * as it was.
   */
  lemma {:induction false} ApplyToIdKeepsOthers(rs: seq<BugRecord>, id: int, c: Command)
    ensures |ApplyToId(rs, id, c).records| == |rs|
    ensures forall k :: 0 <= k < |rs| ==> ApplyToId(rs, id, c).records[k].bugId == rs[k].bugId
    ensures forall k :: 0 <= k < |rs| && rs[k].bugId != id ==> ApplyToId(rs, id, c).records[k] == rs[k]
    decreases |rs|
  {
    if rs != [] {
      var front := rs[..|rs| - 1];
      ApplyToIdKeepsOthers(front, id, c);
      var done := ApplyToId(front, id, c);
      var last := rs[|rs| - 1];
      if !(done.outcome.Fail? || last.bugId != id) {
        TransitionKeepsId(last, c);
      }
    }
  }

  lemma TransitionKeepsId(b: BugRecord, c: Command)
    ensures Transition(b, c).after.bugId == b.bugId
  {
  }

  /** A command sent to an id no bug has is a no-op. */
  lemma ApplyToAbsentId(rs: seq<BugRecord>, id: int, c: Command)
    requires forall k :: 0 <= k < |rs| ==> rs[k].bugId != id
    ensures ApplyToId(rs, id, c) == Batch(rs, Pass)
  {
    ApplyToIdRest([], rs, id, c);
    assert [] + rs == rs;
  }

  /** A command sent to an id that exactly one bug has updates that bug and nothing else. */
  lemma ApplyToUniqueId(rs: seq<BugRecord>, k: int, c: Command)
    requires 0 <= k < |rs|
    requires forall j :: 0 <= j < |rs| && j != k ==> rs[j].bugId != rs[k].bugId
    ensures ApplyToId(rs, rs[k].bugId, c) == Batch(rs[k := Transition(rs[k], c).after], Transition(rs[k], c).outcome)
  {
    var id := rs[k].bugId;
    var q := rs[k + 1..];
    ApplyToFirstHolder(rs, k, c);
    assert rs[..k + 1] + q == rs;
    ApplyToIdRest(rs[..k + 1], q, id, c);
    assert rs[..k] + [Transition(rs[k], c).after] + q == rs[k := Transition(rs[k], c).after];
  }

  /** Up to and including the first bug with the id, only that bug changes. */
  lemma ApplyToFirstHolder(rs: seq<BugRecord>, k: int, c: Command)
    requires 0 <= k < |rs|
    requires forall j :: 0 <= j < k ==> rs[j].bugId != rs[k].bugId
    ensures ApplyToId(rs[..k + 1], rs[k].bugId, c)
         == Batch(rs[..k] + [Transition(rs[k], c).after], Transition(rs[k], c).outcome)
  {
    ApplyToAbsentId(rs[..k], rs[k].bugId, c);
    assert rs[..k + 1][..k] == rs[..k];
  }

  /** Bugs after the last one with the id are passed over unchanged, whatever happened before. */
  lemma {:induction false} ApplyToIdRest(p: seq<BugRecord>, q: seq<BugRecord>, id: int, c: Command)
    requires forall j :: 0 <= j < |q| ==> q[j].bugId != id
    ensures ApplyToId(p + q, id, c) == Batch(ApplyToId(p, id, c).records + q, ApplyToId(p, id, c).outcome)
    decreases |q|
  {
    if q == [] {
      assert p + q == p;
      assert ApplyToId(p, id, c).records + q == ApplyToId(p, id, c).records;
    } else {
      var q' := q[..|q| - 1];
      assert (p + q)[..|p + q| - 1] == p + q';
      ApplyToIdRest(p, q', id, c);
      assert ApplyToId(p, id, c).records + q' + [q[|q| - 1]] == ApplyToId(p, id, c).records + q;
    }
  }

  /** When no update throws, every bug with the id has taken the transition. */
  lemma {:induction false} ApplyToIdUpdatesAll(rs: seq<BugRecord>, id: int, c: Command)
    requires ApplyToId(rs, id, c).outcome == Pass
    ensures |ApplyToId(rs, id, c).records| == |rs|
    ensures forall k :: 0 <= k < |rs| && rs[k].bugId == id ==>
      ApplyToId(rs, id, c).records[k] == Transition(rs[k], c).after
    decreases |rs|
  {
    if rs != [] {
      var front := rs[..|rs| - 1];
      ApplyToIdKeepsOthers(front, id, c);
      ApplyToIdUpdatesAll(front, id, c);
    }
  }

  // ---------------------------------------------------------------------------------------------
  // Deleting by id
  // ---------------------------------------------------------------------------------------------

  /** Deleting an id no bug has leaves the list as it was. */
  lemma {:induction false} DeleteAbsentId(bs: seq<TrackedBug>, id: int)
    requires forall k :: 0 <= k < |bs| ==> bs[k].bugId != id
    ensures DeleteSkipping(bs, id) == bs
    decreases |bs|
  {
    if bs != [] {
      DeleteAbsentId(bs[1..], id);
    }
  }

  /** Deleting an id that exactly one bug has removes that bug and keeps the order of the rest. */
  lemma {:induction false} DeleteUniqueId(bs: seq<TrackedBug>, k: int)
    requires 0 <= k < |bs|
    requires forall j :: 0 <= j < |bs| && j != k ==> bs[j].bugId != bs[k].bugId
    ensures DeleteSkipping(bs, bs[k].bugId) == bs[..k] + bs[k + 1..]
    decreases k
  {
    var id := bs[k].bugId;
    if k == 0 {
      if |bs| > 1 {
        DeleteAbsentId(bs[2..], id);
        assert [bs[1]] + bs[2..] == bs[1..];
      }
    } else {
      DeleteUniqueId(bs[1..], k - 1);
      assert bs[1..][k - 1] == bs[k];
      assert [bs[0]] + (bs[1..][..k - 1] + bs[1..][k..]) == bs[..k] + bs[k + 1..];
    }
  }

  /** The bug right after a deleted one is never examined: of two neighbours with the id, one stays. */
  lemma AdjacentDuplicateSurvives(a: TrackedBug, b: TrackedBug)
    requires a.bugId == b.bugId
    ensures DeleteSkipping([a, b], a.bugId) == [b]
  {
    assert [a, b][2..] == [];
  }
}

/** The whole repair with nothing else writing: the scan, then one transaction for each document it found. */
module RepairRun {
  import opened RepairTransaction
  import opened RepairDocument
  import opened RepairScan
  import opened Wrappers

  /** The candidates are the documents with a candidate's content, in id order, with their content. */
  ghost predicate Shows(rows: seq<Candidate>, documents: map<string, Document>, candidate: string -> bool) {
    && Table(rows)
    && (forall i :: 0 <= i < |rows| ==>
          rows[i].id in documents && documents[rows[i].id].content == rows[i].content && candidate(rows[i].content))
    && (forall id :: id in documents && candidate(documents[id].content) ==> HasRow(rows, id))
  }

  predicate HasRow(rows: seq<Candidate>, id: string) { exists i :: 0 <= i < |rows| && rows[i].id == id }

  predicate Dirty(normalize: string -> string, documents: map<string, Document>, id: string) {
    id in documents && normalize(documents[id].content) != documents[id].content
  }

  function Ids(rows: seq<Candidate>): seq<string> { seq(|rows|, i requires 0 <= i < |rows| => rows[i].id) }

  predicate Distinct(ids: seq<string>) { forall i, j :: 0 <= i < j < |ids| ==> ids[i] != ids[j] }

  /** The documents, with those of `ids` repaired that are dirty and await no review. */
  function AfterRun(
      normalize: string -> string, documents: map<string, Document>, proposals: set<string>, ids: seq<string>)
    : map<string, Document>
  {
    map id | id in documents ::
      if id in ids && id !in proposals && normalize(documents[id].content) != documents[id].content
      then RepairedForm(normalize, documents[id], documents[id])
      else documents[id]
  }

  lemma AfterOne(
      normalize: string -> string, documents: map<string, Document>, proposals: set<string>, ids: seq<string>, i: nat)
    requires Distinct(ids) && i < |ids|
    ensures var before := AfterRun(normalize, documents, proposals, ids[..i]);
            && AfterAlone(normalize, before, proposals, ids[i])
                 == AfterRun(normalize, documents, proposals, ids[..i + 1])
            && Alone(normalize, before, proposals, ids[i]) == Alone(normalize, documents, proposals, ids[i])
  {
    assert ids[..i + 1] == ids[..i] + [ids[i]];
    assert ids[i] !in ids[..i];
  }

  /** One transaction after the other; the outcomes are reported in order. */
  method RepairAll(store: Store, normalize: string -> string, ids: seq<string>) returns (outcomes: seq<Outcome>)
    requires Distinct(ids) && store.locks == map[] && store.transactions == map[]
    modifies store
    ensures |outcomes| == |ids|
    ensures forall i :: 0 <= i < |ids| ==>
              outcomes[i] == Alone(normalize, old(store.documents), old(store.proposals), ids[i])
    ensures store.documents == AfterRun(normalize, old(store.documents), old(store.proposals), ids)
    ensures store.proposals == old(store.proposals)
  {
    hide Alone, AfterAlone, AfterRun, Store.Abstract, Step;
    outcomes := [];
    ghost var documents, proposals := store.documents, store.proposals;
    NothingRun(normalize, documents, proposals);
    for i := 0 to |ids|
      invariant |outcomes| == i && store.proposals == proposals && store.locks == map[]
      invariant store.documents == AfterRun(normalize, documents, proposals, ids[..i])
      invariant forall k :: 0 <= k < i ==> outcomes[k] == Alone(normalize, documents, proposals, ids[k])
      invariant forall t :: t in store.transactions ==> t < i
    {
      var repair := new Repair(i, ids[i], store, normalize);
      AfterOne(normalize, documents, proposals, ids, i);
      var outcome := repair.RunAlone();
      outcomes := outcomes + [outcome];
    }
    assert ids[..|ids|] == ids;
  }

  lemma NothingRun(normalize: string -> string, documents: map<string, Document>, proposals: set<string>)
    ensures AfterRun(normalize, documents, proposals, []) == documents
  {
  }

  lemma {:induction false} AffectedRows(normalize: string -> string, rows: seq<Candidate>)
    requires Table(rows)
    ensures var found := AllAffected(normalize, rows);
            && (forall x :: x in found <==> x in rows && Affected(normalize, x))
            && Distinct(Ids(found))
  {
    if rows != [] {
      var front, last := rows[..|rows| - 1], rows[|rows| - 1];
      AffectedRows(normalize, front);
      assert rows == front + [last];
      var found := AllAffected(normalize, front);
      forall i | 0 <= i < |found|
        ensures found[i].id != last.id
      {
        assert found[i] in front;
      }
      DistinctMore(found, last);
    }
  }

  lemma DistinctMore(found: seq<Candidate>, last: Candidate)
    requires Distinct(Ids(found)) && forall x :: x in found ==> x.id != last.id
    ensures Distinct(Ids(found + [last])) && found + [] == found
  {
    var more := found + [last];
    assert forall i :: 0 <= i < |found| ==> more[i] in found && Ids(more)[i] == Ids(found)[i];
  }

  /** Every document the scan of the documents finds ends repaired or awaits review. */
  lemma FoundEndsWell(
      normalize: string -> string, documents: map<string, Document>, proposals: set<string>,
      candidate: string -> bool, rows: seq<Candidate>, row: Candidate)
    requires Shows(rows, documents, candidate) && row in AllAffected(normalize, rows)
    ensures var outcome := Alone(normalize, documents, proposals, row.id);
            outcome.Repaired? || (outcome == SkippedPendingProposal && row.id in proposals)
  {
    AffectedRows(normalize, rows);
    assert row in rows;
  }

  /**
   * A second scan after a run without a limit: for a normal form that normalising leaves alone, it
   * finds exactly the dirty candidates that await review.
   */
  lemma {:induction false} SecondScan(
      normalize: string -> string, documents: map<string, Document>, proposals: set<string>,
      candidate: string -> bool, rows: seq<Candidate>, again: seq<Candidate>, row: Candidate)
    requires forall text :: normalize(normalize(text)) == normalize(text)
    requires Shows(rows, documents, candidate)
    requires Shows(again, AfterRun(normalize, documents, proposals, Ids(AllAffected(normalize, rows))), candidate)
    ensures row in AllAffected(normalize, again) <==> row in AllAffected(normalize, rows) && row.id in proposals
  {
    hide AllAffected;
    var found := AllAffected(normalize, rows);
    AffectedRows(normalize, rows);
    AffectedRows(normalize, again);
    FoundIds(found);
    if row in AllAffected(normalize, again) {
      StillDirty(normalize, documents, proposals, candidate, rows, again, row);
    }
    if row in found && row.id in proposals {
      StillShown(normalize, documents, proposals, candidate, rows, again, row);
    }
  }

  lemma FoundIds(found: seq<Candidate>)
    ensures forall x :: x in found ==> x.id in Ids(found)
    ensures forall id :: id in Ids(found) ==> exists x :: x in found && x.id == id
  {
    forall x | x in found
      ensures x.id in Ids(found)
    {
      var i :| 0 <= i < |found| && found[i] == x;
      assert Ids(found)[i] == x.id;
    }
    forall id | id in Ids(found)
      ensures exists x :: x in found && x.id == id
    {
      var i :| 0 <= i < |found| && Ids(found)[i] == id;
      assert found[i] in found;
    }
  }

  /** A row that the second scan finds was found before and awaits review. */
  lemma StillDirty(
      normalize: string -> string, documents: map<string, Document>, proposals: set<string>,
      candidate: string -> bool, rows: seq<Candidate>, again: seq<Candidate>, row: Candidate)
    requires forall text :: normalize(normalize(text)) == normalize(text)
    requires Shows(rows, documents, candidate)
    requires Shows(again, AfterRun(normalize, documents, proposals, Ids(AllAffected(normalize, rows))), candidate)
    requires row in again && Affected(normalize, row)
    ensures row in AllAffected(normalize, rows) && row.id in proposals
  {
    hide AllAffected;
    var found := AllAffected(normalize, rows);
    var after := AfterRun(normalize, documents, proposals, Ids(found));
    AffectedRows(normalize, rows);
    FoundIds(found);
    var k :| 0 <= k < |again| && again[k] == row;
    assert after[row.id].content == row.content;
    assert after[row.id] == documents[row.id];
    assert HasRow(rows, row.id);
    var i :| 0 <= i < |rows| && rows[i].id == row.id;
    assert rows[i] == row && rows[i] in rows;
    assert row.id in Ids(found);
  }

  /** A row found before that awaits review is found again. */
  lemma StillShown(
      normalize: string -> string, documents: map<string, Document>, proposals: set<string>,
      candidate: string -> bool, rows: seq<Candidate>, again: seq<Candidate>, row: Candidate)
    requires Shows(rows, documents, candidate)
    requires Shows(again, AfterRun(normalize, documents, proposals, Ids(AllAffected(normalize, rows))), candidate)
    requires row in rows && row.id in proposals
    ensures row in again
  {
    hide AllAffected;
    var k :| 0 <= k < |rows| && rows[k] == row;
    assert AfterRun(normalize, documents, proposals, Ids(AllAffected(normalize, rows)))[row.id] == documents[row.id];
    assert HasRow(again, row.id);
    var i :| 0 <= i < |again| && again[i].id == row.id;
    assert again[i] == row;
  }

  /** Said outright: exactly the documents found that await no review are rewritten. */
  lemma AfterRunExactly(
      normalize: string -> string, documents: map<string, Document>, proposals: set<string>,
      candidate: string -> bool, rows: seq<Candidate>, affected: seq<Candidate>)
    requires Shows(rows, documents, candidate) && forall x :: x in affected ==> x in AllAffected(normalize, rows)
    ensures var after := AfterRun(normalize, documents, proposals, Ids(affected));
            && after.Keys == documents.Keys
            && forall id :: id in documents ==>
                 var was := documents[id];
                 after[id] ==
                   if (exists i :: 0 <= i < |affected| && affected[i].id == id) && id !in proposals
                   then was.(content := normalize(was.content), version := was.version + 1,
                             editor := Some("system:quote-repair"), hash := None)
                   else was
  {
    hide AllAffected;
    AffectedRows(normalize, rows);
    var after := AfterRun(normalize, documents, proposals, Ids(affected));
    forall id | id in documents
      ensures id in Ids(affected) <==> exists i :: 0 <= i < |affected| && affected[i].id == id
      ensures id in Ids(affected) ==> normalize(documents[id].content) != documents[id].content
    {
      if i :| 0 <= i < |affected| && affected[i].id == id {
        assert Ids(affected)[i] == id;
        assert affected[i] in affected && affected[i] in rows;
      }
    }
  }

  /**
   * The run: a dry run changes nothing; otherwise every document found ends repaired or awaits
   * review, and all other documents stay as they are.
   */
  method Run(
      store: Store, normalize: string -> string, ghost candidate: string -> bool, rows: seq<Candidate>,
      limit: Option<nat>, pageSize: nat, apply: bool)
    returns (affected: seq<Candidate>, outcomes: seq<Outcome>)
    requires store.locks == map[] && store.transactions == map[]
    requires Shows(rows, store.documents, candidate) && pageSize >= 1
    requires limit.Some? ==> limit.value >= 1
    modifies store
    ensures affected == FirstOf(AllAffected(normalize, rows), limit)
    ensures !apply ==> store.documents == old(store.documents) && outcomes == []
    ensures apply ==>
              && store.documents == AfterRun(normalize, old(store.documents), old(store.proposals), Ids(affected))
              && store.documents.Keys == old(store.documents).Keys
              && (forall id :: id in old(store.documents) ==>
                    var was := old(store.documents)[id];
                    store.documents[id] ==
                      if (exists i :: 0 <= i < |affected| && affected[i].id == id) && id !in old(store.proposals)
                      then was.(content := normalize(was.content), version := was.version + 1,
                                editor := Some("system:quote-repair"), hash := None)
                      else was)
              && |outcomes| == |affected|
              && forall i :: 0 <= i < |affected| ==>
                   outcomes[i].Repaired?
                   || (outcomes[i] == SkippedPendingProposal && affected[i].id in old(store.proposals))
  {
    hide AllAffected, FirstOf, AfterRun, Alone, Table;
    var scanned;
    affected, scanned := Scan(normalize, rows, limit, pageSize);
    outcomes := [];
    if !apply {
      return;
    }
    ghost var documents, proposals := store.documents, store.proposals;
    AffectedRows(normalize, rows);
    FirstOnes(AllAffected(normalize, rows), limit);
    outcomes := RepairAll(store, normalize, Ids(affected));
    AfterRunExactly(normalize, documents, proposals, candidate, rows, affected);
    forall i | 0 <= i < |affected|
      ensures outcomes[i].Repaired?
              || (outcomes[i] == SkippedPendingProposal && affected[i].id in proposals)
    {
      assert affected[i] in AllAffected(normalize, rows);
      FoundEndsWell(normalize, documents, proposals, candidate, rows, affected[i]);
    }
  }

  lemma FirstOnes(found: seq<Candidate>, limit: Option<nat>)
    requires Distinct(Ids(found))
    ensures var some := FirstOf(found, limit);
            Distinct(Ids(some)) && forall x :: x in some ==> x in found
  {
    var some := FirstOf(found, limit);
    assert forall i :: 0 <= i < |some| ==> Ids(some)[i] == Ids(found)[i];
  }
}

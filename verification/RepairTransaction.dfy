/**
 * The repair of documents, one transaction each, beside any other writers: read committed
 * isolation, where an update takes the row's lock until its transaction ends and its own writes
 * become visible to others when it commits.
 */
module RepairTransaction {
  import opened Wrappers

  datatype Tenant = Tenant(userId: Option<string>, organizationId: Option<string>)

  datatype Document = Document(
    content: string, version: int, editor: Option<string>, hash: Option<string>, tenant: Tenant)

  datatype Snapshot = Snapshot(
    documentId: string, version: int, content: string, changedBy: Option<string>, tenant: Tenant)

  const REPAIR_AUTHOR := "system:quote-repair"

  datatype Outcome =
    | Repaired(removed: int)
    | AlreadyClean
    | SkippedPendingProposal
    | Conflict
    | Failed

  /** Where a transaction stands; `current` is the document as it read it. */
  datatype Transaction =
    | Reading(id: string)
    | Checking(id: string, current: Document)
    | Snapshotting(id: string, current: Document)
    | Updating(id: string, current: Document, created: seq<Snapshot>)
    | Committing(id: string, current: Document, created: seq<Snapshot>)
    | Done(outcome: Outcome)

  datatype Database = Database(
    documents: map<string, Document>,
    snapshots: seq<Snapshot>,
    proposals: set<string>,         // documents with a proposal awaiting review
    locks: map<string, nat>,        // rows updated by a transaction that has not ended
    transactions: map<nat, Transaction>)
  {
    function End(t: nat, outcome: Outcome): Database {
      this.(transactions := transactions[t := Done(outcome)])
    }
  }

  datatype Action =
    | Begin(t: nat, id: string)
    | Runs(t: nat)                  // the transaction's next statement
    | Aborts(t: nat)                // the database fails the transaction
    // other writers
    | Write(id: string, document: Document)
    | Delete(id: string)
    | AddSnapshot(snapshot: Snapshot)
    | SetProposals(proposals: set<string>)

  /** The snapshot a repair takes of what it read, under the editor it read. */
  function Before(id: string, current: Document): Snapshot {
    Snapshot(id, current.version, current.content, current.editor, current.tenant)
  }

  predicate HasSnapshot(snapshots: seq<Snapshot>, id: string, version: int) {
    exists i :: 0 <= i < |snapshots| && snapshots[i].documentId == id && snapshots[i].version == version
  }

  function RepairedForm(normalize: string -> string, row: Document, current: Document): Document {
    row.(content := normalize(current.content), version := current.version + 1,
         editor := Some(REPAIR_AUTHOR), hash := None)
  }

  /** The next statement of transaction `t`; one that must wait for a row's lock changes nothing. */
  function Run(normalize: string -> string, db: Database, t: nat): Database
    requires t in db.transactions
  {
    match db.transactions[t]
    case Reading(id) =>
      if id !in db.documents then db.End(t, Failed)
      else db.(transactions := db.transactions[t := Checking(id, db.documents[id])])
    case Checking(id, current) =>
      if id in db.proposals then db.End(t, SkippedPendingProposal)
      else if normalize(current.content) == current.content then db.End(t, AlreadyClean)
      else db.(transactions := db.transactions[t := Snapshotting(id, current)])
    case Snapshotting(id, current) =>
      var created := if HasSnapshot(db.snapshots, id, current.version) then [] else [Before(id, current)];
      db.(transactions := db.transactions[t := Updating(id, current, created)])
    case Updating(id, current, created) =>
      if id in db.locks then db
      else if id in db.documents && db.documents[id].version == current.version
              && db.documents[id].content == current.content then
        db.(locks := db.locks[id := t],
            transactions := db.transactions[t := Committing(id, current, created)])
      else db.End(t, Conflict)
    case Committing(id, current, created) =>
      if id !in db.documents then db
      else
        db.(documents := db.documents[id := RepairedForm(normalize, db.documents[id], current)],
            snapshots := db.snapshots + created,
            locks := db.locks - {id})
          .End(t, Repaired(|current.content| - |normalize(current.content)|))
    case Done(_) => db
  }

  function Abort(db: Database, t: nat): Database
    requires t in db.transactions
  {
    match db.transactions[t]
    case Done(_) => db
    case Committing(id, _, _) => db.(locks := db.locks - {id}).End(t, Failed)
    case _ => db.End(t, Failed)
  }

  /** Any action may come at any time; one that is not enabled changes nothing. */
  function Step(normalize: string -> string, db: Database, a: Action): Database {
    match a
    case Begin(t, id) =>
      if t in db.transactions then db else db.(transactions := db.transactions[t := Reading(id)])
    case Runs(t) => if t in db.transactions then Run(normalize, db, t) else db
    case Aborts(t) => if t in db.transactions then Abort(db, t) else db
    case Write(id, document) =>
      if id in db.locks then db else db.(documents := db.documents[id := document])
    case Delete(id) =>
      if id in db.locks then db else db.(documents := db.documents - {id})
    case AddSnapshot(snapshot) => db.(snapshots := db.snapshots + [snapshot])
    case SetProposals(proposals) => db.(proposals := proposals)
  }

  function RunAll(normalize: string -> string, db: Database, actions: seq<Action>): Database {
    if actions == [] then db
    else Step(normalize, RunAll(normalize, db, actions[..|actions| - 1]), actions[|actions| - 1])
  }

  function Quiet(documents: map<string, Document>, snapshots: seq<Snapshot>): Database {
    Database(documents, snapshots, {}, map[], map[])
  }

  // ---- What every interleaving keeps ----

  predicate ToRepair(normalize: string -> string, x: Transaction) {
    x.Snapshotting? || x.Updating? || x.Committing? ==> normalize(x.current.content) != x.current.content
  }

  /** What a transaction has created is the snapshot of what it read, or nothing. */
  predicate OwnSnapshot(x: Transaction) {
    x.Updating? || x.Committing? ==> x.created == [] || x.created == [Before(x.id, x.current)]
  }

  ghost predicate Local(normalize: string -> string, db: Database) {
    forall t :: t in db.transactions ==>
      ToRepair(normalize, db.transactions[t]) && OwnSnapshot(db.transactions[t])
  }

  /** A transaction about to commit holds its row's lock, and the row is as it was read. */
  predicate Holds(db: Database, t: nat, x: Transaction) {
    x.Committing? ==>
      && x.id in db.locks && db.locks[x.id] == t && x.id in db.documents
      && db.documents[x.id].content == x.current.content
      && db.documents[x.id].version == x.current.version
  }

  ghost predicate Locked(db: Database) {
    forall t :: t in db.transactions ==> Holds(db, t, db.transactions[t])
  }

  ghost predicate Invariant(normalize: string -> string, db: Database) { Local(normalize, db) && Locked(db) }

  /** Only `t`'s own action changes where `t` stands. */
  lemma OthersStay(normalize: string -> string, db: Database, a: Action, t: nat)
    requires t in db.transactions && a != Runs(t) && a != Aborts(t)
    ensures var after := Step(normalize, db, a);
            t in after.transactions && after.transactions[t] == db.transactions[t]
  {
    hide HasSnapshot, Before, RepairedForm;
  }

  /** What `t`'s own action makes of it. */
  lemma LocalByItself(normalize: string -> string, db: Database, a: Action, t: nat)
    requires Local(normalize, db) && (t !in db.transactions || a == Runs(t) || a == Aborts(t))
    ensures var after := Step(normalize, db, a);
            t in after.transactions ==>
              ToRepair(normalize, after.transactions[t]) && OwnSnapshot(after.transactions[t])
  {
    hide HasSnapshot, Before, RepairedForm;
    if t in db.transactions {
      assert ToRepair(normalize, db.transactions[t]) && OwnSnapshot(db.transactions[t]);
    }
    hide Local;
  }

  lemma StepKeepsLocal(normalize: string -> string, db: Database, a: Action)
    requires Local(normalize, db)
    ensures Local(normalize, Step(normalize, db, a))
  {
    hide Step, ToRepair, OwnSnapshot;
    var after := Step(normalize, db, a);
    forall t | t in after.transactions
      ensures ToRepair(normalize, after.transactions[t]) && OwnSnapshot(after.transactions[t])
    {
      if t !in db.transactions || a == Runs(t) || a == Aborts(t) {
        LocalByItself(normalize, db, a, t);
      } else {
        OthersStay(normalize, db, a, t);
      }
    }
  }

  /** A row that a transaction holds changes hands only when that transaction ends. */
  lemma HeldStays(normalize: string -> string, db: Database, a: Action, t: nat)
    requires Locked(db) && t in db.transactions && db.transactions[t].Committing? && a != Runs(t) && a != Aborts(t)
    ensures Holds(Step(normalize, db, a), t, db.transactions[t])
  {
    hide HasSnapshot, Before, RepairedForm;
    assert Holds(db, t, db.transactions[t]);
    if (a.Runs? || a.Aborts?) && a.t in db.transactions {
      assert Holds(db, a.t, db.transactions[a.t]);
    }
  }

  /** A transaction comes to hold a row only by its own compare-and-set. */
  lemma HoldsByItself(normalize: string -> string, db: Database, a: Action, t: nat)
    requires Locked(db) && (t !in db.transactions || a == Runs(t) || a == Aborts(t))
    ensures var after := Step(normalize, db, a);
            t in after.transactions && after.transactions[t].Committing? ==> Holds(after, t, after.transactions[t])
  {
    hide HasSnapshot, Before, RepairedForm;
  }

  lemma StepKeepsLocked(normalize: string -> string, db: Database, a: Action)
    requires Locked(db)
    ensures Locked(Step(normalize, db, a))
  {
    hide Step;
    var after := Step(normalize, db, a);
    forall t | t in after.transactions
      ensures Holds(after, t, after.transactions[t])
    {
      if t !in db.transactions || a == Runs(t) || a == Aborts(t) {
        HoldsByItself(normalize, db, a, t);
      } else {
        OthersStay(normalize, db, a, t);
        if after.transactions[t].Committing? {
          HeldStays(normalize, db, a, t);
        }
      }
    }
  }

  lemma {:induction false} RunKeepsInvariant(normalize: string -> string, db: Database, actions: seq<Action>)
    requires Invariant(normalize, db)
    ensures Invariant(normalize, RunAll(normalize, db, actions))
  {
    if actions != [] {
      hide Step, Local, Locked;
      RunKeepsInvariant(normalize, db, actions[..|actions| - 1]);
      StepKeepsLocal(normalize, RunAll(normalize, db, actions[..|actions| - 1]), actions[|actions| - 1]);
      StepKeepsLocked(normalize, RunAll(normalize, db, actions[..|actions| - 1]), actions[|actions| - 1]);
    }
  }

  /** `t` ended this step having repaired its document. */
  ghost predicate Commits(before: Database, after: Database, t: nat) {
    && t in before.transactions && t in after.transactions
    && !before.transactions[t].Done? && after.transactions[t].Done? && after.transactions[t].outcome.Repaired?
  }

  /**
   * No lost update, over every interleaving: a repair that commits turns exactly the content present
   * just before it into its normalised form, one version on, and changes no other document. A snapshot
   * it adds holds the overwritten content under the version it had.
   */
  lemma {:induction false} NoLostUpdate(
      normalize: string -> string, documents: map<string, Document>, snapshots: seq<Snapshot>,
      actions: seq<Action>, t: nat)
    ensures var before := RunAll(normalize, Quiet(documents, snapshots), actions);
            var after := Step(normalize, before, Runs(t));
            Commits(before, after, t) ==>
              var id := before.transactions[t].id;
              && id in before.documents
              && var was := before.documents[id];
              && normalize(was.content) != was.content
              && after.documents == before.documents[id :=
                   was.(content := normalize(was.content), version := was.version + 1,
                        editor := Some(REPAIR_AUTHOR), hash := None)]
              && before.snapshots <= after.snapshots && |after.snapshots| <= |before.snapshots| + 1
              && (|after.snapshots| > |before.snapshots| ==>
                    var added := after.snapshots[|before.snapshots|];
                    && added.documentId == id && added.version == was.version && added.content == was.content
                    && added.changedBy == before.transactions[t].current.editor
                    && added.tenant == before.transactions[t].current.tenant)
  {
    hide RunAll;
    NothingRuns(normalize, documents, snapshots);
    RunKeepsInvariant(normalize, Quiet(documents, snapshots), actions);
  }

  lemma NothingRuns(normalize: string -> string, documents: map<string, Document>, snapshots: seq<Snapshot>)
    ensures Invariant(normalize, Quiet(documents, snapshots))
  {
  }

  /**
   * A transaction changes documents and snapshots only when it commits a repair: one that loses its
   * compare-and-set, finds nothing to do, or fails leaves both as they are.
   */
  lemma {:induction false} OnlyCommitsWrite(normalize: string -> string, db: Database, t: nat)
    ensures var after := Step(normalize, db, Runs(t));
            Commits(db, after, t) || (after.documents == db.documents && after.snapshots == db.snapshots)
    ensures var after := Step(normalize, db, Aborts(t));
            after.documents == db.documents && after.snapshots == db.snapshots
  {
  }

  // ---- No lock outlives its transaction ----

  /** Every row's lock is that of a transaction of the row which has yet to commit or abort. */
  ghost predicate NoOrphan(db: Database) {
    forall id :: id in db.locks ==>
      && db.locks[id] in db.transactions
      && db.transactions[db.locks[id]].Committing? && db.transactions[db.locks[id]].id == id
  }

  lemma StepLeavesNoOrphan(normalize: string -> string, db: Database, a: Action)
    requires NoOrphan(db) && Locked(db)
    ensures NoOrphan(Step(normalize, db, a))
  {
    hide HasSnapshot, Before, RepairedForm;
    if (a.Runs? || a.Aborts?) && a.t in db.transactions {
      assert Holds(db, a.t, db.transactions[a.t]);
    }
    hide Locked;
  }

  /** Over every run, a locked row is one whose repair is under way: no repair that ended blocks the next. */
  lemma {:induction false} LocksEnd(
      normalize: string -> string, documents: map<string, Document>, snapshots: seq<Snapshot>, actions: seq<Action>)
    ensures NoOrphan(RunAll(normalize, Quiet(documents, snapshots), actions))
  {
    if actions != [] {
      hide Step, NoOrphan, Local, Locked;
      var front := actions[..|actions| - 1];
      LocksEnd(normalize, documents, snapshots, front);
      NothingRuns(normalize, documents, snapshots);
      RunKeepsInvariant(normalize, Quiet(documents, snapshots), front);
      StepLeavesNoOrphan(normalize, RunAll(normalize, Quiet(documents, snapshots), front), actions[|actions| - 1]);
    }
  }

  // ---- The overwritten content is kept ----

  /** `x` is about to commit without a snapshot of its own: its version has one already. */
  ghost predicate KeptAlready(db: Database, x: Transaction) {
    (x.Updating? || x.Committing?) && x.created == [] ==>
      exists i :: 0 <= i < |db.snapshots|
               && db.snapshots[i].documentId == x.id && db.snapshots[i].version == x.current.version
  }

  ghost predicate AllKept(db: Database) {
    forall t :: t in db.transactions ==> KeptAlready(db, db.transactions[t])
  }

  /** Snapshots only come to be added. */
  lemma SnapshotsGrow(normalize: string -> string, db: Database, a: Action)
    ensures db.snapshots <= Step(normalize, db, a).snapshots
  {
    hide HasSnapshot, Before, RepairedForm;
  }

  lemma KeptByItself(normalize: string -> string, db: Database, a: Action, t: nat)
    requires AllKept(db) && (t !in db.transactions || a == Runs(t) || a == Aborts(t))
    ensures var after := Step(normalize, db, a);
            t in after.transactions ==> KeptAlready(after, after.transactions[t])
  {
    hide Before, RepairedForm;
    if t in db.transactions {
      assert KeptAlready(db, db.transactions[t]);
    }
    hide AllKept;
  }

  lemma StepKeepsKept(normalize: string -> string, db: Database, a: Action)
    requires AllKept(db)
    ensures AllKept(Step(normalize, db, a))
  {
    hide Step;
    var after := Step(normalize, db, a);
    SnapshotsGrow(normalize, db, a);
    forall t | t in after.transactions
      ensures KeptAlready(after, after.transactions[t])
    {
      if t !in db.transactions || a == Runs(t) || a == Aborts(t) {
        KeptByItself(normalize, db, a, t);
      } else {
        OthersStay(normalize, db, a, t);
        assert KeptAlready(db, db.transactions[t]);
      }
    }
  }

  lemma {:induction false} RunKeepsKept(normalize: string -> string, db: Database, actions: seq<Action>)
    requires AllKept(db)
    ensures AllKept(RunAll(normalize, db, actions))
  {
    if actions != [] {
      hide Step, AllKept;
      RunKeepsKept(normalize, db, actions[..|actions| - 1]);
      StepKeepsKept(normalize, RunAll(normalize, db, actions[..|actions| - 1]), actions[|actions| - 1]);
    }
  }

  /**
   * Over every run, what a committed repair overwrote is kept: among the snapshots after it is one of
   * that document under the version that was overwritten.
   */
  lemma {:induction false} OverwrittenIsKept(
      normalize: string -> string, documents: map<string, Document>, snapshots: seq<Snapshot>,
      actions: seq<Action>, t: nat)
    ensures var before := RunAll(normalize, Quiet(documents, snapshots), actions);
            var after := Step(normalize, before, Runs(t));
            Commits(before, after, t) ==>
              var id := before.transactions[t].id;
              && id in before.documents
              && exists i :: 0 <= i < |after.snapshots|
                          && after.snapshots[i].documentId == id
                          && after.snapshots[i].version == before.documents[id].version
  {
    hide RunAll;
    NothingRuns(normalize, documents, snapshots);
    RunKeepsInvariant(normalize, Quiet(documents, snapshots), actions);
    RunKeepsKept(normalize, Quiet(documents, snapshots), actions);
    CommitKeeps(normalize, RunAll(normalize, Quiet(documents, snapshots), actions), t);
  }

  lemma CommitKeeps(normalize: string -> string, before: Database, t: nat)
    requires Invariant(normalize, before) && AllKept(before)
    ensures var after := Step(normalize, before, Runs(t));
            Commits(before, after, t) ==>
              var id := before.transactions[t].id;
              && id in before.documents
              && exists i :: 0 <= i < |after.snapshots|
                          && after.snapshots[i].documentId == id
                          && after.snapshots[i].version == before.documents[id].version
  {
    OnlyCommittingCommits(normalize, before, t);
    hide HasSnapshot, RepairedForm;
    var after := Step(normalize, before, Runs(t));
    if Commits(before, after, t) {
      var x := before.transactions[t];
      assert Holds(before, t, x) && OwnSnapshot(x) && KeptAlready(before, x);
      hide Step, Local, Locked, AllKept;
      CommitAdds(normalize, before, t);
      if x.created == [] {
        var i :| 0 <= i < |before.snapshots|
              && before.snapshots[i].documentId == x.id && before.snapshots[i].version == x.current.version;
        assert after.snapshots[i] == before.snapshots[i];
      } else {
        assert after.snapshots[|before.snapshots|] == x.created[0];
      }
    }
  }

  lemma CommitAdds(normalize: string -> string, before: Database, t: nat)
    requires t in before.transactions && before.transactions[t].Committing?
    requires before.transactions[t].id in before.documents
    ensures Step(normalize, before, Runs(t)).snapshots == before.snapshots + before.transactions[t].created
  {
    hide HasSnapshot, Before, RepairedForm;
  }

  /** What was kept of documents when `t` looked for a snapshot of what it read, if it came to that. */
  function SnapshotsSeen(normalize: string -> string, db: Database, actions: seq<Action>, t: nat)
    : Option<seq<Snapshot>>
  {
    if actions == [] then None
    else
      var front := actions[..|actions| - 1];
      var before := RunAll(normalize, db, front);
      if actions[|actions| - 1] == Runs(t) && t in before.transactions && before.transactions[t].Snapshotting?
      then Some(before.snapshots)
      else SnapshotsSeen(normalize, db, front, t)
  }

  /** `x` made a snapshot exactly when `seen` has none of its document under the version it read. */
  ghost predicate MadeIffMissing(x: Transaction, seen: Option<seq<Snapshot>>) {
    x.Updating? || x.Committing? ==>
      && seen.Some?
      && x.created ==
           if exists i :: 0 <= i < |seen.value|
                       && seen.value[i].documentId == x.id && seen.value[i].version == x.current.version
           then []
           else [Snapshot(x.id, x.current.version, x.current.content, x.current.editor, x.current.tenant)]
  }

  lemma MadeByItself(normalize: string -> string, db: Database, t: nat, seen: Option<seq<Snapshot>>)
    requires t in db.transactions && MadeIffMissing(db.transactions[t], seen)
    ensures var after := Step(normalize, db, Runs(t));
            && t in after.transactions
            && MadeIffMissing(after.transactions[t],
                              if db.transactions[t].Snapshotting? then Some(db.snapshots) else seen)
  {
    hide RepairedForm;
  }

  lemma {:induction false} RunMakesIffMissing(
      normalize: string -> string, documents: map<string, Document>, snapshots: seq<Snapshot>,
      actions: seq<Action>, t: nat)
    ensures var db := Quiet(documents, snapshots);
            var now := RunAll(normalize, db, actions);
            t in now.transactions ==> MadeIffMissing(now.transactions[t], SnapshotsSeen(normalize, db, actions, t))
  {
    hide Step, MadeIffMissing;
    if actions != [] {
      var front, a := actions[..|actions| - 1], actions[|actions| - 1];
      var db := Quiet(documents, snapshots);
      var before := RunAll(normalize, db, front);
      RunMakesIffMissing(normalize, documents, snapshots, front, t);
      if t !in before.transactions || a == Aborts(t) {
        NotMadeYet(normalize, before, a, t, SnapshotsSeen(normalize, db, actions, t));
      } else if a == Runs(t) {
        MadeByItself(normalize, before, t, SnapshotsSeen(normalize, db, front, t));
      } else {
        OthersStay(normalize, before, a, t);
      }
    }
  }

  lemma NotMadeYet(
      normalize: string -> string, db: Database, a: Action, t: nat, seen: Option<seq<Snapshot>>)
    requires t !in db.transactions || a == Aborts(t)
    ensures var after := Step(normalize, db, a);
            t in after.transactions ==> MadeIffMissing(after.transactions[t], seen)
  {
    hide HasSnapshot, Before, RepairedForm;
  }

  /**
   * Over every run, exactly what a committed repair adds to the snapshots: nothing when the document's
   * version had one at the time it looked, and else the one snapshot of what it overwrote.
   */
  lemma {:induction false} AddsExactly(
      normalize: string -> string, documents: map<string, Document>, snapshots: seq<Snapshot>,
      actions: seq<Action>, t: nat)
    ensures var db := Quiet(documents, snapshots);
            var before := RunAll(normalize, db, actions);
            var after := Step(normalize, before, Runs(t));
            Commits(before, after, t) ==>
              var x, seen := before.transactions[t], SnapshotsSeen(normalize, db, actions, t);
              && x.id in before.documents && seen.Some?
              && var was := before.documents[x.id];
                 after.snapshots == before.snapshots +
                   if exists i :: 0 <= i < |seen.value|
                               && seen.value[i].documentId == x.id && seen.value[i].version == was.version
                   then []
                   else [Snapshot(x.id, was.version, was.content, x.current.editor, x.current.tenant)]
  {
    NothingRuns(normalize, documents, snapshots);
    RunKeepsInvariant(normalize, Quiet(documents, snapshots), actions);
    RunMakesIffMissing(normalize, documents, snapshots, actions, t);
    hide RunAll, SnapshotsSeen, Quiet, HasSnapshot, Before, RepairedForm;
    var before := RunAll(normalize, Quiet(documents, snapshots), actions);
    OnlyCommittingCommits(normalize, before, t);
    if Commits(before, Step(normalize, before, Runs(t)), t) {
      assert Holds(before, t, before.transactions[t]);
      CommitAdds(normalize, before, t);
    }
  }

  // ---- What happened to a row since a transaction read it ----

  function Row(db: Database, id: string): Option<Document> {
    if id in db.documents then Some(db.documents[id]) else None
  }

  /** What an action leaves of a row: none when it does not touch it, and no document when it deletes it. */
  function Leaves(normalize: string -> string, db: Database, id: string, a: Action): Option<Option<Document>> {
    match a
    case Write(i, document) => if i == id && id !in db.locks then Some(Some(document)) else None
    case Delete(i) => if i == id && id !in db.locks then Some(None) else None
    case Runs(u) =>
      if u in db.transactions && db.transactions[u].Committing? && db.transactions[u].id == id && id in db.documents
      then Some(Some(RepairedForm(normalize, db.documents[id], db.transactions[u].current)))
      else None
    case _ => None
  }

  predicate Reads(db: Database, t: nat, a: Action) {
    a == Runs(t) && t in db.transactions && db.transactions[t].Reading?
  }

  /** What the last action since `t` read the row left of it, if any touched it. */
  function LeftSince(
      normalize: string -> string, db: Database, actions: seq<Action>, t: nat, id: string): Option<Option<Document>>
  {
    if actions == [] then None
    else
      var front, a := actions[..|actions| - 1], actions[|actions| - 1];
      var before := RunAll(normalize, db, front);
      if Leaves(normalize, before, id, a).Some? then Leaves(normalize, before, id, a)
      else if Reads(before, t, a) then None
      else LeftSince(normalize, db, front, t, id)
  }

  predicate HasRead(x: Transaction) { !x.Reading? && !x.Done? }

  /** The row is what the last action since the read left, or else what was read. */
  predicate RowIs(db: Database, t: nat, left: Option<Option<Document>>) {
    t in db.transactions && HasRead(db.transactions[t]) ==>
      Row(db, db.transactions[t].id) == if left.Some? then left.value else Some(db.transactions[t].current)
  }

  lemma Untouched(normalize: string -> string, db: Database, id: string, a: Action)
    ensures var left := Leaves(normalize, db, id, a);
            Row(Step(normalize, db, a), id) == if left.Some? then left.value else Row(db, id)
  {
    hide HasSnapshot, Before;
  }

  /** A transaction keeps what it read, and reads what is there. */
  lemma KeepsWhatItRead(normalize: string -> string, db: Database, a: Action, t: nat)
    ensures var after := Step(normalize, db, a);
            t in after.transactions && HasRead(after.transactions[t]) ==>
              var y := after.transactions[t];
              && t in db.transactions
              && (Reads(db, t, a) ==> Row(db, y.id) == Some(y.current) && Leaves(normalize, db, y.id, a).None?)
              && (!Reads(db, t, a) ==>
                    && HasRead(db.transactions[t])
                    && db.transactions[t].id == y.id && db.transactions[t].current == y.current)
  {
    hide HasSnapshot, Before, RepairedForm;
  }

  lemma {:induction false} RowSinceRead(normalize: string -> string, db: Database, actions: seq<Action>, t: nat)
    requires forall u :: u in db.transactions ==> !HasRead(db.transactions[u])
    ensures var now := RunAll(normalize, db, actions);
            t in now.transactions && HasRead(now.transactions[t]) ==>
              RowIs(now, t, LeftSince(normalize, db, actions, t, now.transactions[t].id))
  {
    hide Step, Leaves;
    if actions != [] {
      var front, a := actions[..|actions| - 1], actions[|actions| - 1];
      var before := RunAll(normalize, db, front);
      RowSinceRead(normalize, db, front, t);
      KeepsWhatItRead(normalize, before, a, t);
      var after := Step(normalize, before, a);
      if t in after.transactions && HasRead(after.transactions[t]) {
        Untouched(normalize, before, after.transactions[t].id, a);
      }
    }
  }

  /**
   * Over every run, a repair that reaches its compare-and-set reports a conflict exactly when some
   * action since its read touched the row, and the last that did deleted it or left another version
   * or other content.
   */
  lemma {:induction false} ConflictMeansChanged(
      normalize: string -> string, documents: map<string, Document>, snapshots: seq<Snapshot>,
      actions: seq<Action>, t: nat)
    ensures var db := Quiet(documents, snapshots);
            var before := RunAll(normalize, db, actions);
            && t in before.transactions && before.transactions[t].Updating?
            && before.transactions[t].id !in before.locks ==>
              var x := before.transactions[t];
              var left := LeftSince(normalize, db, actions, t, x.id);
              (Step(normalize, before, Runs(t)).transactions[t] == Done(Conflict) <==>
                && left.Some?
                && (left.value.None? || left.value.value.version != x.current.version
                                     || left.value.value.content != x.current.content))
  {
    hide RunAll, LeftSince;
    RowSinceRead(normalize, Quiet(documents, snapshots), actions, t);
  }

  // ---- Whose name the snapshot carries ----

  /**
   * Over every run, the snapshot that a committed repair adds names the editor of the content it
   * holds exactly when the last action since the repair's read that touched the row, if any did,
   * left the editor that was read.
   */
  lemma {:induction false} SnapshotNamesItsEditor(
      normalize: string -> string, documents: map<string, Document>, snapshots: seq<Snapshot>,
      actions: seq<Action>, t: nat)
    ensures var db := Quiet(documents, snapshots);
            var before := RunAll(normalize, db, actions);
            var after := Step(normalize, before, Runs(t));
            Commits(before, after, t) && |after.snapshots| > |before.snapshots| ==>
              var x := before.transactions[t];
              var left := LeftSince(normalize, db, actions, t, x.id);
              && x.id in before.documents
              && (after.snapshots[|before.snapshots|].changedBy == before.documents[x.id].editor <==>
                    (left.Some? ==> left.value.Some? && left.value.value.editor == x.current.editor))
  {
    NoLostUpdate(normalize, documents, snapshots, actions, t);
    RowSinceRead(normalize, Quiet(documents, snapshots), actions, t);
    hide RunAll, LeftSince, Quiet, HasSnapshot, RepairedForm;
    var before := RunAll(normalize, Quiet(documents, snapshots), actions);
    OnlyCommittingCommits(normalize, before, t);
  }

  lemma OnlyCommittingCommits(normalize: string -> string, db: Database, t: nat)
    ensures Commits(db, Step(normalize, db, Runs(t)), t) ==> db.transactions[t].Committing?
  {
    hide HasSnapshot, Before, RepairedForm;
  }

  /** A writer that changes who edited a document also raises its version, and versions never fall. */
  predicate Disciplined(db: Database, a: Action) {
    match a
    case Write(id, document) =>
      id in db.documents ==>
        && document.version >= db.documents[id].version
        && (document.editor != db.documents[id].editor ==> document.version > db.documents[id].version)
    case _ => true
  }

  /** Documents are not written again after they were deleted. */
  predicate NoReuse(db: Database, a: Action) {
    a.Write? && a.id !in db.documents ==>
      forall t :: t in db.transactions && !db.transactions[t].Done? ==> db.transactions[t].id != a.id
  }

  ghost predicate AllDisciplined(normalize: string -> string, db: Database, actions: seq<Action>) {
    forall i :: 0 <= i < |actions| ==>
      var at := RunAll(normalize, db, actions[..i]);
      Disciplined(at, actions[i]) && NoReuse(at, actions[i])
  }

  /** The row a transaction has read carries the same editor as long as its version is the same. */
  predicate Carries(db: Database, x: Transaction) {
    HasRead(x) && x.id in db.documents ==>
      && db.documents[x.id].version >= x.current.version
      && (db.documents[x.id].version == x.current.version ==> db.documents[x.id].editor == x.current.editor)
  }

  ghost predicate SameEditor(db: Database) {
    forall t :: t in db.transactions ==> Carries(db, db.transactions[t])
  }

  /** A step that touches a row keeps, or raises, its version, and keeps its editor with the version. */
  predicate Ages(before: Database, after: Database, id: string) {
    id in before.documents && id in after.documents ==>
      var was, now := before.documents[id], after.documents[id];
      now.version >= was.version && (now.version == was.version ==> now.editor == was.editor)
  }

  lemma StepAges(normalize: string -> string, db: Database, a: Action, id: string)
    requires Invariant(normalize, db) && Disciplined(db, a)
    ensures Ages(db, Step(normalize, db, a), id)
  {
    hide HasSnapshot, Before, Local;
    if a.Runs? && a.t in db.transactions {
      assert Holds(db, a.t, db.transactions[a.t]);
    }
  }

  lemma StepRevives(normalize: string -> string, db: Database, a: Action, t: nat)
    requires NoReuse(db, a) && t in db.transactions && HasRead(db.transactions[t])
    ensures var id := db.transactions[t].id;
            id in Step(normalize, db, a).documents ==> id in db.documents
  {
    hide HasSnapshot, Before, RepairedForm;
  }

  lemma StepKeepsEditor(normalize: string -> string, db: Database, a: Action)
    requires Invariant(normalize, db) && SameEditor(db) && Disciplined(db, a) && NoReuse(db, a)
    ensures SameEditor(Step(normalize, db, a))
  {
    hide Step, Invariant, Disciplined, NoReuse, Leaves;
    var after := Step(normalize, db, a);
    forall t | t in after.transactions
      ensures Carries(after, after.transactions[t])
    {
      var y := after.transactions[t];
      KeepsWhatItRead(normalize, db, a, t);
      if HasRead(y) && y.id in after.documents {
        if Reads(db, t, a) {
          Untouched(normalize, db, y.id, a);
        } else {
          assert Carries(db, db.transactions[t]);
          StepRevives(normalize, db, a, t);
          StepAges(normalize, db, a, y.id);
        }
      }
    }
  }

  lemma {:induction false} RunKeepsEditor(normalize: string -> string, db: Database, actions: seq<Action>)
    requires Invariant(normalize, db) && SameEditor(db) && AllDisciplined(normalize, db, actions)
    ensures SameEditor(RunAll(normalize, db, actions))
  {
    if actions != [] {
      hide Step, Invariant, SameEditor, Disciplined, NoReuse;
      var front := actions[..|actions| - 1];
      forall i | 0 <= i < |front|
        ensures var at := RunAll(normalize, db, front[..i]); Disciplined(at, front[i]) && NoReuse(at, front[i])
      {
        assert front[..i] == actions[..i] && front[i] == actions[i];
      }
      RunKeepsEditor(normalize, db, front);
      RunKeepsInvariant(normalize, db, front);
      StepKeepsEditor(normalize, RunAll(normalize, db, front), actions[|actions| - 1]);
    }
  }

  /** So it does when every writer is disciplined and no deleted document is written again. */
  lemma {:induction false} DisciplinedWritersKeepTheEditor(
      normalize: string -> string, documents: map<string, Document>, snapshots: seq<Snapshot>,
      actions: seq<Action>, t: nat)
    requires AllDisciplined(normalize, Quiet(documents, snapshots), actions)
    ensures var before := RunAll(normalize, Quiet(documents, snapshots), actions);
            var after := Step(normalize, before, Runs(t));
            Commits(before, after, t) && |after.snapshots| > |before.snapshots| ==>
              var id := before.transactions[t].id;
              && id in before.documents
              && after.snapshots[|before.snapshots|].changedBy == before.documents[id].editor
  {
    NothingRuns(normalize, documents, snapshots);
    NoLostUpdate(normalize, documents, snapshots, actions, t);
    RunKeepsInvariant(normalize, Quiet(documents, snapshots), actions);
    RunKeepsEditor(normalize, Quiet(documents, snapshots), actions);
    hide RunAll;
  }

  /**
   * The compare-and-set looks at version and content only: a writer that takes a document over
   * without touching either leaves the repair's snapshot with the editor before it.
   */
  lemma SnapshotMayNameAnEarlierEditor(normalize: string -> string, was: Document, taken: Document)
    requires normalize(was.content) != was.content
    requires taken == was.(editor := taken.editor) && taken.editor != was.editor
    ensures exists actions: seq<Action> ::
              var after := RunAll(normalize, Quiet(map["d" := was], []), actions);
              && |after.snapshots| == 1
              && after.snapshots[0].content == taken.content && after.snapshots[0].changedBy == was.editor
              && "d" in after.documents && after.documents["d"].content == normalize(taken.content)
  {
    var db := Quiet(map["d" := was], []);
    var actions := [Begin(0, "d"), Runs(0), Write("d", taken), Runs(0), Runs(0), Runs(0), Runs(0)];
    SevenSteps(normalize, db, actions);
    TakenOver(normalize, was, taken);
    hide Step, RunAll;
  }

  lemma TakenOver(normalize: string -> string, was: Document, taken: Document)
    requires normalize(was.content) != was.content
    requires taken == was.(editor := taken.editor) && taken.editor != was.editor
    ensures var read := Step(normalize, Step(normalize, Quiet(map["d" := was], []), Begin(0, "d")), Runs(0));
            var checked := Step(normalize, Step(normalize, read, Write("d", taken)), Runs(0));
            var after := Step(normalize, Step(normalize, Step(normalize, checked, Runs(0)), Runs(0)), Runs(0));
            && |after.snapshots| == 1
            && after.snapshots[0].content == taken.content && after.snapshots[0].changedBy == was.editor
            && "d" in after.documents && after.documents["d"].content == normalize(taken.content)
  {
    var d2 := Step(normalize, Step(normalize, Quiet(map["d" := was], []), Begin(0, "d")), Runs(0));
    assert d2.transactions == map[0 := Checking("d", was)];
    var d3 := Step(normalize, d2, Write("d", taken));
    assert d3 == d2.(documents := map["d" := taken]);
    var d5 := Step(normalize, Step(normalize, d3, Runs(0)), Runs(0));
    assert d5.transactions == map[0 := Updating("d", was, [Before("d", was)])];
    var d7 := Step(normalize, Step(normalize, d5, Runs(0)), Runs(0));
    assert d7.snapshots == [Before("d", was)];
  }

  lemma SevenSteps(normalize: string -> string, db: Database, actions: seq<Action>)
    requires |actions| == 7
    ensures var two := Step(normalize, Step(normalize, db, actions[0]), actions[1]);
            var four := Step(normalize, Step(normalize, two, actions[2]), actions[3]);
            RunAll(normalize, db, actions)
              == Step(normalize, Step(normalize, Step(normalize, four, actions[4]), actions[5]), actions[6])
  {
    hide Step;
    One(normalize, db, actions, 0);
    One(normalize, db, actions, 1);
    One(normalize, db, actions, 2);
    One(normalize, db, actions, 3);
    One(normalize, db, actions, 4);
    One(normalize, db, actions, 5);
    One(normalize, db, actions, 6);
    assert actions[..0] == [] && actions[..7] == actions;
  }

  lemma One(normalize: string -> string, db: Database, actions: seq<Action>, i: nat)
    requires i < |actions|
    ensures RunAll(normalize, db, actions[..i + 1])
         == Step(normalize, RunAll(normalize, db, actions[..i]), actions[i])
  {
    hide Step;
    assert actions[..i + 1][..i] == actions[..i];
  }
}

/** One document's repair as it runs: each method is one statement of its transaction. */
module RepairDocument {
  import opened RepairTransaction
  import opened Wrappers

  /** The database, with the writes of transactions that have not committed kept apart. */
  class Store {
    var documents: map<string, Document>
    var snapshots: seq<Snapshot>
    var proposals: set<string>
    var locks: map<string, nat>
    ghost var transactions: map<nat, Transaction>

    ghost function Abstract(): Database
      reads this
    {
      Database(documents, snapshots, proposals, locks, transactions)
    }

    constructor (documents: map<string, Document>, snapshots: seq<Snapshot>)
      ensures Abstract() == Quiet(documents, snapshots)
    {
      this.documents, this.snapshots := documents, snapshots;
      proposals, locks, transactions := {}, map[], map[];
    }
  }

  /** How one repair ends with nothing else running. */
  function Alone(
      normalize: string -> string, documents: map<string, Document>, proposals: set<string>, id: string): Outcome
  {
    if id !in documents then Outcome.Failed
    else if id in proposals then SkippedPendingProposal
    else if normalize(documents[id].content) == documents[id].content then AlreadyClean
    else Repaired(|documents[id].content| - |normalize(documents[id].content)|)
  }

  /** What it leaves of the documents. */
  function AfterAlone(
      normalize: string -> string, documents: map<string, Document>, proposals: set<string>, id: string)
    : map<string, Document>
  {
    if Alone(normalize, documents, proposals, id).Repaired?
    then documents[id := RepairedForm(normalize, documents[id], documents[id])]
    else documents
  }

  /** Said outright: what one repair comes to, and leaves, with nothing else running. */
  lemma AloneExactly(
      normalize: string -> string, documents: map<string, Document>, proposals: set<string>, id: string)
    ensures var outcome := Alone(normalize, documents, proposals, id);
            && (outcome == Outcome.Failed <==> id !in documents)
            && (outcome == SkippedPendingProposal <==> id in documents && id in proposals)
            && (outcome == AlreadyClean <==>
                  id in documents && id !in proposals && normalize(documents[id].content) == documents[id].content)
            && (outcome.Repaired? <==>
                  id in documents && id !in proposals && normalize(documents[id].content) != documents[id].content)
    ensures var after := AfterAlone(normalize, documents, proposals, id);
            if id in documents && id !in proposals && normalize(documents[id].content) != documents[id].content then
              after == documents[id := documents[id].(
                content := normalize(documents[id].content), version := documents[id].version + 1,
                editor := Some("system:quote-repair"), hash := None)]
            else after == documents
  {
  }

  datatype Next = Read | Check | Snapshot | CompareAndSet | Commit | Ended(outcome: Outcome)

  class Repair {
    const t: nat
    const documentId: string
    const store: Store
    const normalize: string -> string
    var next: Next
    var current: Document
    var created: seq<RepairTransaction.Snapshot>

    ghost function Stands(): Transaction
      reads this
    {
      match next
      case Read => Reading(documentId)
      case Check => Checking(documentId, current)
      case Snapshot => Snapshotting(documentId, current)
      case CompareAndSet => Updating(documentId, current, created)
      case Commit => Committing(documentId, current, created)
      case Ended(outcome) => Done(outcome)
    }

    ghost predicate Valid()
      reads this, store
    {
      t in store.transactions && store.transactions[t] == Stands()
    }

    constructor (t: nat, documentId: string, store: Store, normalize: string -> string)
      requires t !in store.transactions
      modifies store`transactions
      ensures store.transactions == old(store.transactions)[t := Reading(documentId)]
      ensures Valid() && next == Read
      ensures this.t == t && this.documentId == documentId && this.store == store && this.normalize == normalize
      ensures store.Abstract() == Step(normalize, old(store.Abstract()), Begin(t, documentId))
    {
      this.t, this.documentId, this.store, this.normalize := t, documentId, store, normalize;
      next, created := Read, [];
      current := Document("", 0, None, None, Tenant(None, None));
      new;
      store.transactions := store.transactions[t := Reading(documentId)];
    }

    /** The document is read inside the transaction: what the scan saw may be old. */
    method ReadDocument()
      requires Valid() && next == Read
      modifies this`next, this`current, store`transactions
      ensures Valid() && store.Abstract() == Step(normalize, old(store.Abstract()), Runs(t))
      ensures store.transactions.Keys == old(store.transactions).Keys
      ensures next == if documentId in store.documents then Check else Ended(Outcome.Failed)
      ensures next == Check ==> current == store.documents[documentId]
    {
      if documentId !in store.documents {
        End(Outcome.Failed);
        return;
      }
      current := store.documents[documentId];
      Go(Check);
    }

    /** A document with a proposal awaiting review is left alone, and so is a clean one. */
    method CheckDocument()
      requires Valid() && next == Check
      modifies this`next, store`transactions
      ensures Valid() && store.Abstract() == Step(normalize, old(store.Abstract()), Runs(t))
      ensures store.transactions.Keys == old(store.transactions).Keys
      ensures next == if documentId in store.proposals then Ended(SkippedPendingProposal)
                      else if normalize(current.content) == current.content then Ended(AlreadyClean)
                      else Next.Snapshot
    {
      if documentId in store.proposals {
        End(SkippedPendingProposal);
        return;
      }
      var repaired := normalize(current.content);
      if repaired == current.content {
        End(AlreadyClean);
        return;
      }
      Go(Next.Snapshot);
    }

    /** A snapshot of the content before the repair, unless its version has one. */
    method TakeSnapshot()
      requires Valid() && next == Next.Snapshot
      modifies this`next, this`created, store`transactions
      ensures Valid() && store.Abstract() == Step(normalize, old(store.Abstract()), Runs(t))
      ensures store.transactions.Keys == old(store.transactions).Keys
      ensures next == CompareAndSet
      ensures created == if HasSnapshot(store.snapshots, documentId, current.version) then []
                         else [Before(documentId, current)]
    {
      created := [];
      var existing := FindSnapshot(current.version);
      if !existing {
        created := [RepairTransaction.Snapshot(
          documentId, current.version, current.content, current.editor, current.tenant)];
      }
      Go(CompareAndSet);
    }

    method FindSnapshot(version: int) returns (found: bool)
      ensures found == HasSnapshot(store.snapshots, documentId, version)
    {
      for i := 0 to |store.snapshots|
        invariant !HasSnapshot(store.snapshots[..i], documentId, version)
      {
        if store.snapshots[i].documentId == documentId && store.snapshots[i].version == version {
          return true;
        }
      }
      assert store.snapshots[..|store.snapshots|] == store.snapshots;
      return false;
    }

    /** Locks the row when it is still as it was read; false while another transaction holds it. */
    method CompareAndSetDocument() returns (ran: bool)
      requires Valid() && next == CompareAndSet
      modifies this`next, store`locks, store`transactions
      ensures Valid() && store.Abstract() == Step(normalize, old(store.Abstract()), Runs(t))
      ensures store.transactions.Keys == old(store.transactions).Keys
      ensures ran == (documentId !in old(store.locks))
      ensures store.locks == if next == Commit then old(store.locks)[documentId := t] else old(store.locks)
      ensures next == if !ran then CompareAndSet
                      else if documentId in old(store.documents)
                              && old(store.documents)[documentId].version == current.version
                              && old(store.documents)[documentId].content == current.content
                      then Commit else Ended(Conflict)
    {
      if documentId in store.locks {
        return false;
      }
      var count := 0;
      if documentId in store.documents {
        var row := store.documents[documentId];
        if row.version == current.version && row.content == current.content {
          store.locks := store.locks[documentId := t];
          count := 1;
        }
      }
      if count != 1 {
        End(Conflict);
      } else {
        Go(Commit);
      }
      return true;
    }

    /** The repair and its snapshot become visible together. */
    method CommitRepair()
      requires Valid() && next == Commit && documentId in store.documents
      modifies this`next, store
      ensures Valid() && store.Abstract() == Step(normalize, old(store.Abstract()), Runs(t))
      ensures store.transactions.Keys == old(store.transactions).Keys
      ensures next == Ended(Repaired(|current.content| - |normalize(current.content)|))
      ensures store.documents == old(store.documents)[documentId :=
                RepairedForm(normalize, old(store.documents)[documentId], current)]
      ensures store.snapshots == old(store.snapshots) + created
      ensures store.proposals == old(store.proposals) && store.locks == old(store.locks) - {documentId}
    {
      var repaired := normalize(current.content);
      var row := store.documents[documentId];
      store.documents := store.documents[documentId :=
        row.(content := repaired, version := current.version + 1, editor := Some(REPAIR_AUTHOR), hash := None)];
      store.snapshots := store.snapshots + created;
      store.locks := store.locks - {documentId};
      End(Repaired(|current.content| - |repaired|));
    }

    method Go(to: Next)
      requires t in store.transactions
      modifies this`next, store`transactions
      ensures next == to
      ensures store.transactions == old(store.transactions)[t := Stands()]
    {
      next := to;
      store.transactions := store.transactions[t := Stands()];
    }

    method End(outcome: Outcome)
      requires t in store.transactions
      modifies this`next, store`transactions
      ensures next == Ended(outcome)
      ensures store.transactions == old(store.transactions)[t := Done(outcome)]
    {
      Go(Ended(outcome));
    }

    /**
     * With nothing else running there is no conflict: exactly a document that is there, awaits no
     * review and is not clean is repaired, with a snapshot of its content and editor added when its
     * version had none.
     */
    method RunAlone() returns (outcome: Outcome)
      requires Valid() && next == Read && documentId !in store.locks
      modifies this, store
      ensures Valid() && next == Ended(outcome)
      ensures outcome == Alone(normalize, old(store.documents), old(store.proposals), documentId)
      ensures store.documents == AfterAlone(normalize, old(store.documents), old(store.proposals), documentId)
      ensures store.proposals == old(store.proposals) && store.locks == old(store.locks)
      ensures store.transactions.Keys == old(store.transactions).Keys
      ensures !outcome.Repaired? ==> store.snapshots == old(store.snapshots)
      ensures outcome.Repaired? ==>
                var was := old(store.documents)[documentId];
                && HasSnapshot(store.snapshots, documentId, was.version)
                && (!HasSnapshot(old(store.snapshots), documentId, was.version) ==>
                      store.snapshots == old(store.snapshots) + [Before(documentId, was)])
    {
      hide Step, RepairTransaction.Run, HasSnapshot, Before, RepairedForm, Store.Abstract;
      ReadDocument();
      if next.Ended? {
        return next.outcome;
      }
      CheckDocument();
      if next.Ended? {
        return next.outcome;
      }
      Rewrite();
      return next.outcome;
    }

    /** From a document that is to be repaired to the committed repair, with nothing else running. */
    method Rewrite()
      requires Valid() && next == Next.Snapshot && documentId !in store.locks
      requires documentId in store.documents && current == store.documents[documentId]
      modifies this`next, this`created, store
      ensures Valid() && next == Ended(Repaired(|current.content| - |normalize(current.content)|))
      ensures store.documents == old(store.documents)[documentId := RepairedForm(normalize, current, current)]
      ensures store.proposals == old(store.proposals) && store.locks == old(store.locks)
      ensures store.transactions.Keys == old(store.transactions).Keys
      ensures HasSnapshot(store.snapshots, documentId, current.version)
      ensures !HasSnapshot(old(store.snapshots), documentId, current.version) ==>
                store.snapshots == old(store.snapshots) + [Before(documentId, current)]
    {
      hide Step, RepairTransaction.Run, HasSnapshot, Before, RepairedForm, Store.Abstract;
      TakeSnapshot();
      var ran := CompareAndSetDocument();
      CommitRepair();
      SnapshotAdded(old(store.snapshots), documentId, current);
      assert old(store.locks)[documentId := t] - {documentId} == old(store.locks);
    }
  }

  lemma SnapshotAdded(snapshots: seq<RepairTransaction.Snapshot>, id: string, current: Document)
    ensures HasSnapshot(snapshots + [Before(id, current)], id, current.version)
    ensures snapshots + [] == snapshots
  {
    var more := snapshots + [Before(id, current)];
    assert more[|snapshots|] == Before(id, current);
  }
}

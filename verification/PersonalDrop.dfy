/**
 * Dropping personal-workspace data: phase A decides user by user who is cleared, phase B deletes
 * the rows of each model, in batches, within a scope that keeps to those users.
 */
module PersonalDropSpec {
  import opened Wrappers

  /** How a model says that a row is personal, and whether its rows have an owner. */
  datatype Model = Model(name: string, emptyString: bool, hasUserId: bool, userIdNullable: bool)

  datatype Row = Row(organizationId: Option<string>, userId: Option<string>)

  /** A row its model's columns can hold. */
  predicate Conforms(m: Model, row: Row) {
    && (m.emptyString ==> row.organizationId.Some?)
    && (m.hasUserId && !m.userIdNullable ==> row.userId.Some?)
    && (!m.hasUserId ==> row.userId.None?)
  }

  /** A condition on the owner column; none of its operators selects a null. */
  datatype Owner = Owner(notNull: bool, within: Option<seq<string>>, without: Option<seq<string>>)

  datatype Where = Where(organizationId: Option<string>, userId: Option<Owner>)

  predicate Selects(w: Where, row: Row) {
    && row.organizationId == w.organizationId
    && (w.userId.Some? ==>
          && row.userId.Some?
          && (w.userId.value.within.Some? ==> row.userId.value in w.userId.value.within.value)
          && (w.userId.value.without.Some? ==> row.userId.value !in w.userId.value.without.value))
  }

  function PersonalWhere(m: Model): Where {
    Where(if m.emptyString then Some("") else None,
          if m.userIdNullable then Some(Owner(true, None, None)) else None)
  }

  /** Restricts the owners, and keeps a guard against ownerless rows. */
  function WithOwner(base: Where, owner: Owner): Where {
    base.(userId := Some(owner.(notNull := owner.notNull || (base.userId.Some? && base.userId.value.notNull))))
  }

  /** The rows of a model to sweep, if any: within `cleared` when it is given, else not of `refused`. */
  function Scope(m: Model, cleared: Option<seq<string>>, refused: seq<string>): Option<Where> {
    if !m.hasUserId then None
    else if cleared.Some? then Some(WithOwner(PersonalWhere(m), Owner(false, cleared, None)))
    else if |refused| > 0 then Some(WithOwner(PersonalWhere(m), Owner(false, None, Some(refused))))
    else Some(PersonalWhere(m))
  }

  predicate Personal(m: Model, row: Row) {
    row.organizationId == if m.emptyString then Some("") else None
  }

  predicate Sweeps(m: Model, cleared: Option<seq<string>>, refused: seq<string>, row: Row) {
    Scope(m, cleared, refused).Some? && Selects(Scope(m, cleared, refused).value, row)
  }

  /** What each of a user's three steps comes to. */
  datatype StepResult = Fine(count: nat) | Refused(reason: string) | Threw(message: string)

  datatype Answers = Answers(purchases: StepResult, objects: StepResult, embeddings: StepResult)

  /** A refusal needs a reason that is not empty. */
  predicate Passes(step: StepResult) { step.Fine? || step == Refused("") }

  predicate Clears(a: Answers) { Passes(a.purchases) && Passes(a.objects) && Passes(a.embeddings) }

  /** Why a user is refused: the first of the three steps that did not pass. */
  function Reason(a: Answers): string {
    var step := if !Passes(a.purchases) then a.purchases
                else if !Passes(a.objects) then a.objects else a.embeddings;
    Said(step)
  }

  /** What a step says when it refuses or throws. */
  function Said(step: StepResult): string {
    match step
    case Fine(_) => ""
    case Refused(reason) => reason
    case Threw(message) => "failed: " + message
  }

  function Cleared(users: seq<string>, answers: string -> Answers): seq<string> {
    if users == [] then []
    else
      var last := users[|users| - 1];
      Cleared(users[..|users| - 1], answers) + (if Clears(answers(last)) then [last] else [])
  }

  function RefusedUsers(users: seq<string>, answers: string -> Answers): seq<string> {
    if users == [] then []
    else
      var last := users[|users| - 1];
      RefusedUsers(users[..|users| - 1], answers) + (if Clears(answers(last)) then [] else [last])
  }
}

module PersonalDropTheorems {
  import opened PersonalDropSpec
  import opened Wrappers

  /** Every user is in exactly one of cleared and refused, and there is nobody else in them. */
  lemma {:induction false} Partition(users: seq<string>, answers: string -> Answers)
    ensures forall u :: u in users <==> u in Cleared(users, answers) || u in RefusedUsers(users, answers)
    ensures forall u :: u in Cleared(users, answers) ==> Clears(answers(u))
    ensures forall u :: u in RefusedUsers(users, answers) ==> !Clears(answers(u))
    ensures |Cleared(users, answers)| + |RefusedUsers(users, answers)| == |users|
  {
    if users != [] {
      var front, last := users[..|users| - 1], users[|users| - 1];
      Partition(front, answers);
      assert users == front + [last];
    }
  }

  /**
   * Said outright: a listed user is refused exactly when settling the purchases, dropping the objects
   * or dropping the embeddings threw, or refused with a reason; and cleared exactly when none did.
   */
  lemma RefusedExactly(users: seq<string>, answers: string -> Answers, user: string)
    requires user in users
    ensures var a := answers(user);
            user in RefusedUsers(users, answers) <==>
              || a.purchases.Threw? || (a.purchases.Refused? && a.purchases.reason != "")
              || a.objects.Threw? || (a.objects.Refused? && a.objects.reason != "")
              || a.embeddings.Threw? || (a.embeddings.Refused? && a.embeddings.reason != "")
    ensures user in Cleared(users, answers) <==> user !in RefusedUsers(users, answers)
  {
    Partition(users, answers);
  }

  /** The reason is that of the first of the three steps that stopped. */
  lemma ReasonExactly(a: Answers)
    ensures a.purchases.Threw? ==> Reason(a) == "failed: " + a.purchases.message
    ensures a.purchases.Refused? && a.purchases.reason != "" ==> Reason(a) == a.purchases.reason
    ensures a.purchases.Fine? || a.purchases == Refused("") ==>
              && (a.objects.Threw? ==> Reason(a) == "failed: " + a.objects.message)
              && (a.objects.Refused? && a.objects.reason != "" ==> Reason(a) == a.objects.reason)
              && (a.objects.Fine? || a.objects == Refused("") ==>
                    && (a.embeddings.Threw? ==> Reason(a) == "failed: " + a.embeddings.message)
                    && (a.embeddings.Refused? && a.embeddings.reason != "" ==> Reason(a) == a.embeddings.reason))
  {
  }

  /** The users keep their order in both lists. */
  lemma {:induction false} ListsCut(a: seq<string>, b: seq<string>, answers: string -> Answers)
    ensures Cleared(a + b, answers) == Cleared(a, answers) + Cleared(b, answers)
    ensures RefusedUsers(a + b, answers) == RefusedUsers(a, answers) + RefusedUsers(b, answers)
    decreases |b|
  {
    if b == [] {
      assert a + b == a;
    } else {
      assert (a + b)[..|a + b| - 1] == a + b[..|b| - 1];
      ListsCut(a, b[..|b| - 1], answers);
    }
  }

  /**
   * Both forms of the scope, for any row its model can hold: it is swept exactly when the model has
   * an owner column, the row is personal, and it has an owner who is cleared, or not refused.
   */
  lemma {:induction false} SweptExactly(m: Model, cleared: Option<seq<string>>, refused: seq<string>, row: Row)
    requires Conforms(m, row)
    ensures Sweeps(m, cleared, refused, row) <==>
              && m.hasUserId && row.organizationId == (if m.emptyString then Some("") else None)
              && row.userId.Some?
              && (if cleared.Some? then row.userId.value in cleared.value else row.userId.value !in refused)
  {
  }

  /** Where a row may lack an owner, the guard against ownerless rows is kept whatever is added to it. */
  lemma GuardIsKept(m: Model, cleared: Option<seq<string>>, refused: seq<string>)
    requires m.hasUserId && m.userIdNullable
    ensures var scope := Scope(m, cleared, refused);
            scope.Some? && scope.value.userId.Some? && scope.value.userId.value.notNull
  {
  }

  /**
   * After phase A, sweeping for all users and sweeping for the cleared ones select the same rows,
   * but for personal rows whose owner is not a listed user.
   */
  lemma {:induction false} ScopesAgreeExactly(m: Model, users: seq<string>, answers: string -> Answers, row: Row)
    requires Conforms(m, row)
    ensures var cleared, refused := Cleared(users, answers), RefusedUsers(users, answers);
            (Sweeps(m, None, refused, row) <==> Sweeps(m, Some(cleared), refused, row))
              <==> !(m.hasUserId && Personal(m, row) && row.userId.Some? && row.userId.value !in users)
  {
    Partition(users, answers);
    SweptExactly(m, None, RefusedUsers(users, answers), row);
    SweptExactly(m, Some(Cleared(users, answers)), RefusedUsers(users, answers), row);
  }

  /** Neither form of the scope takes a refused user's row, an ownerless one, or one of an organization. */
  lemma NeverTheRefused(m: Model, users: seq<string>, answers: string -> Answers, each: bool, row: Row)
    requires Conforms(m, row)
    requires Sweeps(m, if each then Some(Cleared(users, answers)) else None, RefusedUsers(users, answers), row)
    ensures m.hasUserId && Personal(m, row) && row.userId.Some?
    ensures row.userId.value !in RefusedUsers(users, answers)
    ensures each || row.userId.value in users ==> Clears(answers(row.userId.value))
  {
    Partition(users, answers);
    SweptExactly(m, if each then Some(Cleared(users, answers)) else None, RefusedUsers(users, answers), row);
  }
}

module PersonalDrop {
  import opened PersonalDropSpec
  import opened PersonalDropTheorems
  import opened Wrappers

  const AUDIT_LOG := "AuditLog"

  method RunPhaseA(users: seq<string>, answers: string -> Answers)
    returns (cleared: seq<string>, refused: seq<(string, string)>)
    ensures cleared == Cleared(users, answers)
    ensures |refused| == |RefusedUsers(users, answers)|
    ensures forall i :: 0 <= i < |refused| ==>
              var user := RefusedUsers(users, answers)[i]; refused[i] == (user, Reason(answers(user)))
  {
    cleared, refused := [], [];
    for i := 0 to |users|
      invariant cleared == Cleared(users[..i], answers)
      invariant |refused| == |RefusedUsers(users[..i], answers)|
      invariant forall k :: 0 <= k < |refused| ==>
                  var user := RefusedUsers(users[..i], answers)[k]; refused[k] == (user, Reason(answers(user)))
    {
      assert users[..i + 1][..i] == users[..i];
      var purchases := answers(users[i]).purchases;
      if !Passes(purchases) {
        refused := refused + [(users[i], Said(purchases))];
        continue;
      }
      var objects := answers(users[i]).objects;
      if !Passes(objects) {
        refused := refused + [(users[i], Said(objects))];
        continue;
      }
      var embeddings := answers(users[i]).embeddings;
      if !Passes(embeddings) {
        refused := refused + [(users[i], Said(embeddings))];
        continue;
      }
      cleared := cleared + [users[i]];
    }
    assert users[..|users|] == users;
  }

  type Table = map<string, Row>

  /** The rows of a table that a condition selects. */
  function Matching(table: Table, w: Where): set<string> {
    set id | id in table && Selects(w, table[id])
  }

  /** A table without the rows that a condition selects. */
  function Swept(table: Table, w: Where): Table { table - Matching(table, w) }

  /** Whether a model is swept at all, and then within which condition. */
  function SweepScope(m: Model, cleared: Option<seq<string>>, refused: seq<string>): Option<Where> {
    if m.name == AUDIT_LOG then None else Scope(m, cleared, refused)
  }

  /** How many rows of a model's table its sweep selects. */
  function Found(m: Model, cleared: Option<seq<string>>, refused: seq<string>, table: Table): nat {
    var scope := SweepScope(m, cleared, refused);
    if scope.None? then 0 else |Matching(table, scope.value)|
  }

  /** What is left of one model's table after its sweep. */
  function AfterSweep(m: Model, cleared: Option<seq<string>>, refused: seq<string>, table: Table): Table {
    var scope := SweepScope(m, cleared, refused);
    if scope.None? then table else Swept(table, scope.value)
  }

  /**
   * Said outright: of a model other than the audit log, with an owner column, exactly the personal
   * rows go whose owner is cleared, or not refused; as many as were counted. All others stay as they are.
   */
  lemma AfterSweepExactly(m: Model, cleared: Option<seq<string>>, refused: seq<string>, table: Table)
    requires forall id :: id in table ==> Conforms(m, table[id])
    ensures var after := AfterSweep(m, cleared, refused, table);
            && (forall id :: id in after <==>
                  id in table &&
                  var row := table[id];
                  !(&& m.name != "AuditLog" && m.hasUserId
                    && row.organizationId == (if m.emptyString then Some("") else None)
                    && row.userId.Some?
                    && (if cleared.Some? then row.userId.value in cleared.value else row.userId.value !in refused)))
            && (forall id :: id in after ==> after[id] == table[id])
            && |after| + Found(m, cleared, refused, table) == |table|
  {
    hide Scope, Selects;
    forall id | id in table
      ensures Sweeps(m, cleared, refused, table[id]) <==>
                && m.hasUserId && table[id].organizationId == (if m.emptyString then Some("") else None)
                && table[id].userId.Some?
                && (if cleared.Some? then table[id].userId.value in cleared.value
                    else table[id].userId.value !in refused)
    {
      SweptExactly(m, cleared, refused, table[id]);
    }
    var scope := SweepScope(m, cleared, refused);
    if scope.Some? {
      Fewer(table, Matching(table, scope.value));
    }
  }

  lemma Fewer(table: Table, gone: set<string>)
    requires gone <= table.Keys
    ensures |table - gone| + |gone| == |table|
  {
    assert (table - gone).Keys == table.Keys - gone;
    assert |table.Keys| == |table| && |(table - gone).Keys| == |table - gone|;
  }

  /** A model without an entry counts nothing. */
  function CountOf(counts: map<string, nat>, name: string): nat {
    if name in counts then counts[name] else 0
  }

  class Database {
    var tables: map<string, Table>

    constructor (tables: map<string, Table>)
      ensures this.tables == tables
    {
      this.tables := tables;
    }

    /** Any rows that match, as many as there are but no more than `take`. */
    method FindMany(model: string, w: Where, take: nat) returns (page: set<string>)
      requires model in tables
      ensures page <= Matching(tables[model], w)
      ensures |page| == take || (|page| < take && page == Matching(tables[model], w))
    {
      page := {};
      var rest := Matching(tables[model], w);
      while |page| < take && rest != {}
        invariant page !! rest && page + rest == Matching(tables[model], w) && |page| <= take
        decreases |rest|
      {
        var id :| id in rest;
        page, rest := page + {id}, rest - {id};
      }
    }

    method DeleteMany(model: string, ids: set<string>) returns (count: nat)
      requires model in tables && ids <= tables[model].Keys
      modifies this
      ensures tables == old(tables)[model := old(tables)[model] - ids]
      ensures count == |ids|
    {
      tables := tables[model := tables[model] - ids];
      count := |ids|;
    }

    /**
     * Deletes in batches of ids. With a positive batch every matching row goes, and no other; with
     * a batch of zero, nothing does.
     */
    method DeleteInBatches(model: string, w: Where, batch: nat) returns (removed: nat)
      requires model in tables
      modifies this
      ensures batch > 0 ==> tables == old(tables)[model := Swept(old(tables)[model], w)]
      ensures batch > 0 ==> removed == |Matching(old(tables)[model], w)|
      ensures batch == 0 ==> tables == old(tables) && removed == 0
    {
      removed := 0;
      ghost var start := tables[model];
      ghost var gone: set<string> := {};
      assert start - gone == start && tables[model := start] == tables;
      while true
        invariant model in tables && gone <= Matching(start, w) && removed == |gone|
        invariant tables == old(tables)[model := start - gone]
        invariant batch == 0 ==> gone == {}
        decreases Matching(start, w) - gone
      {
        assert Matching(tables[model], w) == Matching(start, w) - gone;
        var page := FindMany(model, w, batch);
        if |page| == 0 {
          assert batch > 0 ==> gone == Matching(start, w);
          return;
        }
        var count := DeleteMany(model, page);
        removed := removed + count;
        assert (start - gone) - page == start - (gone + page);
        assert Matching(start, w) - (gone + page) < Matching(start, w) - gone;
        gone := gone + page;
        if |page| < batch {
          assert gone == Matching(start, w);
          return;
        }
      }
    }

    /** Sweeps every model within the scope of phase A's decisions; a dry run only counts. */
    method RunPhaseB(models: seq<Model>, cleared: Option<seq<string>>, refused: seq<string>, apply: bool, batch: nat)
      returns (counts: map<string, nat>)
      requires forall i, j :: 0 <= i < j < |models| ==> models[i].name != models[j].name
      modifies this
      ensures tables.Keys == old(tables).Keys
      ensures !apply || batch == 0 ==> tables == old(tables)
      // The counts of a dry run are those of the real one.
      ensures forall i :: 0 <= i < |models| && models[i].name in tables ==>
                CountOf(counts, models[i].name) == Found(models[i], cleared, refused, old(tables)[models[i].name])
      ensures apply && batch > 0 ==> forall i :: 0 <= i < |models| && models[i].name in tables ==>
                tables[models[i].name] == AfterSweep(models[i], cleared, refused, old(tables)[models[i].name])
      ensures apply && batch > 0 ==>
                forall name :: name in tables && (forall i :: 0 <= i < |models| ==> models[i].name != name) ==>
                  tables[name] == old(tables)[name]
    {
      counts := map[];
      for i := 0 to |models|
        invariant tables.Keys == old(tables).Keys
        invariant !apply || batch == 0 ==> tables == old(tables)
        invariant forall name :: name in counts ==> exists k :: 0 <= k < i && models[k].name == name
        invariant forall k :: 0 <= k < i && models[k].name in tables ==>
                    CountOf(counts, models[k].name) == Found(models[k], cleared, refused, old(tables)[models[k].name])
        invariant apply && batch > 0 ==> forall k :: 0 <= k < i && models[k].name in tables ==>
                    tables[models[k].name] == AfterSweep(models[k], cleared, refused, old(tables)[models[k].name])
        invariant apply && batch > 0 ==>
                    forall name :: name in tables && (forall k :: 0 <= k < i ==> models[k].name != name) ==>
                      tables[name] == old(tables)[name]
      {
        var m := models[i];
        if m.name == AUDIT_LOG {
          continue;
        }
        var scope := Scope(m, cleared, refused);
        if scope.None? || m.name !in tables {
          continue;
        }
        assert apply ==> tables[m.name] == old(tables)[m.name];
        var found := |Matching(tables[m.name], scope.value)|;
        if found == 0 {
          assert Matching(tables[m.name], scope.value) == {};
          assert Swept(tables[m.name], scope.value) == tables[m.name];
          continue;
        }
        counts := counts[m.name := found];
        if apply {
          var removed := DeleteInBatches(m.name, scope.value, batch);
        }
      }
    }

    /** The whole run, for one user or for all of them. */
    method Run(
        models: seq<Model>, single: bool, users: seq<string>, answers: string -> Answers, apply: bool, batch: nat)
      returns (cleared: seq<string>, refused: seq<string>)
      requires forall i, j :: 0 <= i < j < |models| ==> models[i].name != models[j].name
      requires forall i, id :: 0 <= i < |models| && models[i].name in tables && id in tables[models[i].name] ==>
                 Conforms(models[i], tables[models[i].name][id])
      modifies this
      ensures cleared == Cleared(users, answers) && refused == RefusedUsers(users, answers)
      ensures tables.Keys == old(tables).Keys
      // Nothing goes on a dry run, with a batch of zero, or when every user was refused.
      ensures !apply || batch == 0 || (cleared == [] && users != []) ==> tables == old(tables)
      ensures apply && batch > 0 && (cleared != [] || users == []) ==>
                forall i :: 0 <= i < |models| && models[i].name in tables ==>
                  tables[models[i].name]
                    == AfterSweep(models[i], if single then Some(cleared) else None, refused,
                                  old(tables)[models[i].name])
      // Whatever was deleted was a personal row of a swept model, and its owner was not refused.
      ensures forall name, id :: name in tables && id in old(tables)[name] && id !in tables[name] ==>
                exists i :: 0 <= i < |models| && models[i].name == name != AUDIT_LOG
                  && var row := old(tables)[name][id];
                     && models[i].hasUserId && Personal(models[i], row) && row.userId.Some?
                     && row.userId.value !in refused
                     && (single ==> row.userId.value in cleared)
                     && (row.userId.value in users ==>
                           var a := answers(row.userId.value);
                           && (a.purchases.Fine? || a.purchases == Refused(""))
                           && (a.objects.Fine? || a.objects == Refused(""))
                           && (a.embeddings.Fine? || a.embeddings == Refused("")))
    {
      var refusals;
      cleared, refusals := RunPhaseA(users, answers);
      refused := seq(|refusals|, i requires 0 <= i < |refusals| => refusals[i].0);
      assert refused == RefusedUsers(users, answers);
      if |cleared| == 0 && |users| > 0 && apply {
        return;
      }
      var scope := if single then Some(cleared) else None;
      var counts := RunPhaseB(models, scope, refused, apply, batch);
      forall name, id | name in tables && id in old(tables)[name] && id !in tables[name]
        ensures exists i :: 0 <= i < |models| && models[i].name == name != AUDIT_LOG
                  && var row := old(tables)[name][id];
                     && models[i].hasUserId && Personal(models[i], row) && row.userId.Some?
                     && row.userId.value !in refused
                     && (single ==> row.userId.value in cleared)
                     && (row.userId.value in users ==>
                           var a := answers(row.userId.value);
                           && (a.purchases.Fine? || a.purchases == Refused(""))
                           && (a.objects.Fine? || a.objects == Refused(""))
                           && (a.embeddings.Fine? || a.embeddings == Refused("")))
      {
        var i :| 0 <= i < |models| && models[i].name == name;
        var row := old(tables)[name][id];
        assert Sweeps(models[i], scope, refused, row);
        NeverTheRefused(models[i], users, answers, single, row);
        SweptExactly(models[i], scope, refused, row);
        if row.userId.value in users {
          RefusedExactly(users, answers, row.userId.value);
        }
      }
    }
  }
}

/** Finding the documents that carry quote artifacts: a paged scan with an optional limit. */
module RepairScan {
  import opened Wrappers

  datatype Candidate = Candidate(id: string, content: string)

  /** The candidate table in id order. */
  ghost predicate Table(rows: seq<Candidate>) {
    && (forall i, j :: 0 <= i < j < |rows| ==> rows[i].id != rows[j].id)
    && (forall i :: 0 <= i < |rows| ==> rows[i].id != "")
  }

  predicate Affected(normalize: string -> string, row: Candidate) {
    normalize(row.content) != row.content
  }

  function AllAffected(normalize: string -> string, rows: seq<Candidate>): seq<Candidate> {
    if rows == [] then []
    else
      var last := rows[|rows| - 1];
      AllAffected(normalize, rows[..|rows| - 1]) + (if Affected(normalize, last) then [last] else [])
  }

  /** The first `limit` rows, or all of them. */
  function FirstOf(rows: seq<Candidate>, limit: Option<nat>): seq<Candidate> {
    if limit.Some? && limit.value <= |rows| then rows[..limit.value] else rows
  }

  /** Where the rows after the cursor start; the cursor row itself is skipped. */
  function AfterCursor(rows: seq<Candidate>, cursor: string): (at: nat)
    ensures at <= |rows|
  {
    if rows == [] then 0
    else if rows[0].id == cursor then 1
    else 1 + AfterCursor(rows[1..], cursor)
  }

  /** One query: `take` rows, from the start when there is no cursor. An empty cursor is none. */
  function FindMany(rows: seq<Candidate>, cursor: string, take: nat): (page: seq<Candidate>)
    ensures |page| <= take
  {
    var from := if cursor == "" then 0 else AfterCursor(rows, cursor);
    if from + take <= |rows| then rows[from..from + take] else rows[from..]
  }

  lemma {:induction false} AfterCursorAt(rows: seq<Candidate>, i: nat)
    requires Table(rows) && i < |rows|
    ensures AfterCursor(rows, rows[i].id) == i + 1
  {
    if i > 0 {
      AfterCursorAt(rows[1..], i - 1);
    }
  }

  lemma {:induction false} AffectedCut(normalize: string -> string, a: seq<Candidate>, b: seq<Candidate>)
    ensures AllAffected(normalize, a + b) == AllAffected(normalize, a) + AllAffected(normalize, b)
    decreases |b|
  {
    if b == [] {
      assert a + b == a;
    } else {
      assert (a + b)[..|a + b| - 1] == a + b[..|b| - 1];
      AffectedCut(normalize, a, b[..|b| - 1]);
    }
  }

  /** Said outright: the affected rows are those whose content normalising changes, in the table's order. */
  lemma {:induction false} AffectedExactly(normalize: string -> string, rows: seq<Candidate>)
    ensures forall x :: x in AllAffected(normalize, rows) <==> x in rows && normalize(x.content) != x.content
    ensures |AllAffected(normalize, rows)| <= |rows|
  {
    if rows != [] {
      AffectedExactly(normalize, rows[..|rows| - 1]);
      assert rows == rows[..|rows| - 1] + [rows[|rows| - 1]];
    }
  }

  /** The first `limit` of them: as many as there are, but no more than that, from the first on. */
  lemma FirstExactly(rows: seq<Candidate>, limit: Option<nat>)
    ensures FirstOf(rows, limit) <= rows
    ensures limit.None? || |rows| <= limit.value ==> FirstOf(rows, limit) == rows
    ensures limit.Some? && limit.value <= |rows| ==> |FirstOf(rows, limit)| == limit.value
  {
  }

  lemma AffectedOne(normalize: string -> string, rows: seq<Candidate>, i: nat)
    requires i < |rows|
    ensures AllAffected(normalize, rows[..i + 1])
         == AllAffected(normalize, rows[..i]) + (if Affected(normalize, rows[i]) then [rows[i]] else [])
  {
    assert rows[..i + 1][..i] == rows[..i];
  }

  /** The affected rows of the start of a table are the start of its affected rows. */
  lemma {:induction false} AffectedPrefix(normalize: string -> string, rows: seq<Candidate>, n: nat)
    requires n <= |rows|
    ensures AllAffected(normalize, rows[..n]) <= AllAffected(normalize, rows)
  {
    AffectedCut(normalize, rows[..n], rows[n..]);
    assert rows[..n] + rows[n..] == rows;
  }

  /** The query after `n` rows: the rows that follow, as many as fit a page. */
  lemma NextPage(rows: seq<Candidate>, n: nat, pageSize: nat)
    requires Table(rows) && n <= |rows|
    ensures var cursor := if n == 0 then "" else rows[n - 1].id;
            var page := FindMany(rows, cursor, pageSize);
            && n + |page| <= |rows| && page == rows[n..n + |page|]
            && (|page| < pageSize ==> n + |page| == |rows|)
  {
    hide AfterCursor;
    if n > 0 {
      assert rows[n - 1].id != "";
      AfterCursorAt(rows, n - 1);
    }
    hide Table;
  }

  lemma {:induction false} EnoughFound(normalize: string -> string, rows: seq<Candidate>, n: nat, limit: Option<nat>)
    requires n <= |rows| && Reached(AllAffected(normalize, rows[..n]), limit)
    ensures FirstOf(AllAffected(normalize, rows[..n]), limit) == FirstOf(AllAffected(normalize, rows), limit)
  {
    AffectedPrefix(normalize, rows, n);
  }

  predicate Reached(affected: seq<Candidate>, limit: Option<nat>) {
    limit.Some? && |affected| >= limit.value
  }

  /**
   * The first `limit` affected documents in id order, or all of them, whatever the page size.
   * The scan reads rows in order, each at most once, and stops reading once it has enough.
   */
  method Scan(normalize: string -> string, rows: seq<Candidate>, limit: Option<nat>, pageSize: nat)
    returns (affected: seq<Candidate>, scanned: nat)
    requires Table(rows) && pageSize >= 1
    requires limit.Some? ==> limit.value >= 1
    ensures affected == FirstOf(AllAffected(normalize, rows), limit)
    ensures scanned <= |rows|
    ensures affected == FirstOf(AllAffected(normalize, rows[..scanned]), limit)
    ensures scanned < |rows| ==> Reached(affected, limit)
  {
    hide AllAffected, FindMany, FirstOf, Table;
    affected, scanned := [], 0;
    NoneAffected(normalize, rows);
    Counted([], limit);
    var cursor := "";
    while true
      invariant scanned <= |rows|
      invariant cursor == if scanned == 0 then "" else rows[scanned - 1].id
      invariant affected == AllAffected(normalize, rows[..scanned])
      invariant !Reached(affected, limit)
      decreases |rows| - scanned
    {
      NextPage(rows, scanned, pageSize);
      var page := FindMany(rows, cursor, pageSize);
      if |page| == 0 {
        break;
      }
      ghost var from := scanned;
      scanned := scanned + |page|;
      cursor := page[|page| - 1].id;
      affected := CollectPage(normalize, rows, page, from, affected, limit);
      if limit.Some? && |affected| >= limit.value {
        Counted(AllAffected(normalize, rows[..scanned]), limit);
        EnoughFound(normalize, rows, scanned, limit);
        return;
      }
      Counted(AllAffected(normalize, rows[..scanned]), limit);
      if |page| < pageSize {
        break;
      }
    }
    assert rows[..scanned] == rows;
    Counted(AllAffected(normalize, rows), limit);
  }

  lemma NoneAffected(normalize: string -> string, rows: seq<Candidate>)
    ensures AllAffected(normalize, rows[..0]) == []
  {
  }

  lemma Counted(affected: seq<Candidate>, limit: Option<nat>)
    ensures Reached(FirstOf(affected, limit), limit) <==> Reached(affected, limit)
    ensures !Reached(affected, limit) ==> FirstOf(affected, limit) == affected
  {
  }

  /** Adds the affected rows of one page, up to the limit. */
  method CollectPage(
      normalize: string -> string, ghost rows: seq<Candidate>, page: seq<Candidate>, ghost from: nat,
      before: seq<Candidate>, limit: Option<nat>)
    returns (affected: seq<Candidate>)
    requires from + |page| <= |rows| && page == rows[from..from + |page|]
    requires before == AllAffected(normalize, rows[..from]) && !Reached(before, limit)
    ensures affected == FirstOf(AllAffected(normalize, rows[..from + |page|]), limit)
  {
    hide AllAffected, FirstOf;
    affected := before;
    Counted(before, limit);
    for i := 0 to |page|
      invariant affected == AllAffected(normalize, rows[..from + i]) && !Reached(affected, limit)
    {
      AffectedOne(normalize, rows, from + i);
      if normalize(page[i].content) != page[i].content {
        affected := affected + [page[i]];
        if Reached(affected, limit) {
          JustReached(normalize, rows, from + |page|, from + i + 1, limit);
          return;
        }
      }
    }
    Counted(affected, limit);
  }

  /** The row that fills the limit is the last of the result. */
  lemma JustReached(normalize: string -> string, rows: seq<Candidate>, n: nat, i: nat, limit: Option<nat>)
    requires 1 <= i <= n <= |rows| && Reached(AllAffected(normalize, rows[..i]), limit)
    requires !Reached(AllAffected(normalize, rows[..i - 1]), limit)
    ensures AllAffected(normalize, rows[..i]) == FirstOf(AllAffected(normalize, rows[..n]), limit)
  {
    AffectedOne(normalize, rows, i - 1);
    assert rows[..n][..i] == rows[..i];
    AffectedPrefix(normalize, rows[..n], i);
  }
}

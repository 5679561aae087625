/**
 * The `highscores` table: one best score per username, the username shortening
 * `add_score` applies before storing, the keep-the-maximum upsert, and the ranked
 * page `get_scores` reads.
 */
module ScoreLedger {
  import opened Wrappers
  import opened PhpValues
  import opened Messages

  /** The length above which `add_score` shortens a username. */
  const UsernameLimit: nat := 24

  /** The page size `get_scores` uses when the payload names none. */
  const DefaultPageSize: nat := 10

  /**
   * The name `add_score` stores: a name longer than 24 characters loses its first
   * 24 characters (a suffix is kept, not a prefix).
   */
  function ShortenUsername(name: string): (stored: string)
    ensures |name| <= UsernameLimit ==> stored == name
    ensures |name| > UsernameLimit ==> |stored| == |name| - UsernameLimit
    ensures stored == name[|name| - |stored|..]
  {
    if |name| > UsernameLimit then name[UsernameLimit..] else name
  }

  /**
   * A stored name fits in 24 characters exactly when the submitted one fits in 48:
   * the shortening alone does not enforce the limit.
   */
  lemma StoredNameFitsIff(name: string)
    ensures |ShortenUsername(name)| <= UsernameLimit <==> |name| <= 2 * UsernameLimit
  {
  }

  /** `score = GREATEST(score, VALUES(score))` on a duplicate key, a plain insert otherwise. */
  function Upsert(table: map<string, int>, name: string, score: int): (r: map<string, int>)
    ensures r.Keys == table.Keys + {name}
    ensures name !in table ==> r[name] == score
    ensures name in table ==> r[name] >= table[name] && r[name] >= score
    ensures name in table ==> r[name] == table[name] || r[name] == score
    ensures forall u :: u in table && u != name ==> r[u] == table[u]
  {
    if name in table && table[name] >= score then table else table[name := score]
  }

  /** Every name of `before` is in `after` with at least the same score. */
  ghost predicate NoScoreLowered(before: map<string, int>, after: map<string, int>)
  {
    forall u :: u in before ==> u in after && before[u] <= after[u]
  }

  lemma UpsertNeverLowers(table: map<string, int>, name: string, score: int)
    ensures NoScoreLowered(table, Upsert(table, name, score))
  {
  }

  /** The `LIMIT` of `get_scores`: `score_number` cast to int and raised to at least 1, else 10. */
  function PageSize(doc: Document): (n: nat)
    ensures n >= 1
    ensures Lookup(doc, "score_number").None? ==> n == DefaultPageSize
    ensures Lookup(doc, "score_number").Some? && IntCast(Lookup(doc, "score_number").value) >= 1 ==>
      n == IntCast(Lookup(doc, "score_number").value)
    ensures Lookup(doc, "score_number").Some? && IntCast(Lookup(doc, "score_number").value) < 1 ==> n == 1
  {
    match Lookup(doc, "score_number")
    case None => DefaultPageSize
    case Some(v) => if IntCast(v) < 1 then 1 else IntCast(v)
  }

  /** The usernames the rows list. */
  function Names(rows: seq<Row>): (names: set<string>)
    ensures forall i :: 0 <= i < |rows| ==> rows[i].username in names
    ensures names <= set i | 0 <= i < |rows| :: rows[i].username
  {
    if rows == [] then {} else Names(rows[..|rows| - 1]) + {rows[|rows| - 1].username}
  }

  /** Each row is a row of the table. */
  ghost predicate FromTable(table: map<string, int>, rows: seq<Row>)
  {
    forall i :: 0 <= i < |rows| ==> rows[i].username in table && table[rows[i].username] == rows[i].score
  }

  /** No username is listed twice. */
  ghost predicate DistinctNames(rows: seq<Row>)
  {
    forall i, j :: 0 <= i < j < |rows| ==> rows[i].username != rows[j].username
  }

  /** Scores do not increase down the rows. */
  ghost predicate Descending(rows: seq<Row>)
  {
    forall i, j :: 0 <= i < j < |rows| ==> rows[i].score >= rows[j].score
  }

  /** No name of `others` scores above a listed row. */
  ghost predicate Dominates(table: map<string, int>, rows: seq<Row>, others: set<string>)
    requires others <= table.Keys
  {
    forall u, i :: u in others && 0 <= i < |rows| ==> table[u] <= rows[i].score
  }

  /**
   * `rows` is an answer to `SELECT * FROM highscores ORDER BY score DESC LIMIT limit
   * OFFSET 0`: as many rows as the limit and the table allow, each a row of the table,
   * no user twice, scores non-increasing, and no left-out user scoring above a listed
   * one. The order among equal scores is left open.
   */
  ghost predicate IsTopPage(table: map<string, int>, limit: nat, rows: seq<Row>)
  {
    && |rows| == (if limit < |table| then limit else |table|)
    && FromTable(table, rows)
    && DistinctNames(rows)
    && Descending(rows)
    && Dominates(table, rows, table.Keys - Names(rows))
  }

  /** Every non-empty set of names has one whose score no other name exceeds. */
  lemma {:induction false} BestExists(table: map<string, int>, pending: set<string>)
    requires pending != {} && pending <= table.Keys
    ensures exists best :: best in pending && forall v :: v in pending ==> table[v] <= table[best]
  {
    var x :| x in pending;
    var rest := pending - {x};
    if rest == {} {
      assert pending == {x};
    } else {
      BestExists(table, rest);
      var b :| b in rest && forall v :: v in rest ==> table[v] <= table[b];
      if table[x] <= table[b] {
        assert forall v :: v in pending ==> table[v] <= table[b];
      } else {
        assert forall v :: v in pending ==> table[v] <= table[x];
      }
    }
  }

  /** Appending the best pending name keeps the partial page a ranked prefix. */
  lemma {:induction false} SelectStep(table: map<string, int>, rows: seq<Row>, pending: set<string>, best: string)
    requires pending == table.Keys - Names(rows)
    requires FromTable(table, rows) && DistinctNames(rows) && Descending(rows) && Dominates(table, rows, pending)
    requires best in pending && forall v :: v in pending ==> table[v] <= table[best]
    ensures var next := rows + [Row(best, table[best])];
      && pending - {best} == table.Keys - Names(next)
      && FromTable(table, next) && DistinctNames(next) && Descending(next) && Dominates(table, next, pending - {best})
  {
    var next := rows + [Row(best, table[best])];
    assert next[..|rows|] == rows;
    assert Names(next) == Names(rows) + {best};
    forall i, j | 0 <= i < j < |next|
      ensures next[i].username != next[j].username && next[i].score >= next[j].score
    {
      if j == |rows| {
        assert next[i] == rows[i];
        assert rows[i].username in Names(rows);
      } else {
        assert next[i] == rows[i] && next[j] == rows[j];
      }
    }
    forall u, i | u in pending - {best} && 0 <= i < |next|
      ensures table[u] <= next[i].score
    {
      if i < |rows| { assert next[i] == rows[i]; }
    }
  }

  /** The ranked read of the table, one best remaining row at a time. */
  method SelectTop(table: map<string, int>, limit: nat) returns (rows: seq<Row>)
    ensures IsTopPage(table, limit, rows)
  {
    rows := [];
    var pending := table.Keys;
    while |rows| < limit && pending != {}
      invariant pending == table.Keys - Names(rows)
      invariant |rows| + |pending| == |table.Keys|
      invariant |rows| <= limit
      invariant FromTable(table, rows) && DistinctNames(rows) && Descending(rows)
      invariant Dominates(table, rows, pending)
      decreases |pending|
    {
      BestExists(table, pending);
      var best :| best in pending && forall v :: v in pending ==> table[v] <= table[best];
      SelectStep(table, rows, pending, best);
      rows, pending := rows + [Row(best, table[best])], pending - {best};
    }
  }
}

/**
 * LoadMysqlTask of doh_pipeline/tasks.py: the INSERT statement it builds,
 * the batches it hands to `executemany`, and the order of its calls on the
 * database and on its checkpoint. The database is an abstract journal of
 * calls; which call raises is a parameter.
 */
module Loader {
  import opened Wrappers
  import opened Text

  /** A positive `batch_size`, as every subclass sets it. */
  type BatchSize = b: int | b >= 1 witness 1

  /** The class attributes a subclass of LoadMysqlTask overrides. */
  datatype LoadConfig = LoadConfig(
    table: string,
    columns: seq<string>,
    batchSize: BatchSize,
    upsert: bool,
    upsertColumns: seq<string>)

  /** LoadViolations. */
  const Violations := LoadConfig("violation",
    ["camis", "inspection_date", "violation_code", "violation_description", "critical_flag"],
    5000, false, [])

  /** LoadInspections. */
  const Inspections := LoadConfig("inspection",
    ["camis", "inspection_date", "action", "score", "grade", "grade_date", "inspection_type"],
    2000, false, [])

  /** LoadRestaurants, the only one that upserts. */
  const Restaurants := LoadConfig("restaurant",
    ["camis", "dba", "boro", "building", "street", "zipcode", "phone", "cuisine", "last_inspection_date"],
    2000, true,
    ["dba", "boro", "building", "street", "zipcode", "phone", "cuisine", "last_inspection_date"])

  // ---------------------------------------------------------------------
  // The INSERT statement

  /** `n` copies of the placeholder `%s`. */
  function Placeholders(n: nat): (r: seq<string>)
    ensures |r| == n && forall i :: 0 <= i < n ==> r[i] == "%s"
  {
    seq(n, _ => "%s")
  }

  /** One entry of the update clause, `t.c = VALUES(t.c)`. */
  function Assignment(table: string, column: string): string
  {
    table + "." + column + " = VALUES(" + table + "." + column + ")"
  }

  function Assignments(table: string, columns: seq<string>): (r: seq<string>)
    ensures |r| == |columns| && forall i :: 0 <= i < |columns| ==> r[i] == Assignment(table, columns[i])
  {
    seq(|columns|, i requires 0 <= i < |columns| => Assignment(table, columns[i]))
  }

  /** `INSERT INTO t (c1,...,cn) VALUES (%s,...,%s) `, with its trailing space. */
  function InsertHead(c: LoadConfig): string
  {
    "INSERT INTO " + c.table + " " + "(" + Join(c.columns, ',') + ") "
      + "VALUES (" + Join(Placeholders(|c.columns|), ',') + ") "
  }

  /** The keyword that opens the update clause, preceded by a space of its own. */
  const OnDuplicate := " ON DUPLICATE KEY UPDATE "

  /**
   * The statement `run` hands to `executemany`: the INSERT, and for an
   * upserting table the update clause with one assignment per upsert
   * column, comma-separated. Removing the last character drops the comma
   * after the last assignment, or, with no upsert columns, the keyword's
   * trailing space.
   */
  function InsertSql(c: LoadConfig): string
  {
    if c.upsert then InsertHead(c) + UpdateSuffix(c.table, c.upsertColumns) else InsertHead(c)
  }

  /** The update clause as it ends up after `sql[:-1]`. */
  function UpdateSuffix(table: string, columns: seq<string>): string
  {
    if columns == [] then OnDuplicate[..|OnDuplicate| - 1]
    else OnDuplicate + Join(Assignments(table, columns), ',')
  }

  /** Each item followed by a comma, as the `+=` loop appends them. */
  function Terminated(items: seq<string>): string
  {
    if items == [] then [] else Terminated(items[..|items| - 1]) + items[|items| - 1] + ","
  }

  lemma {:induction false} TerminatedJoin(items: seq<string>)
    requires items != []
    ensures Terminated(items) == Join(items, ',') + ","
  {
    var n := |items| - 1;
    if n > 0 {
      TerminatedJoin(items[..n]);
      JoinSnoc(items[..n], items[n], ',');
      assert items[..n] + [items[n]] == items;
    }
  }

  lemma {:induction false} JoinSnoc(parts: seq<string>, last: string, sep: char)
    requires parts != []
    ensures Join(parts + [last], sep) == Join(parts, sep) + [sep] + last
  {
    if |parts| == 1 {
      assert (parts + [last])[1..] == [last];
    } else {
      JoinSnoc(parts[1..], last, sep);
      assert (parts + [last])[1..] == parts[1..] + [last];
    }
  }

  /** The `sql += ...` sequence of `run`, with its loop over the upsert columns and the final `sql[:-1]`. */
  method BuildInsertSql(c: LoadConfig) returns (sql: string)
    ensures sql == InsertSql(c)
  {
    sql := "INSERT INTO " + c.table + " ";
    sql := sql + "(" + Join(c.columns, ',') + ") ";
    sql := sql + "VALUES (" + Join(Placeholders(|c.columns|), ',') + ") ";
    if c.upsert {
      sql := AppendUpdate(sql, c.table, c.upsertColumns);
    }
  }

  /** The upsert part of the `sql += ...` sequence: the keyword, one assignment and comma per column, then `sql[:-1]`. */
  method AppendUpdate(head: string, table: string, columns: seq<string>) returns (sql: string)
    ensures sql == head + UpdateSuffix(table, columns)
  {
    sql := head + OnDuplicate;
    sql := AppendAssignments(sql, table, columns);
    UpdateSuffixDrop(head, table, columns);
    sql := sql[..|sql| - 1];
  }

  /** The loop over `upsert_columns`: `sql += "t.c = VALUES(t.c),"` for each column in turn. */
  method AppendAssignments(start: string, table: string, columns: seq<string>) returns (sql: string)
    ensures sql == start + Terminated(Assignments(table, columns))
  {
    sql := start;
    var assignments := Assignments(table, columns);
    var i := 0;
    while i < |columns|
      invariant 0 <= i <= |columns|
      invariant sql == start + Terminated(assignments[..i])
    {
      assert assignments[..i + 1][..i] == assignments[..i];
      sql := sql + Assignment(table, columns[i]) + ",";
      i := i + 1;
    }
    assert assignments[..i] == assignments;
  }

  /** Dropping the last character of the keyword and the comma-terminated assignments leaves the update clause. */
  lemma UpdateSuffixDrop(head: string, table: string, columns: seq<string>)
    ensures var sql := head + OnDuplicate + Terminated(Assignments(table, columns));
      |sql| >= 1 && sql[..|sql| - 1] == head + UpdateSuffix(table, columns)
  {
    if columns == [] {
      assert Assignments(table, columns) == [];
      DropLast(head, OnDuplicate);
    } else {
      TerminatedDrop(head, OnDuplicate, Assignments(table, columns));
    }
  }

  /** Dropping the comma after the last item leaves the items joined by commas. */
  lemma TerminatedDrop(head: string, keyword: string, items: seq<string>)
    requires items != []
    ensures var sql := head + keyword + Terminated(items);
      |sql| >= 1 && sql[..|sql| - 1] == head + (keyword + Join(items, ','))
  {
    var j := Join(items, ',');
    TerminatedJoin(items);
    assert head + keyword + Terminated(items) == (head + keyword + j) + ",";
    DropLast(head + keyword + j, ",");
  }

  lemma DropLast(x: string, y: string)
    requires y != []
    ensures (x + y)[..|x + y| - 1] == x + y[..|y| - 1]
  {
  }

  /** A name the statement can list as it is: no comma inside it. */
  predicate CommaFree(names: seq<string>)
  {
    forall i :: 0 <= i < |names| ==> ',' !in names[i]
  }

  /** The column list names every column once, in order, and the VALUES list has one placeholder per column. */
  lemma InsertLists(c: LoadConfig)
    requires c.columns != [] && CommaFree(c.columns)
    ensures Split(Join(c.columns, ','), ',') == c.columns
    ensures Split(Join(Placeholders(|c.columns|), ','), ',') == Placeholders(|c.columns|)
  {
    SplitJoin(c.columns, ',');
    SplitJoin(Placeholders(|c.columns|), ',');
  }

  /**
   * The update clause lists one assignment per upsert column, in order, and
   * ends with the last assignment's closing parenthesis, not a comma.
   */
  lemma UpdateClause(c: LoadConfig)
    requires c.upsert && c.upsertColumns != []
    requires ',' !in c.table && CommaFree(c.upsertColumns)
    ensures var clause := Join(Assignments(c.table, c.upsertColumns), ',');
      && InsertSql(c) == InsertHead(c) + OnDuplicate + clause
      && Split(clause, ',') == Assignments(c.table, c.upsertColumns)
      && clause[|clause| - 1] == ')'
  {
    UpsertSql(c);
    AssignmentsSplit(c.table, c.upsertColumns);
  }

  lemma UpsertSql(c: LoadConfig)
    requires c.upsert && c.upsertColumns != []
    ensures InsertSql(c) == InsertHead(c) + OnDuplicate + Join(Assignments(c.table, c.upsertColumns), ',')
  {
    assert Assignments(c.table, c.upsertColumns) != [];
  }

  lemma AssignmentsSplit(table: string, columns: seq<string>)
    requires columns != [] && ',' !in table && CommaFree(columns)
    ensures var a := Assignments(table, columns); var clause := Join(a, ',');
      && Split(clause, ',') == a
      && clause != [] && clause[|clause| - 1] == ')'
  {
    var a := Assignments(table, columns);
    forall i | 0 <= i < |a| ensures ',' !in a[i] {
      AssignmentCommaFree(table, columns[i]);
    }
    SplitJoin(a, ',');
    JoinLast(a, ',');
  }

  lemma AssignmentCommaFree(table: string, column: string)
    requires ',' !in table && ',' !in column
    ensures ',' !in Assignment(table, column)
  {
    assert ',' !in " = VALUES(";
  }

  lemma {:induction false} JoinLast(parts: seq<string>, sep: char)
    requires parts != [] && parts[|parts| - 1] != []
    ensures var j := Join(parts, sep); j != [] && j[|j| - 1] == parts[|parts| - 1][|parts[|parts| - 1]| - 1]
  {
    if |parts| > 1 {
      JoinLast(parts[1..], sep);
    }
  }

  // ---------------------------------------------------------------------
  // Batching

  /** The rows read so far that are already submitted, and those still pending. */
  datatype Batching = Batching(flushed: seq<seq<seq<string>>>, pending: seq<seq<string>>)

  /**
   * The loop of `run` over the rows: append the row with index `k`, then
   * flush when `k % batch_size == 0` — so after the first row, and then
   * after every `batch_size` further rows.
   */
  function BatchFold(rows: seq<seq<string>>, b: BatchSize): Batching
  {
    if rows == [] then Batching([], [])
    else
      var k := |rows| - 1;
      var p := BatchFold(rows[..k], b);
      var pending := p.pending + [rows[k]];
      if k % b == 0 then Batching(p.flushed + [pending], []) else Batching(p.flushed, pending)
  }

  /** Every `executemany` batch of `run`: those flushed in the loop, then a non-empty remainder. */
  function Batches(rows: seq<seq<string>>, b: BatchSize): seq<seq<seq<string>>>
  {
    var p := BatchFold(rows, b);
    p.flushed + (if p.pending != [] then [p.pending] else [])
  }

  function Flatten<T>(xss: seq<seq<T>>): seq<T>
  {
    if xss == [] then [] else Flatten(xss[..|xss| - 1]) + xss[|xss| - 1]
  }

  lemma FlattenSnoc<T>(xss: seq<seq<T>>, xs: seq<T>)
    ensures Flatten(xss + [xs]) == Flatten(xss) + xs
  {
    assert (xss + [xs])[..|xss|] == xss;
  }

  /** Division with remainder has one answer. */
  lemma ModUnique(x: int, b: BatchSize, q: int, r: int)
    requires x == q * b + r && 0 <= r < b
    ensures x % b == r
  {
    var d := q - x / b;
    assert d * b == x % b - r;
  }

  /** How `k % b` follows from `(k - 1) % b`. */
  lemma ModStep(k: nat, b: BatchSize)
    requires k >= 1
    ensures k % b == 0 ==> (k - 1) % b == b - 1
    ensures k % b != 0 ==> (k - 1) % b + 1 == k % b
  {
    var q, r := (k - 1) / b, (k - 1) % b;
    assert k - 1 == q * b + r;
    if r + 1 < b {
      ModUnique(k, b, q, r + 1);
    } else {
      assert k == (q + 1) * b + 0;
      ModUnique(k, b, q + 1, 0);
    }
  }

  /** The flushed batches followed by the pending rows are the rows read so far, in order. */
  lemma {:induction false} BatchFoldCovers(rows: seq<seq<string>>, b: BatchSize)
    ensures Flatten(BatchFold(rows, b).flushed) + BatchFold(rows, b).pending == rows
  {
    if rows != [] {
      var k := |rows| - 1;
      var p := BatchFold(rows[..k], b);
      var pending := p.pending + [rows[k]];
      BatchFoldCovers(rows[..k], b);
      assert Flatten(p.flushed) + pending == rows by {
        assert Flatten(p.flushed) + pending == (Flatten(p.flushed) + p.pending) + [rows[k]];
        assert rows[..k] + [rows[k]] == rows;
      }
      if k % b == 0 {
        FlattenSnoc(p.flushed, pending);
        assert BatchFold(rows, b) == Batching(p.flushed + [pending], []);
        assert Flatten(p.flushed + [pending]) + [] == Flatten(p.flushed + [pending]);
      } else {
        assert BatchFold(rows, b) == Batching(p.flushed, pending);
      }
    }
  }

  /**
   * The sizes of the batching after any number of rows: the first batch
   * holds one row, every later one `batch_size` rows, and
   * `(rows - 1) % batch_size` rows are pending.
   */
  lemma {:induction false} BatchFoldSizes(rows: seq<seq<string>>, b: BatchSize)
    ensures var p := BatchFold(rows, b);
      && |p.pending| == (if rows == [] then 0 else (|rows| - 1) % b)
      && (rows != [] ==> p.flushed != [] && |p.flushed[0]| == 1)
      && (forall j :: 0 < j < |p.flushed| ==> |p.flushed[j]| == b)
  {
    if rows != [] {
      var k := |rows| - 1;
      BatchFoldSizes(rows[..k], b);
      if k > 0 {
        ModStep(k, b);
      }
    }
  }

  /** Every row is submitted exactly once, in input order. */
  lemma BatchesCoverRows(rows: seq<seq<string>>, b: BatchSize)
    ensures Flatten(Batches(rows, b)) == rows
  {
    var p := BatchFold(rows, b);
    BatchFoldCovers(rows, b);
    if p.pending != [] {
      FlattenSnoc(p.flushed, p.pending);
    } else {
      assert Batches(rows, b) == p.flushed;
      assert Flatten(p.flushed) + p.pending == Flatten(p.flushed);
    }
  }

  /**
   * The first batch holds one row, the batches between the first and the
   * last hold `batch_size` rows, and no batch is empty or larger than
   * `batch_size`.
   */
  lemma BatchSizes(rows: seq<seq<string>>, b: BatchSize)
    ensures var bs := Batches(rows, b);
      && (rows != [] ==> bs != [] && |bs[0]| == 1)
      && (forall j :: 0 < j < |bs| - 1 ==> |bs[j]| == b)
      && (forall j :: 0 <= j < |bs| ==> 1 <= |bs[j]| <= b)
  {
    BatchFoldSizes(rows, b);
  }

  /** One turn of the loop: the row with index `n` joins the pending rows, which are flushed when `n % batch_size == 0`. */
  lemma FoldStep(rows: seq<seq<string>>, n: nat, b: BatchSize)
    requires n < |rows|
    ensures var p := BatchFold(rows[..n], b);
      var pending := p.pending + [rows[n]];
      BatchFold(rows[..n + 1], b) == if n % b == 0 then Batching(p.flushed + [pending], []) else Batching(p.flushed, pending)
  {
    assert rows[..n + 1][..n] == rows[..n];
  }

  /** After `m` rows, what is flushed is a prefix of all the batches of the full input. */
  lemma {:induction false} FlushedPrefix(rows: seq<seq<string>>, m: nat, b: BatchSize)
    requires m <= |rows|
    ensures BatchFold(rows[..m], b).flushed <= Batches(rows, b)
    decreases |rows| - m
  {
    if m == |rows| {
      assert rows[..m] == rows;
    } else {
      FlushedPrefix(rows, m + 1, b);
      assert rows[..m + 1][..m] == rows[..m];
    }
  }

  /** With `batch_size = 2`, five rows go out in batches of one, two and two rows. */
  lemma FiveRowsInPairs(rows: seq<seq<string>>)
    requires |rows| == 5
    ensures Batches(rows, 2) == [rows[..1], rows[1..3], rows[3..5]]
  {
    var r1 := rows[..1];
    assert r1[..0] == [] && BatchFold(r1[..0], 2) == Batching([], []);
    assert [] + [r1[0]] == r1;
    assert BatchFold(r1, 2) == Batching([r1], []);
    assert [rows[1]] + [rows[2]] == rows[1..3] && [rows[3]] + [rows[4]] == rows[3..5];
    assert rows[..2][..1] == rows[..1];
    assert BatchFold(rows[..2], 2) == Batching([rows[..1]], [rows[1]]);
    assert rows[..3][..2] == rows[..2];
    assert BatchFold(rows[..3], 2) == Batching([rows[..1], rows[1..3]], []);
    assert rows[..4][..3] == rows[..3];
    assert BatchFold(rows[..4], 2) == Batching([rows[..1], rows[1..3]], [rows[3]]);
    assert rows[..5] == rows && rows[..4] == rows[..5][..4];
    assert BatchFold(rows, 2) == Batching([rows[..1], rows[1..3], rows[3..5]], []);
  }

  // ---------------------------------------------------------------------
  // The load

  /** A call `run` makes on the database cursor or connection. */
  datatype Call = Execute(sql: string) | ExecuteMany(sql: string, rows: seq<seq<string>>) | Commit | Close

  /** A load that stopped because the database raised, at this position of the task's journal. */
  datatype LoadError = DatabaseError(call: nat)

  /** The rows `run` reads from the lines of its input file. */
  function Rows(lines: seq<string>): (r: seq<seq<string>>)
    ensures |r| == |lines| && forall i :: 0 <= i < |lines| ==> r[i] == SplitRow(lines[i])
  {
    seq(|lines|, i requires 0 <= i < |lines| => SplitRow(lines[i]))
  }

  function Inserts(sql: string, batches: seq<seq<seq<string>>>): (r: seq<Call>)
    ensures |r| == |batches| && forall i :: 0 <= i < |batches| ==> r[i] == ExecuteMany(sql, batches[i])
  {
    seq(|batches|, i requires 0 <= i < |batches| => ExecuteMany(sql, batches[i]))
  }

  /** The TRUNCATE and its commit, made only when reloading. */
  function Truncation(c: LoadConfig, reload: bool): seq<Call>
  {
    if reload then [Execute("TRUNCATE TABLE " + c.table), Commit] else []
  }

  /** Every call a load that nothing interrupts makes, in order. */
  function Plan(c: LoadConfig, reload: bool, lines: seq<string>): seq<Call>
  {
    Truncation(c, reload) + Inserts(InsertSql(c), Batches(Rows(lines), c.batchSize)) + [Commit, Close]
  }

  /** The rows one call submits: those of an `executemany`, none otherwise. */
  function Contribution(call: Call): seq<seq<string>>
  {
    if call.ExecuteMany? then call.rows else []
  }

  /** The rows of the `executemany` calls among `calls`, in order. */
  function Submitted(calls: seq<Call>): seq<seq<string>>
  {
    if calls == [] then [] else Contribution(calls[0]) + Submitted(calls[1..])
  }

  lemma {:induction false} SubmittedAppend(a: seq<Call>, b: seq<Call>)
    ensures Submitted(a + b) == Submitted(a) + Submitted(b)
  {
    if a == [] {
      assert a + b == b;
    } else {
      var ab := a + b;
      assert ab[0] == a[0] && ab[1..] == a[1..] + b;
      calc {
        Submitted(ab);
        Contribution(a[0]) + Submitted(a[1..] + b);
        { SubmittedAppend(a[1..], b); }
        Contribution(a[0]) + (Submitted(a[1..]) + Submitted(b));
        (Contribution(a[0]) + Submitted(a[1..])) + Submitted(b);
      }
    }
  }

  lemma {:induction false} SubmittedInserts(sql: string, batches: seq<seq<seq<string>>>)
    ensures Submitted(Inserts(sql, batches)) == Flatten(batches)
  {
    if batches != [] {
      var n := |batches| - 1;
      SubmittedInserts(sql, batches[..n]);
      assert batches == batches[..n] + [batches[n]];
      InsertsSnoc(sql, batches[..n], batches[n]);
      SubmittedAppend(Inserts(sql, batches[..n]), [ExecuteMany(sql, batches[n])]);
    }
  }

  lemma {:induction false} SubmittedNone(calls: seq<Call>)
    requires forall i :: 0 <= i < |calls| ==> !calls[i].ExecuteMany?
    ensures Submitted(calls) == []
  {
    if calls != [] {
      SubmittedNone(calls[1..]);
    }
  }

  /** Framed by calls that submit nothing, the inserts submit exactly the batches' rows. */
  lemma SubmittedFramed(front: seq<Call>, sql: string, batches: seq<seq<seq<string>>>, back: seq<Call>)
    requires forall i :: 0 <= i < |front| ==> !front[i].ExecuteMany?
    requires forall i :: 0 <= i < |back| ==> !back[i].ExecuteMany?
    ensures Submitted(front + Inserts(sql, batches) + back) == Flatten(batches)
  {
    var inserts := Inserts(sql, batches);
    SubmittedAppend(front, inserts);
    SubmittedAppend(front + inserts, back);
    SubmittedNone(front);
    SubmittedNone(back);
    SubmittedInserts(sql, batches);
  }

  /** A load submits every row of its input exactly once, in order. */
  lemma PlanSubmitsEveryRow(c: LoadConfig, reload: bool, lines: seq<string>)
    ensures Submitted(Plan(c, reload, lines)) == Rows(lines)
  {
    SubmittedFramed(Truncation(c, reload), InsertSql(c), Batches(Rows(lines), c.batchSize), [Commit, Close]);
    BatchesCoverRows(Rows(lines), c.batchSize);
  }

  /**
   * When reloading, the first call empties the table, so it comes before
   * every insert; every insert comes before the final commit and close.
   */
  lemma PlanOrder(c: LoadConfig, reload: bool, lines: seq<string>)
    ensures var plan := Plan(c, reload, lines);
      && |plan| >= 2 && plan[|plan| - 2] == Commit && plan[|plan| - 1] == Close
      && (reload ==> plan[0] == Execute("TRUNCATE TABLE " + c.table))
      && (forall i :: 0 <= i < |plan| && plan[i].ExecuteMany? ==>
            (reload ==> i > 0) && i < |plan| - 2)
      && (!reload ==> forall i :: 0 <= i < |plan| ==> !plan[i].Execute?)
  {
  }

  lemma InsertsSnoc(sql: string, batches: seq<seq<seq<string>>>, batch: seq<seq<string>>)
    ensures Inserts(sql, batches + [batch]) == Inserts(sql, batches) + [ExecuteMany(sql, batch)]
  {
  }

  lemma InsertsPrefix(sql: string, xs: seq<seq<seq<string>>>, ys: seq<seq<seq<string>>>)
    requires xs <= ys
    ensures Inserts(sql, xs) <= Inserts(sql, ys)
  {
    assert Inserts(sql, ys)[..|xs|] == Inserts(sql, xs);
  }

  /**
   * Starting from journal `start`, the calls `planned` were made up to and
   * including the one that raised (call number `failAt` of the journal),
   * or all of them when none raised; `ok` says which.
   */
  predicate Performed(start: seq<Call>, planned: seq<Call>, failAt: Option<nat>, journal: seq<Call>, ok: bool)
  {
    if failAt.Some? && |start| <= failAt.value < |start| + |planned| then
      !ok && journal == (start + planned)[..failAt.value + 1]
    else
      ok && journal == start + planned
  }

  /** Two stretches of calls, the first of which completed, make one. */
  lemma PerformedThen(start: seq<Call>, p: seq<Call>, q: seq<Call>, failAt: Option<nat>, mid: seq<Call>, journal: seq<Call>, ok: bool)
    requires Performed(start, p, failAt, mid, true) && Performed(mid, q, failAt, journal, ok)
    ensures Performed(start, p + q, failAt, journal, ok)
  {
    assert start + (p + q) == mid + q;
  }

  /** A stretch of calls that raised is also the start of any longer plan that extends it. */
  lemma PerformedRaised(start: seq<Call>, p: seq<Call>, q: seq<Call>, failAt: Option<nat>, journal: seq<Call>)
    requires Performed(start, p, failAt, journal, false) && p <= q
    ensures Performed(start, q, failAt, journal, false)
  {
    assert (start + q)[..|start + p|] == start + p;
  }

  /**
   * After the flush of the loop turn for row `n`: if it went through, the
   * calls so far are the inserts of the batches flushed up to row `n`; if
   * it raised, the load has performed a prefix of all its inserts.
   */
  lemma AfterFlush(start: seq<Call>, mid: seq<Call>, journal: seq<Call>, sql: string,
                   rows: seq<seq<string>>, n: nat, b: BatchSize, failAt: Option<nat>, ok: bool)
    requires n < |rows| && n % b == 0
    requires Performed(start, Inserts(sql, BatchFold(rows[..n], b).flushed), failAt, mid, true)
    requires Performed(mid, [ExecuteMany(sql, BatchFold(rows[..n], b).pending + [rows[n]])], failAt, journal, ok)
    ensures ok ==> Performed(start, Inserts(sql, BatchFold(rows[..n + 1], b).flushed), failAt, journal, true)
    ensures !ok ==> Performed(start, Inserts(sql, Batches(rows, b)), failAt, journal, false)
  {
    var p := BatchFold(rows[..n], b);
    var batch := p.pending + [rows[n]];
    FoldStep(rows, n, b);
    PerformedThen(start, Inserts(sql, p.flushed), [ExecuteMany(sql, batch)], failAt, mid, journal, ok);
    InsertsSnoc(sql, p.flushed, batch);
    if !ok {
      FlushedPrefix(rows, n + 1, b);
      InsertsPrefix(sql, p.flushed + [batch], Batches(rows, b));
      PerformedRaised(start, Inserts(sql, p.flushed + [batch]), Inserts(sql, Batches(rows, b)), failAt, journal);
    }
  }

  /** After the loop, the remainder flush (when there is one) completes the inserts. */
  lemma AfterRemainder(start: seq<Call>, mid: seq<Call>, journal: seq<Call>, sql: string,
                       rows: seq<seq<string>>, b: BatchSize, failAt: Option<nat>, ok: bool)
    requires BatchFold(rows, b).pending != []
    requires Performed(start, Inserts(sql, BatchFold(rows, b).flushed), failAt, mid, true)
    requires Performed(mid, [ExecuteMany(sql, BatchFold(rows, b).pending)], failAt, journal, ok)
    ensures Performed(start, Inserts(sql, Batches(rows, b)), failAt, journal, ok)
  {
    var p := BatchFold(rows, b);
    PerformedThen(start, Inserts(sql, p.flushed), [ExecuteMany(sql, p.pending)], failAt, mid, journal, ok);
    InsertsSnoc(sql, p.flushed, p.pending);
  }

  /**
   * A LoadMysqlTask subclass while it runs: its configuration, its `reload`
   * parameter, whether its checkpoint file exists, and the journal of every
   * call it has made on the database.
   */
  class LoadMysqlTask {
    const config: LoadConfig
    const reload: bool
    var checkpoint: bool
    var journal: seq<Call>

    /** `__init__`: a reloading task removes an existing checkpoint, so that it runs again. */
    constructor (config: LoadConfig, reload: bool, checkpointExists: bool)
      ensures this.config == config && this.reload == reload
      ensures checkpoint == (checkpointExists && !reload)
      ensures journal == []
    {
      this.config := config;
      this.reload := reload;
      checkpoint := checkpointExists && !reload;
      journal := [];
    }

    /** Make one database call; it raises when it is call number `failAt` of the journal. */
    method Issue(call: Call, failAt: Option<nat>) returns (ok: bool)
      modifies this`journal
      ensures Performed(old(journal), [call], failAt, journal, ok)
    {
      ok := failAt != Some(|journal|);
      journal := journal + [call];
    }

    /** The loop of `run`: read the rows, flushing a batch whenever `n % batch_size == 0`, then the remainder. */
    method SubmitBatches(sql: string, lines: seq<string>, failAt: Option<nat>) returns (ok: bool, n: nat)
      modifies this`journal
      ensures Performed(old(journal), Inserts(sql, Batches(Rows(lines), config.batchSize)), failAt, journal, ok)
      ensures ok ==> n == |lines|
    {
      ghost var start := journal;
      ghost var all := Rows(lines);
      n := 0;
      var rows: seq<seq<string>> := [];
      while n < |lines|
        invariant 0 <= n <= |lines|
        invariant rows == BatchFold(all[..n], config.batchSize).pending
        invariant Performed(start, Inserts(sql, BatchFold(all[..n], config.batchSize).flushed), failAt, journal, true)
      {
        FoldStep(all, n, config.batchSize);
        rows := rows + [SplitRow(lines[n])];
        if n % config.batchSize == 0 {
          ghost var mid := journal;
          ok := Issue(ExecuteMany(sql, rows), failAt);
          AfterFlush(start, mid, journal, sql, all, n, config.batchSize, failAt, ok);
          if !ok {
            return;
          }
          rows := [];
        }
        n := n + 1;
      }
      assert all[..n] == all;
      if |rows| > 0 {
        ghost var mid := journal;
        ok := Issue(ExecuteMany(sql, rows), failAt);
        AfterRemainder(start, mid, journal, sql, all, config.batchSize, failAt, ok);
      } else {
        assert BatchFold(all, config.batchSize).flushed + [] == BatchFold(all, config.batchSize).flushed;
        ok := true;
      }
    }

    /** When reloading, `TRUNCATE TABLE` and its commit. */
    method Truncate(failAt: Option<nat>) returns (ok: bool)
      modifies this`journal
      ensures Performed(old(journal), Truncation(config, reload), failAt, journal, ok)
    {
      ok := true;
      if reload {
        ghost var start := journal;
        ok := Issue(Execute("TRUNCATE TABLE " + config.table), failAt);
        if ok {
          ghost var mid := journal;
          ok := Issue(Commit, failAt);
          PerformedThen(start, [Execute("TRUNCATE TABLE " + config.table)], [Commit], failAt, mid, journal, ok);
        } else {
          PerformedRaised(start, [Execute("TRUNCATE TABLE " + config.table)], Truncation(config, reload), failAt, journal);
        }
      } else {
        assert journal + [] == journal;
      }
    }

    /** The closing `db.commit()` and `db.close()`. */
    method Finish(failAt: Option<nat>) returns (ok: bool)
      modifies this`journal
      ensures Performed(old(journal), [Commit, Close], failAt, journal, ok)
    {
      ghost var start := journal;
      ok := Issue(Commit, failAt);
      if ok {
        ghost var mid := journal;
        ok := Issue(Close, failAt);
        PerformedThen(start, [Commit], [Close], failAt, mid, journal, ok);
      } else {
        PerformedRaised(start, [Commit], [Commit, Close], failAt, journal);
      }
    }

    /**
     * `run`: truncate when reloading, build the statement, submit the rows
     * in batches, commit, close and write the checkpoint. If the database
     * raises, the load stops right after that call and the checkpoint is
     * left as it was; otherwise every planned call is made, `n` is the
     * number of lines read, and the checkpoint exists.
     */
    method Run(lines: seq<string>, failAt: Option<nat>) returns (result: Result<nat, LoadError>)
      modifies this`journal, this`checkpoint
      ensures Performed(old(journal), Plan(config, reload, lines), failAt, journal, result.Ok?)
      ensures result.Ok? ==> result.value == |lines| && checkpoint
      ensures result.Err? ==> failAt == Some(result.error.call) && checkpoint == old(checkpoint)
    {
      ghost var start := journal;
      var sql := BuildInsertSql(config);
      var truncation := Truncation(config, reload);
      var inserts := Inserts(sql, Batches(Rows(lines), config.batchSize));
      assert Plan(config, reload, lines) == truncation + inserts + [Commit, Close];
      var ok := Truncate(failAt);
      if !ok {
        PerformedRaised(start, truncation, truncation + inserts + [Commit, Close], failAt, journal);
        return Err(DatabaseError(failAt.value));
      }
      ghost var mid := journal;
      var n;
      ok, n := SubmitBatches(sql, lines, failAt);
      PerformedThen(start, truncation, inserts, failAt, mid, journal, ok);
      if !ok {
        PerformedRaised(start, truncation + inserts, truncation + inserts + [Commit, Close], failAt, journal);
        return Err(DatabaseError(failAt.value));
      }
      mid := journal;
      ok := Finish(failAt);
      PerformedThen(start, truncation + inserts, [Commit, Close], failAt, mid, journal, ok);
      if !ok {
        return Err(DatabaseError(failAt.value));
      }
      checkpoint := true;
      return Ok(n);
    }
  }
}

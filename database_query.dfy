/**
 * The warehouse gateway: the SELECT text of a table read, the MERGE upsert
 * and the DELETE by join keys, and the parameters sent with each record.
 * The warehouse itself is a recorder of (statement, parameters) executions
 * that may refuse the connection or raise at a given execution.
 */
module DatabaseQuery {
  import opened Wrappers
  import opened Text
  import opened Frames

  /** The part of a dataset's configuration the gateway and the pages use. */
  datatype DatasetConfig = DatasetConfig(table: string, joinKeys: seq<string>, updateColumns: seq<string>, filterColumns: seq<string>)

  /** One cursor.execute call: statement text and named parameters. */
  datatype Statement = Statement(sql: string, params: map<string, Value>)

  /**
   * The SQL warehouse as seen through a connection: every statement that runs
   * is appended to `log`. `available` says whether a connection opens,
   * `failAt` names the log position (if any) at which an execution raises,
   * `failure` is the text of the exception, and `respond` is what a query returns.
   */
  class Warehouse {
    var log: seq<Statement>
    const available: bool
    const failAt: Option<nat>
    const failure: string
    const respond: string -> Frame

    constructor (available: bool, failAt: Option<nat>, failure: string, respond: string -> Frame)
      ensures log == []
      ensures this.available == available && this.failAt == failAt
      ensures this.failure == failure && this.respond == respond
    {
      log := [];
      this.available := available;
      this.failAt := failAt;
      this.failure := failure;
      this.respond := respond;
    }

    /** The execution that would become log entry `k` raises. */
    predicate Fails(k: nat)
    {
      failAt == Some(k)
    }

    /** How many of `n` statements issued from log position `start` run before one raises. */
    function Completed(start: nat, n: nat): (k: nat)
      ensures k <= n
      ensures forall j :: start <= j < start + k ==> !Fails(j)
      ensures k < n ==> Fails(start + k)
    {
      if failAt.Some? && start <= failAt.value < start + n then failAt.value - start else n
    }

    /** cursor.execute(sql, params) */
    method Execute(s: Statement) returns (ok: bool)
      modifies this
      ensures ok == !Fails(|old(log)|)
      ensures log == if ok then old(log) + [s] else old(log)
    {
      ok := !Fails(|log|);
      if ok {
        log := log + [s];
      }
    }

    /** Executes the statements in order, stopping at the first that raises. */
    method ExecuteAll(stmts: seq<Statement>) returns (ok: bool)
      modifies this
      ensures log == old(log) + stmts[..Completed(|old(log)|, |stmts|)]
      ensures ok <==> Completed(|old(log)|, |stmts|) == |stmts|
    {
      var i := 0;
      while i < |stmts|
        invariant 0 <= i <= |stmts|
        invariant log == old(log) + stmts[..i]
        invariant forall j :: |old(log)| <= j < |old(log)| + i ==> !Fails(j)
      {
        var done := Execute(stmts[i]);
        if !done {
          return false;
        }
        assert stmts[..i + 1] == stmts[..i] + [stmts[i]];
        i := i + 1;
      }
      assert stmts[..i] == stmts;
      return true;
    }

    /** Opens a connection, runs a query and fetches its result. */
    method Query(sql: string) returns (r: Result<Frame>)
      modifies this
      ensures available && !Fails(|old(log)|) ==> r == Success(respond(sql)) && log == old(log) + [Statement(sql, map[])]
      ensures !(available && !Fails(|old(log)|)) ==> r == Failure(failure) && log == old(log)
    {
      if !available {
        return Failure(failure);
      }
      var ok := Execute(Statement(sql, map[]));
      if !ok {
        return Failure(failure);
      }
      return Success(respond(sql));
    }
  }

  // ---------------------------------------------------------------------
  // getData
  // ---------------------------------------------------------------------

  /** `if ActiveFlag:` on an optional string: present and not empty. */
  predicate IsTruthy(flag: Option<string>)
  {
    flag.Some? && flag.value != ""
  }

  /** The SELECT of a table read, optionally restricted to one ActiveFlag value. */
  function SelectQuery(table: string, flag: Option<string>): (q: string)
  {
    "SELECT * FROM " + table + (if IsTruthy(flag) then " WHERE ActiveFlag = '" + flag.value + "'" else "")
  }

  /** The query reads the whole table exactly when the flag is falsy, and otherwise names the flag. */
  lemma {:induction false} SelectQueryShape(table: string, flag: Option<string>)
    ensures IsPrefix("SELECT * FROM " + table, SelectQuery(table, flag))
    ensures !IsTruthy(flag) <==> SelectQuery(table, flag) == "SELECT * FROM " + table
    ensures IsTruthy(flag) ==> IsSuffix(" WHERE ActiveFlag = '" + flag.value + "'", SelectQuery(table, flag))
  {
    var p := "SELECT * FROM " + table;
    assert SelectQuery(table, flag)[..|p|] == p;
    if IsTruthy(flag) {
      assert |SelectQuery(table, flag)| > |p|;
    }
  }

  /** Distinct truthy flags give distinct queries: the read is restricted to exactly the flag asked for. */
  lemma {:induction false} SelectQueryInjective(table: string, f: string, g: string)
    requires f != "" && g != ""
    requires SelectQuery(table, Some(f)) == SelectQuery(table, Some(g))
    ensures f == g
  {
    var p := "SELECT * FROM " + table + " WHERE ActiveFlag = '";
    var q := SelectQuery(table, Some(f));
    assert q == p + f + "'";
    assert q == p + g + "'";
    assert |f| == |g|;
    assert f == q[|p|..|p| + |f|];
    assert g == q[|p|..|p| + |g|];
  }

  function ReadFailed(table: string, message: string): string
  {
    "Failed to read data from " + table + ": " + message
  }

  /** getData: one query; on any failure the exception names the table. */
  method GetData(w: Warehouse, table: string, flag: Option<string>) returns (r: Result<Frame>)
    modifies w
    ensures w.available && !w.Fails(|old(w.log)|) ==>
              r == Success(w.respond(SelectQuery(table, flag))) && w.log == old(w.log) + [Statement(SelectQuery(table, flag), map[])]
    ensures !(w.available && !w.Fails(|old(w.log)|)) ==> r == Failure(ReadFailed(table, w.failure)) && w.log == old(w.log)
  {
    var q := "SELECT * FROM " + table;
    if flag.Some? && flag.value != "" {
      q := q + " WHERE ActiveFlag = '" + flag.value + "'";
    }
    assert q == SelectQuery(table, flag);
    var res := w.Query(q);
    if res.Failure? {
      return Failure(ReadFailed(table, res.error));
    }
    return res;
  }

  // ---------------------------------------------------------------------
  // writeData: the MERGE upsert
  // ---------------------------------------------------------------------

  predicate NoDup(xs: seq<string>)
  {
    forall i, j :: 0 <= i < j < |xs| ==> xs[i] != xs[j]
  }

  /**
   * `cols` is an order of list(set(keys + updates)): each join key and
   * update column once. The set's iteration order is not fixed, so the
   * order is a parameter of the builders.
   */
  ghost predicate IsColumnOrder(cols: seq<string>, keys: seq<string>, updates: seq<string>)
  {
    NoDup(cols) && forall c :: c in cols <==> c in keys || c in updates
  }

  /** One column order: first occurrences, left to right. */
  function Dedup(xs: seq<string>): (r: seq<string>)
    ensures NoDup(r)
    ensures forall c :: c in r <==> c in xs
  {
    if xs == [] then []
    else
      var front := xs[..|xs| - 1];
      var last := xs[|xs| - 1];
      var rest := Dedup(front);
      assert xs == front + [last];
      if last in rest then rest else rest + [last]
  }

  lemma {:induction false} DedupIsColumnOrder(keys: seq<string>, updates: seq<string>)
    ensures IsColumnOrder(Dedup(keys + updates), keys, updates)
  {
  }

  /** A column name the statement builders splice in unquoted. */
  predicate IsIdentifier(c: string)
  {
    |c| > 0 && forall k :: 0 <= k < |c| ==>
      ('a' <= c[k] <= 'z') || ('A' <= c[k] <= 'Z') || ('0' <= c[k] <= '9') || c[k] == '_'
  }

  /** One entry of the source SELECT: the named parameter aliased to the column, cast when a timestamp. */
  function SelectPart(c: string): string
  {
    if Contains(c, "Timestamp") then "cast(:" + c + " as timestamp) AS " + c else ":" + c + " AS " + c
  }

  /** select_parts */
  function SelectParts(cols: seq<string>): (r: seq<string>)
    ensures |r| == |cols|
    ensures forall k :: 0 <= k < |cols| ==> IsSuffix(" AS " + cols[k], r[k])
    ensures forall k :: 0 <= k < |cols| ==> r[k] == SelectPart(cols[k])
  {
    seq(|cols|, k requires 0 <= k < |cols| => SelectPart(cols[k]))
  }

  /** An entry is a cast exactly when its column's name contains "Timestamp". */
  lemma {:induction false} SelectPartIsCast(c: string)
    ensures IsPrefix("cast(", SelectPart(c)) <==> Contains(c, "Timestamp")
    ensures IsSuffix(" AS " + c, SelectPart(c))
  {
    var timestamp := Contains(c, "Timestamp");
    var head := if timestamp then "cast(:" + c + " as timestamp)" else ":" + c;
    assert SelectPart(c) == head + " AS " + c;
    ConcatEnds(head, " AS " + c);
    if timestamp {
      ConcatEnds("cast(", ":" + c + " as timestamp) AS " + c);
    } else {
      assert SelectPart(c)[0] == ':';
    }
  }

  /** The select_parts loop. */
  method BuildSelectParts(cols: seq<string>) returns (parts: seq<string>)
    ensures parts == SelectParts(cols)
  {
    parts := [];
    for i := 0 to |cols|
      invariant |parts| == i
      invariant forall k :: 0 <= k < i ==> parts[k] == SelectPart(cols[k])
    {
      var c := cols[i];
      if Contains(c, "Timestamp") {
        parts := parts + ["cast(:" + c + " as timestamp) AS " + c];
      } else {
        parts := parts + [":" + c + " AS " + c];
      }
    }
  }

  function SelectClause(cols: seq<string>): string
  {
    Join(SelectParts(cols), ", ")
  }

  function OnPart(k: string): string
  {
    "target." + k + " = source." + k
  }

  /** on_clause: the join keys matched pairwise, in order, joined with AND. */
  function OnClause(keys: seq<string>): string
  {
    Join(seq(|keys|, i requires 0 <= i < |keys| => OnPart(keys[i])), " AND ")
  }

  /** set_clause: each update column assigned from the source, in order. */
  function SetClause(updates: seq<string>): string
  {
    Join(seq(|updates|, i requires 0 <= i < |updates| => "target." + updates[i] + " = source." + updates[i]), ", ")
  }

  function InsertColumns(cols: seq<string>): string
  {
    Join(cols, ", ")
  }

  function InsertValues(cols: seq<string>): string
  {
    Join(seq(|cols|, i requires 0 <= i < |cols| => "source." + cols[i]), ", ")
  }

  /** merge_sql, with the layout of the f-string. */
  function MergeSql(cfg: DatasetConfig, cols: seq<string>): string
  {
    "\n            MERGE INTO " + cfg.table + " AS target"
    + "\n            USING (SELECT " + SelectClause(cols) + ") AS source"
    + "\n            ON " + OnClause(cfg.joinKeys)
    + "\n            WHEN MATCHED THEN"
    + "\n              UPDATE SET " + SetClause(cfg.updateColumns)
    + "\n            WHEN NOT MATCHED THEN"
    + "\n              INSERT (" + InsertColumns(cols) + ") VALUES (" + InsertValues(cols) + ")"
    + "\n        "
  }

  /**
   * One record's parameters: the row restricted to the given columns. A MERGE
   * is given the combined columns, a DELETE only the join keys.
   */
  function Params(r: Row, cols: seq<string>): (p: map<string, Value>)
    ensures forall c :: c in p <==> c in cols
    ensures forall c :: c in cols ==> p[c] == Get(r, c)
  {
    map c | c in cols :: Get(r, c)
  }

  /** One statement per record, in row order: the MERGEs of writeData, the DELETEs of deleteData. */
  function Statements(rows: seq<Row>, sql: string, cols: seq<string>): (r: seq<Statement>)
    ensures |r| == |rows|
    ensures forall i :: 0 <= i < |rows| ==> r[i] == Statement(sql, Params(rows[i], cols))
  {
    seq(|rows|, i requires 0 <= i < |rows| => Statement(sql, Params(rows[i], cols)))
  }

  /**
   * A run that stopped at a raising execute: some proper prefix of the
   * statements ran, in order, and stays in the log (there is no rollback).
   */
  ghost predicate PartialTrace(before: seq<Statement>, after: seq<Statement>, stmts: seq<Statement>)
  {
    exists k :: 0 <= k < |stmts| && after == before + stmts[..k]
  }

  /** A run stopped inside the first batch is also a run stopped inside both batches. */
  lemma {:induction false} PartialTraceExtends(before: seq<Statement>, after: seq<Statement>, xs: seq<Statement>, ys: seq<Statement>)
    requires PartialTrace(before, after, xs)
    ensures PartialTrace(before, after, xs + ys)
  {
    var k :| 0 <= k < |xs| && after == before + xs[..k];
    assert (xs + ys)[..k] == xs[..k];
  }

  /** A run stopped inside the second batch, after the first ran in full, is a run stopped inside both. */
  lemma {:induction false} PartialTraceAfter(before: seq<Statement>, middle: seq<Statement>, after: seq<Statement>,
                                             xs: seq<Statement>, ys: seq<Statement>)
    requires middle == before + xs && PartialTrace(middle, after, ys)
    ensures PartialTrace(before, after, xs + ys)
  {
    var k :| 0 <= k < |ys| && after == middle + ys[..k];
    assert (xs + ys)[..|xs| + k] == xs + ys[..k];
  }

  /** DataFrame.empty: no rows or no columns. */
  predicate Empty(f: Frame)
  {
    |f.rows| == 0 || |f.columns| == 0
  }

  /** The combined columns the frame lacks, in order: the ones working_df[all_cols] raises on. */
  function Missing(cols: seq<string>, present: seq<string>): (r: seq<string>)
    ensures forall c :: c in r <==> c in cols && c !in present
  {
    if cols == [] then []
    else (if cols[0] in present then [] else [cols[0]]) + Missing(cols[1..], present)
  }

  function QuotedList(xs: seq<string>): string
  {
    Join(seq(|xs|, i requires 0 <= i < |xs| => "'" + xs[i] + "'"), ", ")
  }

  /** str() of the KeyError a column selection raises. */
  function ColumnsKeyError(missing: seq<string>): string
  {
    "\"[" + QuotedList(missing) + "] not in index\""
  }

  function SyncFailed(message: string): string
  {
    "Database sync failed: " + message
  }

  /**
   * writeData: nothing on an empty frame; otherwise open a connection, select
   * the combined columns and run one MERGE per record in order. Statements that
   * ran before a failure stay run; every failure is re-raised with one prefix.
   */
  method WriteData(w: Warehouse, df: Frame, cfg: DatasetConfig, cols: seq<string>) returns (o: Outcome)
    requires IsColumnOrder(cols, cfg.joinKeys, cfg.updateColumns)
    modifies w
    ensures Empty(df) ==> o == Pass && w.log == old(w.log)
    ensures !Empty(df) && !w.available ==> o == Fail(SyncFailed(w.failure)) && w.log == old(w.log)
    ensures !Empty(df) && w.available && Missing(cols, df.columns) != [] ==>
              o == Fail(SyncFailed(ColumnsKeyError(Missing(cols, df.columns)))) && w.log == old(w.log)
    ensures !Empty(df) && w.available && Missing(cols, df.columns) == [] ==>
              var stmts := Statements(df.rows, MergeSql(cfg, cols), cols);
              var k := w.Completed(|old(w.log)|, |stmts|);
              w.log == old(w.log) + stmts[..k] && o == (if k == |stmts| then Pass else Fail(SyncFailed(w.failure)))
    ensures o.Fail? ==> PartialTrace(old(w.log), w.log, Statements(df.rows, MergeSql(cfg, cols), cols))
  {
    if |df.rows| == 0 || |df.columns| == 0 {
      return Pass;
    }
    ghost var all := Statements(df.rows, MergeSql(cfg, cols), cols);
    assert old(w.log) == old(w.log) + all[..0];
    var parts := BuildSelectParts(cols);
    var sql := "\n            MERGE INTO " + cfg.table + " AS target"
      + "\n            USING (SELECT " + Join(parts, ", ") + ") AS source"
      + "\n            ON " + OnClause(cfg.joinKeys)
      + "\n            WHEN MATCHED THEN"
      + "\n              UPDATE SET " + SetClause(cfg.updateColumns)
      + "\n            WHEN NOT MATCHED THEN"
      + "\n              INSERT (" + InsertColumns(cols) + ") VALUES (" + InsertValues(cols) + ")"
      + "\n        ";
    if !w.available {
      return Fail(SyncFailed(w.failure));
    }
    var missing := Missing(cols, df.columns);
    if missing != [] {
      return Fail(SyncFailed(ColumnsKeyError(missing)));
    }
    var payload := seq(|df.rows|, i requires 0 <= i < |df.rows| => Params(df.rows[i], cols));
    var stmts := seq(|payload|, i requires 0 <= i < |payload| => Statement(sql, payload[i]));
    var ok := w.ExecuteAll(stmts);
    if !ok {
      return Fail(SyncFailed(w.failure));
    }
    return Pass;
  }

  /** Every MERGE carries exactly the join keys and update columns as parameters. */
  lemma {:induction false} MergeParamsAreKeysAndUpdates(r: Row, cfg: DatasetConfig, cols: seq<string>)
    requires IsColumnOrder(cols, cfg.joinKeys, cfg.updateColumns)
    ensures forall c :: c in Params(r, cols) <==> c in cfg.joinKeys || c in cfg.updateColumns
  {
  }

  /** The select clause splits back into one entry per column, in column order. */
  lemma {:induction false} SelectClauseEntries(cols: seq<string>)
    requires |cols| >= 1 && forall k :: 0 <= k < |cols| ==> IsIdentifier(cols[k])
    ensures Elements(SelectClause(cols)) == SelectParts(cols)
  {
    var parts := SelectParts(cols);
    forall k | 0 <= k < |parts| ensures ',' !in parts[k] && IsStripped(parts[k]) {
      var c := cols[k];
      assert ',' !in c && !IsSpace(c[|c| - 1]) by {
        assert IsIdentifier(c);
      }
      assert parts[k] == SelectPart(c);
    }
    ElementsOfJoin(parts);
  }

  /** INSERT (...) lists the combined columns in order. */
  lemma {:induction false} InsertColumnsEntries(cols: seq<string>)
    requires |cols| >= 1 && forall k :: 0 <= k < |cols| ==> IsIdentifier(cols[k])
    ensures Elements(InsertColumns(cols)) == cols
  {
    forall k | 0 <= k < |cols| ensures ',' !in cols[k] && IsStripped(cols[k]) {
      assert IsIdentifier(cols[k]);
    }
    ElementsOfJoin(cols);
  }

  /** VALUES (...) is source.<c> for the same columns in the same order. */
  lemma {:induction false} InsertValuesEntries(cols: seq<string>)
    requires |cols| >= 1 && forall k :: 0 <= k < |cols| ==> IsIdentifier(cols[k])
    ensures |Elements(InsertValues(cols))| == |cols|
    ensures forall k :: 0 <= k < |cols| ==> Elements(InsertValues(cols))[k] == "source." + cols[k]
  {
    var vals := seq(|cols|, i requires 0 <= i < |cols| => "source." + cols[i]);
    forall k | 0 <= k < |vals| ensures ',' !in vals[k] && IsStripped(vals[k]) {
      assert IsIdentifier(cols[k]);
    }
    ElementsOfJoin(vals);
  }

  /** UPDATE SET assigns exactly the update columns, in order. */
  lemma {:induction false} SetClauseEntries(updates: seq<string>)
    requires |updates| >= 1 && forall k :: 0 <= k < |updates| ==> IsIdentifier(updates[k])
    ensures |Elements(SetClause(updates))| == |updates|
    ensures forall k :: 0 <= k < |updates| ==>
              Elements(SetClause(updates))[k] == "target." + updates[k] + " = source." + updates[k]
  {
    var sets := seq(|updates|, i requires 0 <= i < |updates| => "target." + updates[i] + " = source." + updates[i]);
    forall k | 0 <= k < |sets| ensures ',' !in sets[k] && IsStripped(sets[k]) {
      assert IsIdentifier(updates[k]);
    }
    ElementsOfJoin(sets);
  }

  /** Adding a join key adds one more AND-ed equality at the end of the ON clause. */
  lemma {:induction false} OnClauseSnoc(keys: seq<string>, k: string)
    requires |keys| >= 1
    ensures OnClause(keys + [k]) == OnClause(keys) + " AND " + OnPart(k)
  {
    var ps := seq(|keys|, i requires 0 <= i < |keys| => OnPart(keys[i]));
    var qs := seq(|keys + [k]|, i requires 0 <= i < |keys + [k]| => OnPart((keys + [k])[i]));
    assert qs == ps + [OnPart(k)];
    JoinSnoc(ps, OnPart(k), " AND ");
  }

  // ---------------------------------------------------------------------
  // deleteData
  // ---------------------------------------------------------------------

  /** One equality of the WHERE clause: the key against its named parameter. */
  function WherePart(k: string): string
  {
    k + " = :" + k
  }

  /** where_clause: `k = :k` for each join key, joined with AND. */
  function WhereClause(keys: seq<string>): string
  {
    Join(seq(|keys|, i requires 0 <= i < |keys| => WherePart(keys[i])), " AND ")
  }

  function DeleteSql(cfg: DatasetConfig): string
  {
    "DELETE FROM " + cfg.table + " WHERE " + WhereClause(cfg.joinKeys)
  }

  /** The first join key the records lack: record[k] raises on it before anything runs. */
  function FirstMissing(keys: seq<string>, present: seq<string>): (r: Option<string>)
    ensures r.None? <==> forall k :: k in keys ==> k in present
    ensures r.Some? ==> r.value in keys && r.value !in present
  {
    if keys == [] then None
    else if keys[0] !in present then Some(keys[0])
    else FirstMissing(keys[1..], present)
  }

  function DeleteFailed(message: string): string
  {
    "Database delete failed: " + message
  }

  /**
   * deleteData on a frame: nothing when it is empty; otherwise one DELETE per
   * record, in order, each with only the join keys as parameters.
   */
  method DeleteData(w: Warehouse, df: Frame, cfg: DatasetConfig) returns (o: Outcome)
    modifies w
    ensures Empty(df) ==> o == Pass && w.log == old(w.log)
    ensures !Empty(df) && !w.available ==> o == Fail(DeleteFailed(w.failure)) && w.log == old(w.log)
    ensures !Empty(df) && w.available && FirstMissing(cfg.joinKeys, df.columns).Some? ==>
              o == Fail(DeleteFailed("'" + FirstMissing(cfg.joinKeys, df.columns).value + "'")) && w.log == old(w.log)
    ensures !Empty(df) && w.available && FirstMissing(cfg.joinKeys, df.columns).None? ==>
              var stmts := Statements(df.rows, DeleteSql(cfg), cfg.joinKeys);
              var k := w.Completed(|old(w.log)|, |stmts|);
              w.log == old(w.log) + stmts[..k] && o == (if k == |stmts| then Pass else Fail(DeleteFailed(w.failure)))
    ensures o.Fail? ==> PartialTrace(old(w.log), w.log, Statements(df.rows, DeleteSql(cfg), cfg.joinKeys))
  {
    if |df.rows| == 0 || |df.columns| == 0 {
      return Pass;
    }
    ghost var all := Statements(df.rows, DeleteSql(cfg), cfg.joinKeys);
    assert old(w.log) == old(w.log) + all[..0];
    var sql := "DELETE FROM " + cfg.table + " WHERE " + WhereClause(cfg.joinKeys);
    if !w.available {
      return Fail(DeleteFailed(w.failure));
    }
    var absent := FirstMissing(cfg.joinKeys, df.columns);
    if absent.Some? {
      return Fail(DeleteFailed("'" + absent.value + "'"));
    }
    var stmts := seq(|df.rows|, i requires 0 <= i < |df.rows| => Statement(sql, Params(df.rows[i], cfg.joinKeys)));
    var ok := w.ExecuteAll(stmts);
    if !ok {
      return Fail(DeleteFailed(w.failure));
    }
    return Pass;
  }

  /** With a single join key the WHERE clause is the one equality. */
  lemma {:induction false} WhereClauseSingle(k: string)
    ensures WhereClause([k]) == k + " = :" + k
  {
  }

  /** Adding a join key adds one more AND-ed equality at the end of the WHERE clause. */
  lemma {:induction false} WhereClauseSnoc(keys: seq<string>, k: string)
    requires |keys| >= 1
    ensures WhereClause(keys + [k]) == WhereClause(keys) + " AND " + WherePart(k)
  {
    var ps := seq(|keys|, i requires 0 <= i < |keys| => WherePart(keys[i]));
    var qs := seq(|keys + [k]|, i requires 0 <= i < |keys + [k]| => WherePart((keys + [k])[i]));
    assert qs == ps + [WherePart(k)];
    JoinSnoc(ps, WherePart(k), " AND ");
  }

  /** Every DELETE carries exactly the join keys as parameters, with the record's values. */
  lemma {:induction false} DeleteParamsAreKeys(rows: seq<Row>, cfg: DatasetConfig, i: nat)
    requires i < |rows|
    ensures var s := Statements(rows, DeleteSql(cfg), cfg.joinKeys)[i];
            s.sql == "DELETE FROM " + cfg.table + " WHERE " + WhereClause(cfg.joinKeys)
            && (forall c :: c in s.params <==> c in cfg.joinKeys)
            && (forall c :: c in cfg.joinKeys ==> s.params[c] == Get(rows[i], c))
  {
  }
}

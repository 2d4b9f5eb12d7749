/**
 * The pandas DataFrames the pages keep in session state, as values: a frame
 * is its column labels plus its rows, a row maps column labels to cells, and
 * a label a row lacks reads as a missing cell (NaN), which is what pd.concat
 * leaves in columns that one side did not have. Positions play the part of the
 * index labels: every page maps a view position back to a row before writing.
 */
module Frames {
  import opened Wrappers
  import opened Text

  /** A cell: missing (None/NaN), a string, a number kept opaque as its str() text, or a bool. */
  datatype Value = Null | Str(s: string) | Number(repr: string) | Flag(b: bool)

  type Row = map<string, Value>

  datatype Frame = Frame(columns: seq<string>, rows: seq<Row>)

  /** The cell of `r` in column `c`; a column the row lacks reads as missing. */
  function Get(r: Row, c: string): Value
  {
    if c in r then r[c] else Null
  }

  /** fillna('') on one cell. */
  function FillEmpty(v: Value): (r: Value)
    ensures r != Null
    ensures v != Null ==> r == v
  {
    if v == Null then Str("") else v
  }

  /** Python's str() of a cell; a missing float cell prints as "nan". */
  function Show(v: Value): string
  {
    match v
    case Null => "nan"
    case Str(s) => s
    case Number(t) => t
    case Flag(b) => if b then "True" else "False"
  }

  /** .fillna('').astype(str) on one cell: the form the positional diffs compare. */
  function StrForm(v: Value): string
  {
    Show(FillEmpty(v))
  }

  /** The column list after writing column `c` (.at[...] and df[c] = ... add a missing column at the end). */
  function WithColumn(cols: seq<string>, c: string): (r: seq<string>)
    ensures c in r
    ensures forall x :: x in r <==> x in cols || x == c
    ensures c in cols ==> r == cols
  {
    if c in cols then cols else cols + [c]
  }

  /** The column list of pd.concat([df, new_row_df]): the frame's columns, then the new row's own. */
  function UnionColumns(cols: seq<string>, extra: seq<string>): (r: seq<string>)
    ensures forall x :: x in r <==> x in cols || x in extra
    ensures |cols| <= |r| && r[..|cols|] == cols
    decreases |extra|
  {
    if extra == [] then cols else UnionColumns(WithColumn(cols, extra[0]), extra[1..])
  }

  /** df.at[i, c] = v */
  function SetCell(f: Frame, i: nat, c: string, v: Value): (r: Frame)
    requires i < |f.rows|
    ensures r.columns == WithColumn(f.columns, c)
    ensures |r.rows| == |f.rows|
    ensures Get(r.rows[i], c) == v
    ensures forall x :: x != c ==> Get(r.rows[i], x) == Get(f.rows[i], x)
    ensures forall j :: 0 <= j < |f.rows| && j != i ==> r.rows[j] == f.rows[j]
  {
    Frame(WithColumn(f.columns, c), f.rows[i := f.rows[i][c := v]])
  }

  /** pd.concat([df, pd.DataFrame([row])], ignore_index=True), the new row's keys being `cols`. */
  function AppendRow(f: Frame, cols: seq<string>, row: Row): (r: Frame)
    ensures r.rows == f.rows + [row]
    ensures forall x :: x in r.columns <==> x in f.columns || x in cols
  {
    Frame(UnionColumns(f.columns, cols), f.rows + [row])
  }

  /** df[c] = v: every row gets v in column c. */
  function SetColumn(f: Frame, c: string, v: Value): (r: Frame)
    ensures r.columns == WithColumn(f.columns, c)
    ensures |r.rows| == |f.rows|
    ensures forall i :: 0 <= i < |f.rows| ==> r.rows[i] == f.rows[i][c := v]
  {
    Frame(WithColumn(f.columns, c), seq(|f.rows|, i requires 0 <= i < |f.rows| => f.rows[i][c := v]))
  }

  function RemoveLabel(cols: seq<string>, c: string): (r: seq<string>)
    ensures forall x :: x in r <==> x in cols && x != c
  {
    if cols == [] then []
    else if cols[0] == c then RemoveLabel(cols[1..], c)
    else [cols[0]] + RemoveLabel(cols[1..], c)
  }

  /** df.drop(columns=[c], errors='ignore'). */
  function DropColumn(f: Frame, c: string): (r: Frame)
    ensures forall x :: x in r.columns <==> x in f.columns && x != c
    ensures |r.rows| == |f.rows|
    ensures forall i, x :: 0 <= i < |f.rows| && x != c ==> Get(r.rows[i], x) == Get(f.rows[i], x)
    ensures forall i :: 0 <= i < |f.rows| ==> c !in r.rows[i]
  {
    Frame(RemoveLabel(f.columns, c), seq(|f.rows|, i requires 0 <= i < |f.rows| => f.rows[i] - {c}))
  }

  /**
   * The Feedback pre-processing of the loaders: add column c holding d when it
   * is absent, then fillna(d) and replace("", d). A cell that is missing, null
   * or "" becomes d; every other cell, in c and in every other column, is kept.
   */
  function FillMissing(f: Frame, c: string, d: Value): (r: Frame)
    ensures c in r.columns && forall x :: x in r.columns <==> x in f.columns || x == c
    ensures |r.rows| == |f.rows|
    ensures forall i :: 0 <= i < |f.rows| ==>
              Get(r.rows[i], c) == (if Get(f.rows[i], c) == Null || Get(f.rows[i], c) == Str("") then d else Get(f.rows[i], c))
    ensures forall i, x :: 0 <= i < |f.rows| && x != c ==> Get(r.rows[i], x) == Get(f.rows[i], x)
  {
    Frame(WithColumn(f.columns, c),
          seq(|f.rows|, i requires 0 <= i < |f.rows| =>
                var v := Get(f.rows[i], c);
                if v == Null || v == Str("") then f.rows[i][c := d] else f.rows[i]))
  }

  // ---------------------------------------------------------------------
  // Edits as the data editor reports them
  // ---------------------------------------------------------------------

  /** One row's entry of edited_rows: column label to proposed value, in dict order. */
  type Changes = seq<(string, Value)>

  /** `k in changes` */
  predicate Has(ch: Changes, k: string)
  {
    exists j :: 0 <= j < |ch| && ch[j].0 == k
  }

  /** changes[k] (the first entry for k; a dict has only one). */
  function Lookup(ch: Changes, k: string): (v: Value)
    requires Has(ch, k)
    ensures exists j :: 0 <= j < |ch| && ch[j] == (k, v)
  {
    if ch[0].0 == k then ch[0].1
    else
      assert exists j :: 1 <= j < |ch| && ch[j].0 == k;
      assert Has(ch[1..], k) by {
        var j :| 1 <= j < |ch| && ch[j].0 == k;
        assert ch[1..][j - 1].0 == k;
      }
      Lookup(ch[1..], k)
  }

  /** A one-entry dict holds its own label, with its value, and no other. */
  lemma {:induction false} HasSingle(k: string, v: Value, other: string)
    requires other != k
    ensures Has([(k, v)], k) && Lookup([(k, v)], k) == v && !Has([(k, v)], other)
  {
    assert [(k, v)][0].0 == k;
  }

  /** The labels of one row's changes, in order. */
  function KeysOf(ch: Changes): (r: seq<string>)
    ensures |r| == |ch|
    ensures forall j :: 0 <= j < |ch| ==> r[j] == ch[j].0
  {
    seq(|ch|, j requires 0 <= j < |ch| => ch[j].0)
  }

  /** A dict has each label once. */
  predicate DistinctKeys(ch: Changes)
  {
    forall j, l :: 0 <= j < l < |ch| ==> ch[j].0 != ch[l].0
  }

  /** `for key, value in changes.items(): df.at[i, key] = value` */
  function WriteAll(f: Frame, i: nat, ch: Changes): (r: Frame)
    requires i < |f.rows|
    ensures |r.rows| == |f.rows|
    ensures forall x :: x in r.columns <==> x in f.columns || x in KeysOf(ch)
    ensures forall j :: 0 <= j < |f.rows| && j != i ==> r.rows[j] == f.rows[j]
    ensures forall x :: x !in KeysOf(ch) ==> Get(r.rows[i], x) == Get(f.rows[i], x)
    ensures DistinctKeys(ch) ==> forall e :: 0 <= e < |ch| ==> Get(r.rows[i], ch[e].0) == ch[e].1
    decreases |ch|
  {
    if ch == [] then f
    else
      var front := ch[..|ch| - 1];
      var last := ch[|ch| - 1];
      assert KeysOf(ch) == KeysOf(front) + [last.0];
      SetCell(WriteAll(f, i, front), i, last.0, last.1)
  }

  /** Writing one more change of the dict is one more cell assignment. */
  lemma {:induction false} WriteAllStep(f: Frame, i: nat, ch: Changes, j: nat)
    requires i < |f.rows| && j < |ch|
    ensures WriteAll(f, i, ch[..j + 1]) == SetCell(WriteAll(f, i, ch[..j]), i, ch[j].0, ch[j].1)
  {
    assert ch[..j + 1][..j] == ch[..j];
  }

  /** edited_rows: view position to that row's changes, in dict order. */
  type Batch = seq<(nat, Changes)>

  /** Every entry of the batch names a row the view shows (df_display.index[row] does not raise). */
  predicate BatchFits(batch: Batch, view: seq<nat>)
  {
    forall e :: 0 <= e < |batch| ==> batch[e].0 < |view|
  }

  /** A view maps its positions to distinct rows of a frame with `n` rows, in increasing order. */
  predicate IsView(view: seq<nat>, n: nat)
  {
    (forall k :: 0 <= k < |view| ==> view[k] < n)
    && (forall k, l :: 0 <= k < l < |view| ==> view[k] < view[l])
  }

  // ---------------------------------------------------------------------
  // Filtering: multiselect filters applied with isin, one after another
  // ---------------------------------------------------------------------

  /** The non-empty filter selections in the order they are applied: (column, selected values). */
  type Selections = seq<(string, seq<Value>)>

  /** A row survives every filter: its value lies in each selection. */
  predicate Passes(r: Row, sels: Selections)
  {
    forall k :: 0 <= k < |sels| ==> Get(r, sels[k].0) in sels[k].1
  }

  /** A configured filter column takes part: the frame has it and the user's selection for it is not empty. */
  predicate Active(c: string, columns: seq<string>, ui: map<string, seq<Value>>)
  {
    c in columns && c in ui && ui[c] != []
  }

  /** The positions in the configuration of the filter columns that take part, in increasing order. */
  function ActivePositions(filterCols: seq<string>, columns: seq<string>, ui: map<string, seq<Value>>): (p: seq<nat>)
    ensures IsView(p, |filterCols|)
    ensures forall i :: 0 <= i < |filterCols| ==> (i in p <==> Active(filterCols[i], columns, ui))
  {
    if filterCols == [] then []
    else
      var n := |filterCols| - 1;
      var rest := ActivePositions(filterCols[..n], columns, ui);
      assert forall i :: 0 <= i < n ==> filterCols[..n][i] == filterCols[i];
      if Active(filterCols[n], columns, ui) then rest + [n] else rest
  }

  /**
   * The selections a filter bar produces: for each configured filter column
   * that the frame has, in configuration order, the user's selection for it
   * when that selection is not empty. Entry k filters on the column at the
   * k-th taking-part position of the configuration.
   */
  function ActiveSelections(filterCols: seq<string>, columns: seq<string>, ui: map<string, seq<Value>>): (r: Selections)
    ensures forall k :: 0 <= k < |r| ==>
              r[k].0 in filterCols && r[k].0 in columns && r[k].0 in ui && r[k].1 == ui[r[k].0] && r[k].1 != []
    ensures |r| == |ActivePositions(filterCols, columns, ui)|
    ensures forall k :: 0 <= k < |r| ==> r[k].0 == filterCols[ActivePositions(filterCols, columns, ui)[k]]
  {
    if filterCols == [] then []
    else
      var n := |filterCols| - 1;
      var c := filterCols[n];
      var rest := ActiveSelections(filterCols[..n], columns, ui);
      assert forall i :: 0 <= i < n ==> filterCols[..n][i] == filterCols[i];
      if Active(c, columns, ui) then rest + [(c, ui[c])] else rest
  }

  /** Every configured filter column that takes part is among the columns filtered on. */
  lemma {:induction false} ActiveSelectionsComplete(filterCols: seq<string>, columns: seq<string>, ui: map<string, seq<Value>>, i: nat)
    requires i < |filterCols| && Active(filterCols[i], columns, ui)
    ensures filterCols[i] in Filtered(ActiveSelections(filterCols, columns, ui))
  {
    var p := ActivePositions(filterCols, columns, ui);
    var r := ActiveSelections(filterCols, columns, ui);
    var k :| 0 <= k < |p| && p[k] == i;
    assert Filtered(r)[k] == filterCols[i];
  }

  /** The columns the selections filter on, in order. */
  function Filtered(sels: Selections): (r: seq<string>)
    ensures |r| == |sels| && forall k :: 0 <= k < |sels| ==> r[k] == sels[k].0
  {
    if sels == [] then [] else [sels[0].0] + Filtered(sels[1..])
  }

  /** df[df[c].isin(vals)] for each selection in turn. */
  function Keep(rows: seq<Row>, sels: Selections): (r: seq<Row>)
    ensures |r| <= |rows|
    ensures forall x :: x in r <==> x in rows && Passes(x, sels)
  {
    if rows == [] then []
    else
      var rest := Keep(rows[..|rows| - 1], sels);
      var last := rows[|rows| - 1];
      assert rows == rows[..|rows| - 1] + [last];
      if Passes(last, sels) then rest + [last] else rest
  }

  /** The positions of the rows a filtered view shows, in frame order: df_display.index. */
  function ViewOf(rows: seq<Row>, sels: Selections): (v: seq<nat>)
    ensures IsView(v, |rows|)
    ensures forall i :: 0 <= i < |rows| ==> (i in v <==> Passes(rows[i], sels))
  {
    if rows == [] then []
    else
      var n := |rows| - 1;
      var rest := ViewOf(rows[..n], sels);
      assert forall i :: 0 <= i < n ==> rows[..n][i] == rows[i];
      if Passes(rows[n], sels) then rest + [n] else rest
  }

  /**
   * df_display.index: the positions of the rows a page's filter bar shows,
   * for the user's current selections `ui`.
   */
  function DisplayView(f: Frame, filterCols: seq<string>, ui: map<string, seq<Value>>): (v: seq<nat>)
    ensures IsView(v, |f.rows|)
  {
    ViewOf(f.rows, ActiveSelections(filterCols, f.columns, ui))
  }

  /** The rows at the given positions. */
  function Pick(rows: seq<Row>, positions: seq<nat>): (r: seq<Row>)
    requires forall k :: 0 <= k < |positions| ==> positions[k] < |rows|
    ensures |r| == |positions|
    ensures forall k :: 0 <= k < |r| ==> r[k] == rows[positions[k]]
  {
    seq(|positions|, k requires 0 <= k < |positions| => rows[positions[k]])
  }

  /** The rows the view shows are the filtered rows, in the same order. */
  lemma {:induction false} ViewShowsKept(rows: seq<Row>, sels: Selections)
    ensures Pick(rows, ViewOf(rows, sels)) == Keep(rows, sels)
  {
    if rows != [] {
      var n := |rows| - 1;
      var front := rows[..n];
      ViewShowsKept(front, sels);
      var v := ViewOf(front, sels);
      assert Pick(rows, v) == Pick(front, v) by {
        PickPrefix(rows, n, v);
      }
      if Passes(rows[n], sels) {
        PickSnoc(rows, v, n);
      }
    }
  }

  lemma {:induction false} PickPrefix(rows: seq<Row>, n: nat, v: seq<nat>)
    requires n <= |rows|
    requires forall k :: 0 <= k < |v| ==> v[k] < n
    ensures Pick(rows, v) == Pick(rows[..n], v)
  {
  }

  lemma {:induction false} PickSnoc(rows: seq<Row>, v: seq<nat>, n: nat)
    requires n < |rows|
    requires forall k :: 0 <= k < |v| ==> v[k] < |rows|
    ensures Pick(rows, v + [n]) == Pick(rows, v) + [rows[n]]
  {
  }

  /** Applying one more filter to filtered rows filters by both. */
  lemma {:induction false} KeepThenOne(rows: seq<Row>, sels: Selections, one: (string, seq<Value>))
    ensures Keep(Keep(rows, sels), [one]) == Keep(rows, sels + [one])
  {
    PassesSnoc(sels, one);
    if rows != [] {
      var n := |rows| - 1;
      KeepThenOne(rows[..n], sels, one);
      var k1 := Keep(rows[..n], sels);
      if Passes(rows[n], sels) {
        KeepSnoc(k1, rows[n], [one]);
      }
    }
  }

  lemma {:induction false} PassesSnoc(sels: Selections, one: (string, seq<Value>))
    ensures forall r :: Passes(r, sels + [one]) <==> Passes(r, sels) && Passes(r, [one])
  {
    forall r ensures Passes(r, sels + [one]) <==> Passes(r, sels) && Passes(r, [one]) {
      if Passes(r, sels) && Passes(r, [one]) {
        forall k | 0 <= k < |sels + [one]| ensures Get(r, (sels + [one])[k].0) in (sels + [one])[k].1 {
          if k == |sels| {
            assert (sels + [one])[k] == [one][0];
          } else {
            assert (sels + [one])[k] == sels[k];
          }
        }
      }
      if Passes(r, sels + [one]) {
        forall k | 0 <= k < |sels| ensures Get(r, sels[k].0) in sels[k].1 {
          assert (sels + [one])[k] == sels[k];
        }
        assert (sels + [one])[|sels|] == one;
      }
    }
  }

  lemma {:induction false} KeepSnoc(rows: seq<Row>, x: Row, sels: Selections)
    ensures Keep(rows + [x], sels) == if Passes(x, sels) then Keep(rows, sels) + [x] else Keep(rows, sels)
  {
    assert (rows + [x])[..|rows|] == rows;
  }

  /** With no active selection nothing is filtered out. */
  lemma {:induction false} KeepNothingSelected(rows: seq<Row>)
    ensures Keep(rows, []) == rows
  {
    if rows != [] {
      KeepNothingSelected(rows[..|rows| - 1]);
      assert rows == rows[..|rows| - 1] + [rows[|rows| - 1]];
    }
  }

  // ---------------------------------------------------------------------
  // The positional change detector
  // ---------------------------------------------------------------------

  predicate SameColumnSet(a: seq<string>, b: seq<string>)
  {
    (forall c :: c in a ==> c in b) && (forall c :: c in b ==> c in a)
  }

  /**
   * Row r of the working copy against row o of the snapshot under
   * ~(cur.fillna('').astype(str).eq(orig.fillna('').astype(str))).all(axis=1):
   * a column only one side has is NaN on the other after alignment and never
   * compares equal, so differing column sets mark the row as changed.
   */
  predicate StrChanged(curCols: seq<string>, origCols: seq<string>, r: Row, o: Row)
  {
    !SameColumnSet(curCols, origCols) || exists c :: c in curCols && StrForm(Get(r, c)) != StrForm(Get(o, c))
  }

  /** The positions below n whose rows differ in string form, in increasing order. */
  function ModifiedBelow(cur: Frame, orig: Frame, n: nat): (r: seq<nat>)
    requires n <= |cur.rows| && n <= |orig.rows|
    ensures IsView(r, n)
    ensures forall i :: 0 <= i < n ==> (i in r <==> StrChanged(cur.columns, orig.columns, cur.rows[i], orig.rows[i]))
  {
    if n == 0 then []
    else
      var rest := ModifiedBelow(cur, orig, n - 1);
      if StrChanged(cur.columns, orig.columns, cur.rows[n - 1], orig.rows[n - 1]) then rest + [n - 1] else rest
  }

  function Min(a: nat, b: nat): nat
  {
    if a <= b then a else b
  }

  /** modified_rows: positions of the overlap whose null-as-empty string form differs from the snapshot. */
  function ModifiedPositions(cur: Frame, orig: Frame): (r: seq<nat>)
    ensures IsView(r, Min(|cur.rows|, |orig.rows|))
    ensures forall i :: 0 <= i < |cur.rows| && i < |orig.rows| ==>
              (i in r <==> StrChanged(cur.columns, orig.columns, cur.rows[i], orig.rows[i]))
  {
    ModifiedBelow(cur, orig, Min(|cur.rows|, |orig.rows|))
  }

  /** new_rows: the suffix of the working copy beyond the snapshot's length. */
  function NewRows(cur: Frame, orig: Frame): (r: seq<Row>)
    ensures |cur.rows| <= |orig.rows| ==> r == []
    ensures |cur.rows| > |orig.rows| ==> |r| == |cur.rows| - |orig.rows|
    ensures forall k :: 0 <= k < |r| ==> r[k] == cur.rows[|orig.rows| + k]
  {
    if |cur.rows| > |orig.rows| then cur.rows[|orig.rows|..] else []
  }

  /** What a save sends: the new rows followed by the modified overlap rows. */
  function Pending(cur: Frame, orig: Frame): (r: seq<Row>)
    ensures |r| == |NewRows(cur, orig)| + |ModifiedPositions(cur, orig)|
  {
    var m := ModifiedPositions(cur, orig);
    NewRows(cur, orig) + Pick(cur.rows, m)
  }

  lemma {:induction false} ModifiedBelowNone(cur: Frame, orig: Frame, n: nat)
    requires n <= |cur.rows| && n <= |orig.rows|
    requires forall i :: 0 <= i < n ==> !StrChanged(cur.columns, orig.columns, cur.rows[i], orig.rows[i])
    ensures ModifiedBelow(cur, orig, n) == []
  {
    if n > 0 {
      ModifiedBelowNone(cur, orig, n - 1);
    }
  }

  /** A frame compared with itself has nothing pending. */
  lemma {:induction false} PendingSelfEmpty(f: Frame)
    ensures Pending(f, f) == []
  {
    ModifiedBelowNone(f, f, |f.rows|);
  }

  /**
   * The change detector is exact: with matching column sets, when the working
   * copy is the snapshot with some rows appended, a row is sent exactly when it
   * is appended or its string form differs at the same position, each once.
   */
  lemma {:induction false} PendingExact(cur: Frame, orig: Frame)
    requires |orig.rows| <= |cur.rows|
    requires SameColumnSet(cur.columns, orig.columns)
    ensures NewRows(cur, orig) == cur.rows[|orig.rows|..]
    ensures forall i :: 0 <= i < |orig.rows| ==>
              (i in ModifiedPositions(cur, orig) <==>
               exists c :: c in cur.columns && StrForm(Get(cur.rows[i], c)) != StrForm(Get(orig.rows[i], c)))
  {
  }

  /**
   * df[df[c] == v]: the rows whose cell in c equals v, in order; the same
   * order-preserving filter as an isin selection of that one value.
   */
  function RowsWhere(rows: seq<Row>, c: string, v: Value): (r: seq<Row>)
    ensures |r| <= |rows|
    ensures forall x :: x in r <==> x in rows && Get(x, c) == v
    ensures r == Keep(rows, [(c, [v])])
  {
    if rows == [] then []
    else
      var rest := RowsWhere(rows[..|rows| - 1], c, v);
      var last := rows[|rows| - 1];
      assert rows == rows[..|rows| - 1] + [last];
      assert Passes(last, [(c, [v])]) <==> Get(last, c) == v by {
        assert [(c, [v])][0] == (c, [v]);
      }
      if Get(last, c) == v then rest + [last] else rest
  }

  /** The matching rows are the rows at the increasing positions whose cell equals v. */
  lemma {:induction false} RowsWhereInOrder(rows: seq<Row>, c: string, v: Value)
    ensures IsView(ViewOf(rows, [(c, [v])]), |rows|)
    ensures forall i :: 0 <= i < |rows| ==> (i in ViewOf(rows, [(c, [v])]) <==> Get(rows[i], c) == v)
    ensures RowsWhere(rows, c, v) == Pick(rows, ViewOf(rows, [(c, [v])]))
  {
    ViewShowsKept(rows, [(c, [v])]);
    forall i | 0 <= i < |rows| ensures Passes(rows[i], [(c, [v])]) <==> Get(rows[i], c) == v {
      assert [(c, [v])][0] == (c, [v]);
    }
  }

  /** The positions whose cell in c equals v. */
  function MatchPositions(rows: seq<Row>, c: string, v: Value): set<nat>
  {
    set i: nat | i < |rows| && Get(rows[i], c) == v
  }

  lemma {:induction false} MatchPositionsSnoc(rows: seq<Row>, c: string, v: Value)
    requires rows != []
    ensures var n := |rows| - 1;
            MatchPositions(rows, c, v)
            == MatchPositions(rows[..n], c, v) + (if Get(rows[n], c) == v then {n} else {})
            && n !in MatchPositions(rows[..n], c, v)
  {
    var n := |rows| - 1;
    assert forall i :: 0 <= i < n ==> rows[..n][i] == rows[i];
  }

  /** len(df[df[c] == v]): the number of positions whose cell equals v, repeated rows counted each time. */
  lemma {:induction false} RowsWhereCount(rows: seq<Row>, c: string, v: Value)
    ensures |RowsWhere(rows, c, v)| == |MatchPositions(rows, c, v)|
  {
    if rows == [] {
      assert MatchPositions(rows, c, v) == {};
    } else {
      var n := |rows| - 1;
      RowsWhereCount(rows[..n], c, v);
      MatchPositionsSnoc(rows, c, v);
    }
  }

  lemma {:induction false} RowsWhereAll(rows: seq<Row>, c: string, v: Value)
    requires forall i :: 0 <= i < |rows| ==> Get(rows[i], c) == v
    ensures RowsWhere(rows, c, v) == rows
  {
    if rows != [] {
      var n := |rows| - 1;
      assert forall i :: 0 <= i < n ==> rows[..n][i] == rows[i];
      RowsWhereAll(rows[..n], c, v);
      assert Get(rows[n], c) == v;
      assert rows == rows[..n] + [rows[n]];
    }
  }

  lemma {:induction false} RowsWhereNone(rows: seq<Row>, c: string, v: Value)
    requires forall i :: 0 <= i < |rows| ==> Get(rows[i], c) != v
    ensures RowsWhere(rows, c, v) == []
  {
    if rows != [] {
      var n := |rows| - 1;
      assert forall i :: 0 <= i < n ==> rows[..n][i] == rows[i];
      RowsWhereNone(rows[..n], c, v);
      assert Get(rows[n], c) != v;
    }
  }

  /** Every row a save sends is a row of the working copy. */
  lemma {:induction false} PendingFromCurrent(cur: Frame, orig: Frame)
    ensures forall x :: x in Pending(cur, orig) ==> x in cur.rows
  {
    var m := ModifiedPositions(cur, orig);
    var added := NewRows(cur, orig);
    var changed := Pick(cur.rows, m);
    assert Pending(cur, orig) == added + changed;
    forall k | 0 <= k < |added| ensures added[k] in cur.rows {
      assert added[k] == cur.rows[|orig.rows| + k];
    }
    forall k | 0 <= k < |changed| ensures changed[k] in cur.rows {
      assert changed[k] == cur.rows[m[k]];
    }
  }

  /** What a save action reports. */
  datatype SaveOutcome = NothingToSave | Saved(message: string) | SaveFailed(message: string)
}

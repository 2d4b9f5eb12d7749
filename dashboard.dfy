/**
 * The dashboard: read-only views of the model and master tables with
 * Feedback normalisation on load, multiselect filters over the configured
 * columns that the table has, integer count KPIs and a descending sort.
 */
module Dashboard {
  import opened Wrappers
  import opened Text
  import opened Frames
  import opened DatabaseQuery
  import opened ValueOrder

  /** What load_dashboard_data returns for a table that was read. */
  function Prepared(data: Frame, isModel: bool): Frame
  {
    if isModel then FillMissing(data, "Feedback", Str("Unactioned")) else data
  }

  /**
   * load_dashboard_data: the table, with Feedback normalised for model tables;
   * a failed read shows a message and yields an empty frame.
   */
  method LoadDashboardData(w: Warehouse, table: string, isModel: bool) returns (df: Frame, error: Option<string>)
    modifies w
    ensures w.available && !w.Fails(|old(w.log)|) ==>
              error == None && df == Prepared(w.respond(SelectQuery(table, None)), isModel)
    ensures !(w.available && !w.Fails(|old(w.log)|)) ==>
              error == Some("Error loading data: " + ReadFailed(table, w.failure)) && df == Frame([], [])
  {
    var data := GetData(w, table, None);
    if data.Failure? {
      return Frame([], []), Some("Error loading data: " + data.error);
    }
    df := data.value;
    if isModel {
      df := FillMissing(df, "Feedback", Str("Unactioned"));
    }
    return df, None;
  }

  /** valid_filters: the configured filter columns the frame has, in configuration order. */
  function ValidFilters(configured: seq<string>, columns: seq<string>): (r: seq<string>)
    ensures forall x :: x in r <==> x in configured && x in columns
    ensures |r| <= |configured|
    ensures r == [] <==> forall x :: x in configured ==> x !in columns
    ensures (forall x :: x in configured ==> x in columns) ==> r == configured
  {
    if configured == [] then []
    else if configured[0] in columns then [configured[0]] + ValidFilters(configured[1..], columns)
    else ValidFilters(configured[1..], columns)
  }

  /** The column's cells, row by row. */
  function Column(rows: seq<Row>, c: string): (r: seq<Value>)
    ensures |r| == |rows| && forall i :: 0 <= i < |rows| ==> r[i] == Get(rows[i], c)
  {
    seq(|rows|, i requires 0 <= i < |rows| => Get(rows[i], c))
  }

  /** sorted(df[c].dropna().unique()): the distinct non-null values in increasing order. */
  function Options(rows: seq<Row>, c: string): (r: seq<Value>)
    ensures Increasing(r) && |r| <= |rows|
    ensures forall v :: v in r <==> v != Null && v in Column(rows, c)
    decreases |rows|
  {
    if rows == [] then []
    else
      var front := rows[..|rows| - 1];
      var v := Get(rows[|rows| - 1], c);
      var o := Options(front, c);
      assert Column(rows, c) == Column(front, c) + [v];
      if v == Null then o
      else
        InsertValueIncreasing(o, v);
        InsertValue(o, v)
  }

  /** The value a filter shows: the user's choice, else the latest RunID for the RunID filter, else nothing. */
  function Choice(rows: seq<Row>, c: string, ui: map<string, seq<Value>>): seq<Value>
  {
    if c in ui then ui[c] else if c == "RunID" then Latest(rows, c) else []
  }

  /** The last option, if there is one. */
  function Latest(rows: seq<Row>, c: string): seq<Value>
  {
    var o := Options(rows, c);
    if o == [] then [] else [o[|o| - 1]]
  }

  /** filter_selections: the valid filters with a non-empty choice, in order. */
  function DashboardSelections(rows: seq<Row>, valid: seq<string>, ui: map<string, seq<Value>>): (r: Selections)
    ensures forall k :: 0 <= k < |r| ==> r[k].0 in valid && r[k].1 == Choice(rows, r[k].0, ui) && r[k].1 != []
    ensures forall c :: c in valid && Choice(rows, c, ui) != [] ==> (c, Choice(rows, c, ui)) in r
    decreases |valid|
  {
    if valid == [] then []
    else
      var front := DashboardSelections(rows, valid[..|valid| - 1], ui);
      var c := valid[|valid| - 1];
      assert valid == valid[..|valid| - 1] + [c];
      if Choice(rows, c, ui) != [] then front + [(c, Choice(rows, c, ui))] else front
  }

  /** What render_data returns for a loaded frame. */
  function Rendered(df: Frame, configured: seq<string>, ui: map<string, seq<Value>>): Frame
  {
    if Empty(df) then df
    else Frame(df.columns, Keep(df.rows, DashboardSelections(df.rows, ValidFilters(configured, df.columns), ui)))
  }

  /** The first loop of render_data: the selections of the valid filters, in order. */
  method CollectSelections(rows: seq<Row>, valid: seq<string>, ui: map<string, seq<Value>>) returns (selections: Selections)
    ensures selections == DashboardSelections(rows, valid, ui)
  {
    selections := [];
    for k := 0 to |valid|
      invariant selections == DashboardSelections(rows, valid[..k], ui)
    {
      assert valid[..k + 1][..k] == valid[..k];
      var chosen := Choice(rows, valid[k], ui);
      if chosen != [] {
        selections := selections + [(valid[k], chosen)];
      }
    }
    assert valid[..|valid|] == valid;
  }

  /** The second loop of render_data: each selection narrows the rows kept so far. */
  method ApplySelections(all: seq<Row>, selections: Selections) returns (rows: seq<Row>)
    ensures rows == Keep(all, selections)
  {
    rows := all;
    KeepNothingSelected(all);
    for k := 0 to |selections|
      invariant rows == Keep(all, selections[..k])
    {
      ghost var before := selections[..k];
      var one := selections[k];
      assert selections[..k + 1] == before + [one];
      KeepThenOne(all, before, one);
      rows := Keep(rows, [one]);
    }
    assert selections[..|selections|] == selections;
  }

  /**
   * render_data after the load: an empty frame, or one with no valid filter,
   * is returned as it is; otherwise the selections are collected and applied
   * one after another.
   */
  method RenderData(df: Frame, configured: seq<string>, ui: map<string, seq<Value>>) returns (filtered: Frame)
    ensures filtered == Rendered(df, configured, ui)
  {
    if Empty(df) {
      return df;
    }
    var valid := ValidFilters(configured, df.columns);
    if valid == [] {
      KeepNothingSelected(df.rows);
      return df;
    }
    var selections := CollectSelections(df.rows, valid, ui);
    var rows := ApplySelections(df.rows, selections);
    return Frame(df.columns, rows);
  }

  // ---------------------------------------------------------------------
  // KPIs and the sort
  // ---------------------------------------------------------------------

  /** nunique(): the number of distinct non-null values. */
  function DistinctCount(rows: seq<Row>, c: string): nat
  {
    |Options(rows, c)|
  }

  datatype Kpis = Kpis(plants: nat, components: nat, recommendations: nat)

  /** The integer KPI cards, shown only for a non-empty frame; a missing column counts 0. */
  function CountKpis(df: Frame): (r: Option<Kpis>)
    ensures r.None? <==> Empty(df)
    ensures r.Some? ==> r.value.recommendations == |df.rows|
                        && r.value.plants <= |df.rows| && r.value.components <= |df.rows|
                        && ("PlantId" !in df.columns ==> r.value.plants == 0)
                        && ("ComponentId" !in df.columns ==> r.value.components == 0)
    ensures r.Some? && "PlantId" in df.columns ==>
              r.value.plants == |set v | v in Column(df.rows, "PlantId") && v != Null|
    ensures r.Some? && "ComponentId" in df.columns ==>
              r.value.components == |set v | v in Column(df.rows, "ComponentId") && v != Null|
  {
    if Empty(df) then None
    else
      DistinctCountIsCardinality(df.rows, "PlantId");
      DistinctCountIsCardinality(df.rows, "ComponentId");
      Some(Kpis(if "PlantId" in df.columns then DistinctCount(df.rows, "PlantId") else 0,
                if "ComponentId" in df.columns then DistinctCount(df.rows, "ComponentId") else 0,
                |df.rows|))
  }

  /** Accepted Proposals: the rows whose Feedback is Accept, 0 without a Feedback column. */
  function AcceptedCount(df: Frame): (r: nat)
    ensures r <= |df.rows|
    ensures "Feedback" !in df.columns ==> r == 0
    ensures "Feedback" in df.columns ==> r == |set i: nat | i < |df.rows| && Get(df.rows[i], "Feedback") == Str("Accept")|
  {
    if "Feedback" in df.columns then
      RowsWhereCount(df.rows, "Feedback", Str("Accept"));
      |RowsWhere(df.rows, "Feedback", Str("Accept"))|
    else 0
  }

  /** The sort column of the model view: RunID, else CreatedTimestamp, else none. */
  function SortColumn(columns: seq<string>): (r: Option<string>)
    ensures r == Some("RunID") <==> "RunID" in columns
    ensures r == Some("CreatedTimestamp") <==> "RunID" !in columns && "CreatedTimestamp" in columns
    ensures r.None? <==> "RunID" !in columns && "CreatedTimestamp" !in columns
  {
    if "RunID" in columns then Some("RunID")
    else if "CreatedTimestamp" in columns then Some("CreatedTimestamp")
    else None
  }

  /** The model output table: sorted descending by the sort column when there is one. */
  function ModelOutput(filtered: Frame): (r: Frame)
    ensures r.columns == filtered.columns && multiset(r.rows) == multiset(filtered.rows)
  {
    match SortColumn(filtered.columns)
    case None => filtered
    case Some(c) => Frame(filtered.columns, SortDescending(filtered.rows, c))
  }

  // ---------------------------------------------------------------------
  // Properties
  // ---------------------------------------------------------------------

  /** A strictly increasing list has no repeats, so it has as many elements as its set. */
  lemma {:induction false} IncreasingCardinality(s: seq<Value>)
    requires Increasing(s)
    ensures |set x | x in s| == |s|
    decreases |s|
  {
    if s != [] {
      assert Increasing(s[1..]) by {
        forall i, j | 0 <= i < j < |s[1..]| ensures Less(s[1..][i], s[1..][j]) {
          assert s[1..][i] == s[i + 1] && s[1..][j] == s[j + 1];
        }
      }
      IncreasingCardinality(s[1..]);
      assert s[0] !in s[1..] by {
        forall k | 0 <= k < |s[1..]| ensures s[1..][k] != s[0] {
          assert Less(s[0], s[k + 1]);
          LessIrreflexive(s[0]);
        }
      }
      assert (set x | x in s) == {s[0]} + (set x | x in s[1..]) by {
        assert s == [s[0]] + s[1..];
      }
    }
  }

  /** nunique is the number of distinct non-null values of the column. */
  lemma {:induction false} DistinctCountIsCardinality(rows: seq<Row>, c: string)
    ensures DistinctCount(rows, c) == |set v | v in Column(rows, c) && v != Null|
  {
    var o := Options(rows, c);
    IncreasingCardinality(o);
    assert (set v | v in Column(rows, c) && v != Null) == set x | x in o;
  }

  /** The RunID default is the column's maximum: every non-null value is at most the last option. */
  lemma {:induction false} LastOptionIsMaximum(rows: seq<Row>, c: string, v: Value)
    requires Options(rows, c) != [] && v != Null && v in Column(rows, c)
    ensures var o := Options(rows, c); v == o[|o| - 1] || Less(v, o[|o| - 1])
  {
    var o := Options(rows, c);
    var k :| 0 <= k < |o| && o[k] == v;
  }

  /**
   * The filtered table is exactly the rows lying in every non-empty selection,
   * in their original order: the loaded rows picked at increasing positions.
   */
  lemma {:induction false} RenderedIsOrderedSelection(df: Frame, configured: seq<string>, ui: map<string, seq<Value>>)
    requires !Empty(df)
    ensures var sels := DashboardSelections(df.rows, ValidFilters(configured, df.columns), ui);
            Rendered(df, configured, ui).rows == Pick(df.rows, ViewOf(df.rows, sels))
            && IsView(ViewOf(df.rows, sels), |df.rows|)
            && forall x :: x in Rendered(df, configured, ui).rows <==> x in df.rows && Passes(x, sels)
  {
    ViewShowsKept(df.rows, DashboardSelections(df.rows, ValidFilters(configured, df.columns), ui));
  }

  /** With no valid filter column nothing is filtered out. */
  lemma {:induction false} NoValidFilterKeepsAll(df: Frame, configured: seq<string>, ui: map<string, seq<Value>>)
    requires forall c :: c in configured ==> c !in df.columns
    ensures Rendered(df, configured, ui) == df
  {
    assert DashboardSelections(df.rows, ValidFilters(configured, df.columns), ui) == [];
    KeepNothingSelected(df.rows);
  }

  /** The model output is sorted: no row's key is below the key of a later row, and missing keys come last. */
  lemma {:induction false} ModelOutputSorted(filtered: Frame)
    requires SortColumn(filtered.columns).Some?
    ensures Descending(ModelOutput(filtered).rows, SortColumn(filtered.columns).value)
  {
    SortDescendingSorted(filtered.rows, SortColumn(filtered.columns).value);
  }

  /**
   * Model tables come back with a Feedback column and no missing or empty
   * Feedback, every other cell as read; master tables come back as read.
   */
  lemma {:induction false} PreparedFeedback(data: Frame, isModel: bool)
    ensures isModel ==> "Feedback" in Prepared(data, true).columns && |Prepared(data, true).rows| == |data.rows|
    ensures isModel ==> forall i :: 0 <= i < |data.rows| ==>
              Get(Prepared(data, true).rows[i], "Feedback") != Null && Get(Prepared(data, true).rows[i], "Feedback") != Str("")
    ensures isModel ==> forall i, x :: 0 <= i < |data.rows| && x != "Feedback" ==>
              Get(Prepared(data, true).rows[i], x) == Get(data.rows[i], x)
    ensures !isModel ==> Prepared(data, false) == data
  {
  }
}

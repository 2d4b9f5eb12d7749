/**
 * The master data page: two dimension tables behind tabs, reloaded whenever
 * the loaded table is not the selected one, an edit pass that only takes
 * ActiveFlag changes, and a save that sends every row whose null-as-empty
 * values differ from the snapshot at the same position.
 */
module MasterData {
  import opened Wrappers
  import opened Text
  import opened Frames
  import opened DatabaseQuery

  /** The two tabs. */
  datatype Master = ComponentExclusion | Substitution
  {
    function Name(): string
    {
      match this
      case ComponentExclusion => "ComponentExclusion"
      case Substitution => "Substitution"
    }

    function Config(): DatasetConfig
    {
      match this
      case ComponentExclusion =>
        DatasetConfig("bytemaster.appdata.DimComponentExclusion", ["ComponentId", "PlantId"], UpdateColumns,
                      ["ComponentId", "PlantId", "UserEmail"])
      case Substitution =>
        DatasetConfig("bytemaster.appdata.DimSubstitution", ["ComponentId", "PlantId", "SubstituteOf"], UpdateColumns,
                      ["ComponentId", "PlantId", "MaterialId", "UserEmail"])
    }
  }

  const UpdateColumns := ["ActiveFlag", "UpdatedTimestamp", "UserEmail"]

  /** The timestamp column: UpdatedTimestamp when the frame has one, else Timestamp. */
  function TimestampColumn(f: Frame): (c: string)
    ensures c != "ActiveFlag" && c != "UserEmail"
  {
    if "UpdatedTimestamp" in f.columns then "UpdatedTimestamp" else "Timestamp"
  }

  // ---------------------------------------------------------------------
  // The edit pass
  // ---------------------------------------------------------------------

  /** The entries the pass reads a view position for: those that change ActiveFlag. */
  predicate FlagEntriesFit(batch: Batch, view: seq<nat>)
  {
    forall e :: 0 <= e < |batch| && Has(batch[e].1, "ActiveFlag") ==> batch[e].0 < |view|
  }

  /** One entry: an ActiveFlag change writes the flag, the time and the user; any other entry is ignored. */
  function RowEdit(f: Frame, view: seq<nat>, entry: (nat, Changes), ts: string, email: string, now: string): (r: Frame)
    requires IsView(view, |f.rows|)
    requires Has(entry.1, "ActiveFlag") ==> entry.0 < |view|
    ensures |r.rows| == |f.rows|
  {
    if Has(entry.1, "ActiveFlag") then
      var i := view[entry.0];
      SetCell(SetCell(SetCell(f, i, "ActiveFlag", Lookup(entry.1, "ActiveFlag")), i, ts, Str(now)), i, "UserEmail", Str(email))
    else f
  }

  /** The pass over a batch, entry by entry. */
  function EditPass(f: Frame, view: seq<nat>, batch: Batch, ts: string, email: string, now: string): (r: Frame)
    requires IsView(view, |f.rows|) && FlagEntriesFit(batch, view)
    ensures |r.rows| == |f.rows|
    decreases |batch|
  {
    if batch == [] then f
    else RowEdit(EditPass(f, view, batch[..|batch| - 1], ts, email, now), view, batch[|batch| - 1], ts, email, now)
  }

  // ---------------------------------------------------------------------
  // The change mask of the save
  // ---------------------------------------------------------------------

  /**
   * Row r against row o under ~(cur.fillna('').eq(orig.fillna(''))).all(axis=1):
   * values are compared as they are, without string conversion, and a column
   * only one side has never compares equal.
   */
  predicate FilledChanged(curCols: seq<string>, origCols: seq<string>, r: Row, o: Row)
  {
    !SameColumnSet(curCols, origCols) || exists c :: c in curCols && FillEmpty(Get(r, c)) != FillEmpty(Get(o, c))
  }

  /** The positions below n whose rows differ, in increasing order. */
  function ChangedBelow(cur: Frame, orig: Frame, n: nat): (r: seq<nat>)
    requires n <= |cur.rows| && n <= |orig.rows|
    ensures IsView(r, n)
    ensures forall i :: 0 <= i < n ==> (i in r <==> FilledChanged(cur.columns, orig.columns, cur.rows[i], orig.rows[i]))
  {
    if n == 0 then []
    else
      var rest := ChangedBelow(cur, orig, n - 1);
      if FilledChanged(cur.columns, orig.columns, cur.rows[n - 1], orig.rows[n - 1]) then rest + [n - 1] else rest
  }

  /** changed_rows: the working rows the mask selects, in order. */
  function ChangedRows(cur: Frame, orig: Frame): (r: Frame)
    requires |cur.rows| == |orig.rows|
    ensures r.columns == cur.columns
    ensures |r.rows| == |ChangedBelow(cur, orig, |cur.rows|)|
  {
    Frame(cur.columns, Pick(cur.rows, ChangedBelow(cur, orig, |cur.rows|)))
  }

  function SavedMessage(n: nat): string
  {
    "Successfully updated " + NatToString(n) + " rows!"
  }

  /** One entry of the edit pass, as the page performs it on the working copy. */
  method EditMasterRow(f: Frame, view: seq<nat>, entry: (nat, Changes), ts: string, email: string, now: string) returns (g: Frame)
    requires IsView(view, |f.rows|)
    requires Has(entry.1, "ActiveFlag") ==> entry.0 < |view|
    ensures g == RowEdit(f, view, entry, ts, email, now)
  {
    g := f;
    var changes := entry.1;
    if Has(changes, "ActiveFlag") {
      var i := view[entry.0];
      g := SetCell(g, i, "ActiveFlag", Lookup(changes, "ActiveFlag"));
      g := SetCell(g, i, ts, Str(now));
      g := SetCell(g, i, "UserEmail", Str(email));
    }
  }

  /** The page's session state. */
  class MasterSession {
    var selection: Master
    /** df_to_edit is present */
    var loaded: bool
    var loadedType: Option<Master>
    var working: Frame
    var original: Frame

    ghost predicate Valid()
      reads this
    {
      loaded ==> loadedType.Some? && |working.rows| == |original.rows|
    }

    /** First visit: the ComponentExclusion tab, nothing loaded. */
    constructor ()
      ensures Valid() && selection == ComponentExclusion && !loaded && loadedType == None
    {
      selection := ComponentExclusion;
      loaded := false;
      loadedType := None;
      working := Frame([], []);
      original := Frame([], []);
    }

    /** The data is reloaded when no working copy exists or it belongs to another tab. */
    predicate NeedsReload()
      reads this
    {
      !loaded || loadedType != Some(selection)
    }

    function WidgetKey(): string
      reads this
    {
      "editor_" + selection.Name()
    }

    /** load_data: both copies become the table and the loaded tab is recorded; a failure changes nothing. */
    method LoadData(w: Warehouse, m: Master) returns (error: Option<string>)
      requires Valid()
      modifies this, w
      ensures Valid() && selection == old(selection)
      ensures error.None? <==> w.available && !w.Fails(|old(w.log)|)
      ensures error.None? ==>
                loaded && loadedType == Some(m) && working == original
                && working == w.respond(SelectQuery(m.Config().table, None))
                && w.log == old(w.log) + [Statement(SelectQuery(m.Config().table, None), map[])]
      ensures error.Some? ==> w.log == old(w.log)
      ensures error.Some? ==>
                loaded == old(loaded) && loadedType == old(loadedType) && working == old(working) && original == old(original)
                && IsPrefix("Error loading data for " + m.Name() + ": ", error.value)
    {
      var data := GetData(w, m.Config().table, None);
      if data.Failure? {
        return Some("Error loading data for " + m.Name() + ": " + data.error);
      }
      working := data.value;
      original := data.value;
      loaded := true;
      loadedType := Some(m);
      return None;
    }

    /** Page start: reload exactly when the data is missing or mismatched; otherwise leave everything as is. */
    method Start(w: Warehouse) returns (error: Option<string>)
      requires Valid()
      modifies this, w
      ensures Valid() && selection == old(selection)
      ensures !old(NeedsReload()) ==>
                error.None? && w.log == old(w.log) && loaded && loadedType == old(loadedType)
                && working == old(working) && original == old(original)
      ensures old(NeedsReload()) ==> (error.None? <==> w.available && !w.Fails(|old(w.log)|))
      ensures old(NeedsReload()) && error.None? ==>
                !NeedsReload() && loadedType == Some(selection) && working == original
                && working == w.respond(SelectQuery(selection.Config().table, None))
                && w.log == old(w.log) + [Statement(SelectQuery(selection.Config().table, None), map[])]
      ensures old(NeedsReload()) && error.Some? ==>
                w.log == old(w.log) && loaded == old(loaded) && loadedType == old(loadedType)
                && working == old(working) && original == old(original)
                && IsPrefix("Error loading data for " + selection.Name() + ": ", error.value)
    {
      error := None;
      if !loaded || loadedType != Some(selection) {
        error := LoadData(w, selection);
      }
    }

    /** A tab button: only the selection changes; the next start reloads. */
    method Select(m: Master)
      requires Valid()
      modifies this
      ensures Valid() && selection == m
      ensures loaded == old(loaded) && loadedType == old(loadedType) && working == old(working) && original == old(original)
      ensures loadedType != Some(m) ==> NeedsReload()
    {
      selection := m;
    }

    /** The home button drops the working copy and the loaded tab; the snapshot stays. */
    method GoHome()
      requires Valid()
      modifies this
      ensures Valid() && !loaded && loadedType == None && NeedsReload()
      ensures selection == old(selection) && working == old(working) && original == old(original)
    {
      loaded := false;
      loadedType := None;
    }

    /** The edit pass over the batch recorded under the current tab's widget key. */
    method ApplyEdits(key: string, ui: map<string, seq<Value>>, batch: Batch, header: Option<string>, now: string)
      requires Valid() && loaded
      requires key == WidgetKey() ==> FlagEntriesFit(batch, DisplayView(working, selection.Config().filterColumns, ui))
      modifies this
      ensures Valid() && selection == old(selection) && loaded && loadedType == old(loadedType) && original == old(original)
      ensures key != WidgetKey() ==> working == old(working)
      ensures key == WidgetKey() ==>
                working == EditPass(old(working), DisplayView(old(working), selection.Config().filterColumns, ui), batch,
                                    TimestampColumn(old(working)), header.GetOr("local_user"), now)
    {
      if key != WidgetKey() {
        return;
      }
      var view := DisplayView(working, selection.Config().filterColumns, ui);
      var email := header.GetOr("local_user");
      var ts := TimestampColumn(working);
      ghost var start := working;
      for e := 0 to |batch|
        invariant selection == old(selection) && loaded && loadedType == old(loadedType) && original == old(original)
        invariant |working.rows| == |start.rows|
        invariant working == EditPass(start, view, batch[..e], ts, email, now)
      {
        assert batch[..e + 1][..e] == batch[..e];
        working := EditMasterRow(working, view, batch[e], ts, email, now);
      }
      assert batch[..|batch|] == batch;
    }

    /**
     * The save: rows whose values differ from the snapshot are sent with the
     * selected tab's dataset; on success the snapshot becomes the working copy.
     */
    method Save(w: Warehouse, cols: seq<string>) returns (outcome: SaveOutcome)
      requires Valid() && loaded
      requires IsColumnOrder(cols, selection.Config().joinKeys, selection.Config().updateColumns)
      modifies this, w
      ensures Valid() && selection == old(selection) && loaded && loadedType == old(loadedType) && working == old(working)
      ensures Empty(ChangedRows(old(working), old(original))) ==>
                outcome == NothingToSave && w.log == old(w.log) && original == old(original)
      ensures outcome.Saved? ==>
                original == old(working)
                && w.log == old(w.log) + Statements(ChangedRows(old(working), old(original)).rows,
                                                         MergeSql(old(selection).Config(), cols), cols)
                && outcome.message == SavedMessage(|ChangedRows(old(working), old(original)).rows|)
      ensures outcome.SaveFailed? ==>
                original == old(original) && IsPrefix("Failed to save: ", outcome.message)
                && PartialTrace(old(w.log), w.log, Statements(ChangedRows(old(working), old(original)).rows,
                                                              MergeSql(old(selection).Config(), cols), cols))
      ensures !Empty(ChangedRows(old(working), old(original))) ==> !outcome.NothingToSave?
    {
      var current := working;
      var snapshot := original;
      var changed := ChangedRows(current, snapshot);
      if Empty(changed) {
        return NothingToSave;
      }
      var o := WriteData(w, changed, selection.Config(), cols);
      if o.Fail? {
        return SaveFailed("Failed to save: " + o.error);
      }
      ghost var stmts := Statements(changed.rows, MergeSql(selection.Config(), cols), cols);
      assert stmts[..|stmts|] == stmts;
      original := current;
      return Saved(SavedMessage(|changed.rows|));
    }
  }

  // ---------------------------------------------------------------------
  // Properties
  // ---------------------------------------------------------------------

  /** An entry without an ActiveFlag change is ignored; one with it sets the flag, the time and the user. */
  lemma {:induction false} ActiveFlagOnly(f: Frame, view: seq<nat>, entry: (nat, Changes), ts: string, email: string, now: string)
    requires IsView(view, |f.rows|) && (Has(entry.1, "ActiveFlag") ==> entry.0 < |view|)
    requires ts != "ActiveFlag" && ts != "UserEmail"
    ensures !Has(entry.1, "ActiveFlag") ==> RowEdit(f, view, entry, ts, email, now) == f
    ensures Has(entry.1, "ActiveFlag") ==>
              var r := RowEdit(f, view, entry, ts, email, now).rows[view[entry.0]];
              Get(r, "ActiveFlag") == Lookup(entry.1, "ActiveFlag") && Get(r, ts) == Str(now) && Get(r, "UserEmail") == Str(email)
  {
  }

  /** A row no ActiveFlag entry targets leaves the pass as it entered. */
  lemma {:induction false} UntargetedRowKept(f: Frame, view: seq<nat>, batch: Batch, ts: string, email: string, now: string, j: nat)
    requires IsView(view, |f.rows|) && FlagEntriesFit(batch, view) && j < |f.rows|
    requires forall e :: 0 <= e < |batch| && Has(batch[e].1, "ActiveFlag") ==> view[batch[e].0] != j
    ensures EditPass(f, view, batch, ts, email, now).rows[j] == f.rows[j]
    decreases |batch|
  {
    if batch != [] {
      UntargetedRowKept(f, view, batch[..|batch| - 1], ts, email, now, j);
    }
  }

  lemma {:induction false} ChangedBelowNone(cur: Frame, orig: Frame, n: nat)
    requires n <= |cur.rows| && n <= |orig.rows|
    requires forall i :: 0 <= i < n ==> !FilledChanged(cur.columns, orig.columns, cur.rows[i], orig.rows[i])
    ensures ChangedBelow(cur, orig, n) == []
  {
    if n > 0 {
      ChangedBelowNone(cur, orig, n - 1);
    }
  }

  /** Right after a load or a save the snapshot equals the working copy, and the mask selects nothing. */
  lemma {:induction false} NothingChangedAfterSync(f: Frame)
    ensures ChangedRows(f, f).rows == []
  {
    ChangedBelowNone(f, f, |f.rows|);
  }

  /**
   * Unlike the string-form diff of the other pages, this mask sees a change of
   * type alone: a text "1" replacing the number 1 is sent here, while the
   * string-form detector reports no change.
   */
  lemma {:induction false} TypeOnlyChangeIsSent(cols: seq<string>, c: string, r: Row)
    requires c in cols
    ensures FilledChanged(cols, cols, r[c := Str("1")], r[c := Number("1")])
    ensures !StrChanged(cols, cols, r[c := Str("1")], r[c := Number("1")])
  {
    assert FillEmpty(Get(r[c := Str("1")], c)) != FillEmpty(Get(r[c := Number("1")], c));
    forall x | x in cols ensures StrForm(Get(r[c := Str("1")], x)) == StrForm(Get(r[c := Number("1")], x)) {
    }
  }
}

/**
 * The model recommendation page: three recommendation tables behind tabs,
 * an add-record form, an edit pass in which ActualSaving stays locked while
 * the row's Feedback is Unactioned, and a save that upserts the appended rows
 * followed by the rows whose string form differs from the snapshot.
 */
module ModelRecommendation {
  import opened Wrappers
  import opened Text
  import opened Frames
  import opened DatabaseQuery

  /** The three tabs, one per recommendation model. */
  datatype Model = Substitution | BatchReplacement | ProdIncrease
  {
    function Name(): string
    {
      match this
      case Substitution => "Substitution"
      case BatchReplacement => "BatchReplacement"
      case ProdIncrease => "ProdIncrease"
    }

    /** The model's dataset: its own table, and the keys, updates and filters all three share. */
    function Config(): (cfg: DatasetConfig)
      ensures cfg.table == "bytemaster.appdata." + Name()
    {
      DatasetConfig("bytemaster.appdata." + Name(), JoinKeys, UpdateColumns, FilterColumns)
    }
  }

  const JoinKeys := ["ComponentId", "PlantId", "MaterialId"]
  const UpdateColumns := ["QtyAtRisk", "PotentialSaving", "ActualSaving", "Feedback", "CreatedTimestamp", "UserEmail"]
  const FilterColumns := ["ComponentId", "PlantId", "MaterialId", "UserEmail"]
  const Unactioned := Str("Unactioned")

  /** The timestamp column: CreatedTimestamp when the frame has one, else Timestamp. */
  function TimestampColumn(f: Frame): (c: string)
    ensures c != "ActualSaving" && c != "Feedback" && c != "UserEmail"
  {
    if "CreatedTimestamp" in f.columns then "CreatedTimestamp" else "Timestamp"
  }

  /** The loader's pre-processing: a missing, null or empty Feedback reads Unactioned. */
  function Normalised(data: Frame): (r: Frame)
    ensures "Feedback" in r.columns && |r.rows| == |data.rows|
  {
    FillMissing(data, "Feedback", Unactioned)
  }

  // ---------------------------------------------------------------------
  // The edit pass
  // ---------------------------------------------------------------------

  /** current_feedback: the proposed Feedback when the row's changes hold one, else the stored one. */
  function EffectiveFeedback(f: Frame, i: nat, ch: Changes): Value
    requires i < |f.rows|
  {
    if Has(ch, "Feedback") then Lookup(ch, "Feedback") else Get(f.rows[i], "Feedback")
  }

  /** The outcome of one entry: the frame, valid_update_occurred after it, and whether it was refused. */
  datatype Step = Step(frame: Frame, updated: bool, refused: bool)

  /**
   * One entry of edited_rows. The ActualSaving change is refused while the
   * effective Feedback is Unactioned and written otherwise; a Feedback change
   * is always written; when valid_update_occurred is set, by this entry or any
   * earlier one, the row gets the timestamp and the user.
   */
  function RowEdit(f: Frame, i: nat, ch: Changes, ts: string, email: string, now: string, updated: bool): (r: Step)
    requires i < |f.rows|
    ensures |r.frame.rows| == |f.rows|
    ensures forall j :: 0 <= j < |f.rows| && j != i ==> r.frame.rows[j] == f.rows[j]
    ensures r.updated == Updates(f, i, ch, updated) && r.refused == Refuses(f, i, ch)
  {
    var refused := Refuses(f, i, ch);
    var (g, u) :=
      if Has(ch, "ActualSaving") && !refused then (SetCell(f, i, "ActualSaving", Lookup(ch, "ActualSaving")), true)
      else (f, updated);
    var (h, v) := if Has(ch, "Feedback") then (SetCell(g, i, "Feedback", Lookup(ch, "Feedback")), true) else (g, u);
    var k := if v then SetCell(SetCell(h, i, ts, Str(now)), i, "UserEmail", Str(email)) else h;
    Step(k, v, refused)
  }

  /** The ActualSaving change of an entry is refused: the effective Feedback is Unactioned. */
  predicate Refuses(f: Frame, i: nat, ch: Changes)
    requires i < |f.rows|
  {
    Has(ch, "ActualSaving") && EffectiveFeedback(f, i, ch) == Unactioned
  }

  /** valid_update_occurred after an entry: set before, or set by a write of this one. */
  predicate Updates(f: Frame, i: nat, ch: Changes, updated: bool)
    requires i < |f.rows|
  {
    updated || Has(ch, "Feedback") || (Has(ch, "ActualSaving") && !Refuses(f, i, ch))
  }

  /** The pass over a batch: the frame, valid_update_occurred and validation_error at its end. */
  function EditPass(f: Frame, view: seq<nat>, batch: Batch, ts: string, email: string, now: string): (r: Step)
    requires IsView(view, |f.rows|) && BatchFits(batch, view)
    ensures |r.frame.rows| == |f.rows|
    decreases |batch|
  {
    if batch == [] then Step(f, false, false)
    else
      var before := EditPass(f, view, batch[..|batch| - 1], ts, email, now);
      var s := RowEdit(before.frame, view[batch[|batch| - 1].0], batch[|batch| - 1].1, ts, email, now, before.updated);
      Step(s.frame, s.updated, before.refused || s.refused)
  }

  /** One entry of the edit pass, as the page performs it on the working copy. */
  method EditRecommendation(f: Frame, pos: nat, changes: Changes, ts: string, email: string, now: string, updated: bool)
    returns (g: Frame, nowUpdated: bool, refused: bool)
    requires pos < |f.rows|
    ensures Step(g, nowUpdated, refused) == RowEdit(f, pos, changes, ts, email, now, updated)
  {
    g, nowUpdated, refused := f, updated, false;
    var feedback := if Has(changes, "Feedback") then Lookup(changes, "Feedback") else Get(f.rows[pos], "Feedback");
    if Has(changes, "ActualSaving") {
      if feedback == Unactioned {
        refused := true;
      } else {
        g := SetCell(g, pos, "ActualSaving", Lookup(changes, "ActualSaving"));
        nowUpdated := true;
      }
    }
    if Has(changes, "Feedback") {
      g := SetCell(g, pos, "Feedback", Lookup(changes, "Feedback"));
      nowUpdated := true;
    }
    if nowUpdated {
      g := SetCell(g, pos, ts, Str(now));
      g := SetCell(g, pos, "UserEmail", Str(email));
    }
  }

  // ---------------------------------------------------------------------
  // The add form and the save diff
  // ---------------------------------------------------------------------

  /** The columns of the added row, in the order of the row dict. */
  function NewRecordColumns(ts: string): seq<string>
  {
    ["ComponentId", "PlantId", "MaterialId", "QtyAtRisk", "PotentialSaving", "ActualSaving", "Feedback", "UserEmail", ts]
  }

  /** The added row: the three IDs, the two amounts, ActualSaving 0.0, Feedback Unactioned, the user and the time. */
  function NewRecord(component: string, plant: string, material: string, qty: string, potential: string,
                     email: string, ts: string, now: string): Row
  {
    map["ComponentId" := Str(component), "PlantId" := Str(plant), "MaterialId" := Str(material),
        "QtyAtRisk" := Number(qty), "PotentialSaving" := Number(potential), "ActualSaving" := Number("0.0"),
        "Feedback" := Unactioned, "UserEmail" := Str(email), ts := Str(now)]
  }

  function WithNewRecord(f: Frame, component: string, plant: string, material: string, qty: string, potential: string,
                         email: string, now: string): Frame
  {
    AppendRow(f, NewRecordColumns(TimestampColumn(f)),
              NewRecord(component, plant, material, qty, potential, email, TimestampColumn(f), now))
  }

  /** rows_to_save: the appended rows, then the overlap rows whose string form changed. */
  function RowsToSave(working: Frame, original: Frame): Frame
  {
    Frame(working.columns, Pending(working, original))
  }

  function SavedMessage(n: nat): string
  {
    "Successfully updated/inserted " + NatToString(n) + " rows!"
  }

  /** The page's session state. */
  class RecommendationSession {
    var selected: Model
    /** df_to_edit is present */
    var loaded: bool
    var working: Frame
    var original: Frame
    var editorKey: nat

    ghost predicate Valid()
      reads this
    {
      loaded ==> "Feedback" in working.columns
    }

    /** First visit: the Substitution tab, editor generation 0, nothing loaded yet. */
    constructor ()
      ensures Valid() && selected == Substitution && !loaded && editorKey == 0
    {
      selected := Substitution;
      loaded := false;
      working := Frame([], []);
      original := Frame([], []);
      editorKey := 0;
    }

    function WidgetKey(): string
      reads this
    {
      "editor_" + selected.Name() + "_" + NatToString(editorKey)
    }

    /** load_data: both copies become the normalised table; a failure shows a message and changes nothing. */
    method LoadData(w: Warehouse, m: Model) returns (error: Option<string>)
      requires Valid()
      modifies this, w
      ensures Valid() && selected == old(selected) && editorKey == old(editorKey)
      ensures error.None? <==> w.available && !w.Fails(|old(w.log)|)
      ensures error.None? ==> w.log == old(w.log) + [Statement(SelectQuery(m.Config().table, None), map[])]
      ensures error.Some? ==> w.log == old(w.log)
      ensures error.None? ==> loaded && working == original && working == Normalised(w.respond(SelectQuery(m.Config().table, None)))
      ensures error.Some? ==> loaded == old(loaded) && working == old(working) && original == old(original)
      ensures error.Some? ==> IsPrefix("Error loading data for " + m.Name() + ": ", error.value)
    {
      var data := GetData(w, m.Config().table, None);
      if data.Failure? {
        return Some("Error loading data for " + m.Name() + ": " + data.error);
      }
      var f := Normalised(data.value);
      working := f;
      original := f;
      loaded := true;
      return None;
    }

    /** Page start: load the selected table while no working copy exists. */
    method EnsureLoaded(w: Warehouse) returns (error: Option<string>)
      requires Valid()
      modifies this, w
      ensures Valid() && selected == old(selected) && editorKey == old(editorKey)
      ensures old(loaded) ==>
                error.None? && loaded && working == old(working) && original == old(original) && w.log == old(w.log)
      ensures !old(loaded) ==> (error.None? <==> w.available && !w.Fails(|old(w.log)|))
      ensures !old(loaded) && error.None? ==>
                loaded && working == original
                && working == Normalised(w.respond(SelectQuery(selected.Config().table, None)))
                && w.log == old(w.log) + [Statement(SelectQuery(selected.Config().table, None), map[])]
      ensures !old(loaded) && error.Some? ==>
                !loaded && w.log == old(w.log) && working == old(working) && original == old(original)
    {
      error := None;
      if !loaded {
        error := LoadData(w, selected);
      }
    }

    /** A tab button: select the model, reload (a failed load keeps the old copies) and start a new generation. */
    method SwitchTab(w: Warehouse, m: Model) returns (error: Option<string>)
      requires Valid()
      modifies this, w
      ensures Valid() && selected == m && editorKey == old(editorKey) + 1
      ensures error.None? <==> w.available && !w.Fails(|old(w.log)|)
      ensures error.None? ==>
                loaded && working == original
                && working == Normalised(w.respond(SelectQuery(m.Config().table, None)))
                && w.log == old(w.log) + [Statement(SelectQuery(m.Config().table, None), map[])]
      ensures error.Some? ==>
                loaded == old(loaded) && working == old(working) && original == old(original) && w.log == old(w.log)
                && IsPrefix("Error loading data for " + m.Name() + ": ", error.value)
    {
      selected := m;
      error := LoadData(w, m);
      editorKey := editorKey + 1;
    }

    /** The add form: refused unless all three IDs are given; otherwise one row appended and a new generation. */
    method AddRecord(component: string, plant: string, material: string, qty: string, potential: string,
                     header: Option<string>, now: string) returns (error: Option<string>)
      requires Valid() && loaded
      modifies this
      ensures Valid() && selected == old(selected) && loaded && original == old(original)
      ensures component == "" || plant == "" || material == "" ==>
                error == Some("Missing ID fields!") && working == old(working) && editorKey == old(editorKey)
      ensures component != "" && plant != "" && material != "" ==>
                error == None && editorKey == old(editorKey) + 1
                && working == WithNewRecord(old(working), component, plant, material, qty, potential,
                                            header.GetOr("current_user@email.com"), now)
    {
      if component == "" || plant == "" || material == "" {
        return Some("Missing ID fields!");
      }
      var email := header.GetOr("current_user@email.com");
      var ts := TimestampColumn(working);
      working := AppendRow(working, NewRecordColumns(ts), NewRecord(component, plant, material, qty, potential, email, ts, now));
      editorKey := editorKey + 1;
      return None;
    }

    /**
     * The edit pass over the batch recorded under the current widget key.
     * Writes are kept even when some entry is refused; a refusal starts a new
     * editor generation so the grid drops the rejected input.
     */
    method ApplyEdits(key: string, ui: map<string, seq<Value>>, batch: Batch, header: Option<string>, now: string)
      returns (refused: bool)
      requires Valid() && loaded
      requires key == WidgetKey() ==> BatchFits(batch, DisplayView(working, FilterColumns, ui))
      modifies this
      ensures Valid() && selected == old(selected) && loaded && original == old(original)
      ensures key != old(WidgetKey()) ==> working == old(working) && editorKey == old(editorKey) && !refused
      ensures key == old(WidgetKey()) ==>
                var r := EditPass(old(working), DisplayView(old(working), FilterColumns, ui), batch,
                                  TimestampColumn(old(working)), header.GetOr("local_user"), now);
                working == r.frame && refused == r.refused
                && editorKey == old(editorKey) + (if r.refused then 1 else 0)
    {
      refused := false;
      if key != WidgetKey() {
        return;
      }
      var view := DisplayView(working, FilterColumns, ui);
      var email := header.GetOr("local_user");
      var ts := TimestampColumn(working);
      ghost var start := working;
      var updated := false;
      for e := 0 to |batch|
        invariant selected == old(selected) && loaded && original == old(original) && editorKey == old(editorKey)
        invariant |working.rows| == |start.rows|
        invariant Step(working, updated, refused) == EditPass(start, view, batch[..e], ts, email, now)
      {
        assert batch[..e + 1][..e] == batch[..e];
        var rowRefused;
        working, updated, rowRefused := EditRecommendation(working, view[batch[e].0], batch[e].1, ts, email, now, updated);
        refused := refused || rowRefused;
      }
      assert batch[..|batch|] == batch;
      EditPassKeepsFeedback(start, view, batch, ts, email, now);
      if refused {
        editorKey := editorKey + 1;
      }
    }

    /**
     * The save: nothing to send makes no call; otherwise write_data with the
     * selected model's dataset, and on success the snapshot becomes the
     * working copy and a new generation starts.
     */
    method Save(w: Warehouse, cols: seq<string>) returns (outcome: SaveOutcome)
      requires Valid() && loaded
      requires IsColumnOrder(cols, JoinKeys, UpdateColumns)
      modifies this, w
      ensures Valid() && selected == old(selected) && loaded && working == old(working)
      ensures Empty(RowsToSave(old(working), old(original))) ==>
                outcome == NothingToSave && w.log == old(w.log) && original == old(original) && editorKey == old(editorKey)
      ensures outcome.Saved? ==>
                original == old(working) && editorKey == old(editorKey) + 1
                && w.log == old(w.log) + Statements(Pending(old(working), old(original)),
                                                         MergeSql(old(selected).Config(), cols), cols)
                && outcome.message == SavedMessage(|Pending(old(working), old(original))|)
      ensures outcome.SaveFailed? ==>
                original == old(original) && editorKey == old(editorKey) && IsPrefix("Failed to save: ", outcome.message)
                && PartialTrace(old(w.log), w.log, Statements(Pending(old(working), old(original)),
                                                              MergeSql(old(selected).Config(), cols), cols))
      ensures !Empty(RowsToSave(old(working), old(original))) ==> !outcome.NothingToSave?
    {
      var current := working;
      var rows := RowsToSave(current, original);
      if Empty(rows) {
        return NothingToSave;
      }
      var o := WriteData(w, rows, selected.Config(), cols);
      if o.Fail? {
        return SaveFailed("Failed to save: " + o.error);
      }
      ghost var stmts := Statements(rows.rows, MergeSql(selected.Config(), cols), cols);
      assert stmts[..|stmts|] == stmts;
      original := current;
      editorKey := editorKey + 1;
      return Saved(SavedMessage(|rows.rows|));
    }
  }

  /** The timestamp column the pass stamps is one of the two the page uses. */
  predicate IsStampColumn(ts: string)
  {
    ts == "CreatedTimestamp" || ts == "Timestamp"
  }

  /**
   * ActualSaving is locked while Feedback is Unactioned: a change to it is
   * refused exactly when the effective Feedback is Unactioned, leaving the
   * stored value, and written otherwise.
   */
  lemma {:induction false} ActualSavingLock(f: Frame, i: nat, ch: Changes, ts: string, email: string, now: string, updated: bool)
    requires i < |f.rows| && Has(ch, "ActualSaving") && IsStampColumn(ts)
    ensures RowEdit(f, i, ch, ts, email, now, updated).refused <==> EffectiveFeedback(f, i, ch) == Unactioned
    ensures !RowEdit(f, i, ch, ts, email, now, updated).refused ==>
              Get(RowEdit(f, i, ch, ts, email, now, updated).frame.rows[i], "ActualSaving") == Lookup(ch, "ActualSaving")
    ensures RowEdit(f, i, ch, ts, email, now, updated).refused ==>
              Get(RowEdit(f, i, ch, ts, email, now, updated).frame.rows[i], "ActualSaving") == Get(f.rows[i], "ActualSaving")
  {
  }

  /** A Feedback change is written even in a row whose ActualSaving change was refused. */
  lemma {:induction false} FeedbackAlwaysWritten(f: Frame, i: nat, ch: Changes, ts: string, email: string, now: string, updated: bool)
    requires i < |f.rows| && Has(ch, "Feedback") && IsStampColumn(ts)
    ensures Get(RowEdit(f, i, ch, ts, email, now, updated).frame.rows[i], "Feedback") == Lookup(ch, "Feedback")
  {
  }

  /**
   * The audit stamp: valid_update_occurred after an entry is the earlier flag
   * or a write by this entry; with it the row carries the time and the user,
   * without it the entry changed nothing.
   */
  lemma {:induction false} StampRule(f: Frame, i: nat, ch: Changes, ts: string, email: string, now: string, updated: bool)
    requires i < |f.rows| && IsStampColumn(ts)
    ensures var r := RowEdit(f, i, ch, ts, email, now, updated);
            (r.updated <==> updated || Has(ch, "Feedback") || (Has(ch, "ActualSaving") && !r.refused))
            && (r.updated ==> Get(r.frame.rows[i], ts) == Str(now) && Get(r.frame.rows[i], "UserEmail") == Str(email))
            && (!r.updated ==> r.frame == f)
  {
  }

  /** The flag at the end of a batch is the flag before its last entry, updated by that entry. */
  lemma {:induction false} PassFlagStep(f: Frame, view: seq<nat>, batch: Batch, ts: string, email: string, now: string)
    requires IsView(view, |f.rows|) && BatchFits(batch, view) && batch != []
    ensures var before := EditPass(f, view, batch[..|batch| - 1], ts, email, now);
            EditPass(f, view, batch, ts, email, now).updated
            == Updates(before.frame, view[batch[|batch| - 1].0], batch[|batch| - 1].1, before.updated)
  {
  }

  /** valid_update_occurred is never reset: once set by a prefix of the batch, it stays set after every later entry. */
  lemma {:induction false} FlagNeverReset(f: Frame, view: seq<nat>, batch: Batch, ts: string, email: string, now: string, e: nat)
    requires IsView(view, |f.rows|) && BatchFits(batch, view) && e < |batch|
    requires EditPass(f, view, batch[..e], ts, email, now).updated
    ensures EditPass(f, view, batch[..e + 1], ts, email, now).updated
  {
    assert batch[..e + 1][..e] == batch[..e];
    PassFlagStep(f, view, batch[..e + 1], ts, email, now);
  }

  /** Once the flag is set, every later entry's row is stamped, whatever its own changes. */
  lemma {:induction false} StampedAfterFirstWrite(f: Frame, view: seq<nat>, batch: Batch, ts: string, email: string, now: string)
    requires IsView(view, |f.rows|) && BatchFits(batch, view) && batch != [] && IsStampColumn(ts)
    requires EditPass(f, view, batch[..|batch| - 1], ts, email, now).updated
    ensures Get(EditPass(f, view, batch, ts, email, now).frame.rows[view[batch[|batch| - 1].0]], ts) == Str(now)
  {
    var before := EditPass(f, view, batch[..|batch| - 1], ts, email, now);
    StampRule(before.frame, view[batch[|batch| - 1].0], batch[|batch| - 1].1, ts, email, now, before.updated);
  }

  /** A row no entry targets leaves the pass as it entered. */
  lemma {:induction false} UntargetedRowKept(f: Frame, view: seq<nat>, batch: Batch, ts: string, email: string, now: string, j: nat)
    requires IsView(view, |f.rows|) && BatchFits(batch, view) && j < |f.rows|
    requires forall e :: 0 <= e < |batch| ==> view[batch[e].0] != j
    ensures EditPass(f, view, batch, ts, email, now).frame.rows[j] == f.rows[j]
    decreases |batch|
  {
    if batch != [] {
      UntargetedRowKept(f, view, batch[..|batch| - 1], ts, email, now, j);
    }
  }

  /**
   * A refusal does not roll back: a Feedback written by an earlier entry is
   * kept, the refused row is still stamped because the flag is already set,
   * and the pass reports the refusal.
   */
  lemma {:induction false} RefusalKeepsEarlierWrites(f: Frame, view: seq<nat>, p: nat, q: nat, v: Value, x: Value,
                                  ts: string, email: string, now: string)
    requires IsView(view, |f.rows|) && p < |view| && q < |view| && p != q && IsStampColumn(ts)
    requires Get(f.rows[view[q]], "Feedback") == Unactioned
    ensures EditPass(f, view, [(p, [("Feedback", v)]), (q, [("ActualSaving", x)])], ts, email, now).refused
    ensures Get(EditPass(f, view, [(p, [("Feedback", v)]), (q, [("ActualSaving", x)])], ts, email, now).frame.rows[view[p]], "Feedback") == v
    ensures Get(EditPass(f, view, [(p, [("Feedback", v)]), (q, [("ActualSaving", x)])], ts, email, now).frame.rows[view[q]], ts) == Str(now)
  {
    var a: Changes := [("Feedback", v)];
    var b: Changes := [("ActualSaving", x)];
    var batch: Batch := [(p, a), (q, b)];
    var none: Batch := [];
    assert batch[..1] == [(p, a)] && batch[..1][..0] == none;
    HasSingle("Feedback", v, "ActualSaving");
    HasSingle("ActualSaving", x, "Feedback");
    var first := RowEdit(f, view[p], a, ts, email, now, false);
    assert EditPass(f, view, batch[..1], ts, email, now) == first;
    FeedbackAlwaysWritten(f, view[p], a, ts, email, now, false);
    StampRule(f, view[p], a, ts, email, now, false);
    assert first.frame.rows[view[q]] == f.rows[view[q]];
    ActualSavingLock(first.frame, view[q], b, ts, email, now, true);
    StampRule(first.frame, view[q], b, ts, email, now, true);
    var second := RowEdit(first.frame, view[q], b, ts, email, now, true);
    assert second.frame.rows[view[p]] == first.frame.rows[view[p]];
  }

  /** A batch after a refusal still reports it. */
  lemma {:induction false} RefusalReported(f: Frame, view: seq<nat>, batch: Batch, ts: string, email: string, now: string, e: nat)
    requires IsView(view, |f.rows|) && BatchFits(batch, view) && e <= |batch|
    requires EditPass(f, view, batch[..e], ts, email, now).refused
    ensures EditPass(f, view, batch, ts, email, now).refused
    decreases |batch|
  {
    if e < |batch| {
      assert batch[..|batch| - 1][..e] == batch[..e];
      RefusalReported(f, view, batch[..|batch| - 1], ts, email, now, e);
    } else {
      assert batch[..e] == batch;
    }
  }

  /** An accepted add keeps every row and appends exactly one. */
  lemma {:induction false} AddedRecordAppends(f: Frame, component: string, plant: string, material: string, qty: string, potential: string,
                           email: string, now: string)
    ensures |WithNewRecord(f, component, plant, material, qty, potential, email, now).rows| == |f.rows| + 1
    ensures WithNewRecord(f, component, plant, material, qty, potential, email, now).rows[..|f.rows|] == f.rows
  {
    assert WithNewRecord(f, component, plant, material, qty, potential, email, now).rows[..|f.rows|] == f.rows;
  }

  /** The appended row holds the IDs, ActualSaving 0.0 and Feedback Unactioned. */
  lemma {:induction false} AddedRecordRow(component: string, plant: string, material: string, qty: string, potential: string,
                       email: string, ts: string, now: string)
    requires IsStampColumn(ts)
    ensures var r := NewRecord(component, plant, material, qty, potential, email, ts, now);
            Get(r, "ComponentId") == Str(component) && Get(r, "PlantId") == Str(plant)
            && Get(r, "MaterialId") == Str(material) && Get(r, "ActualSaving") == Number("0.0")
            && Get(r, "Feedback") == Unactioned && Get(r, ts) == Str(now)
  {
  }

  /** Edits never remove a column, so the Feedback column survives the pass. */
  lemma {:induction false} EditPassKeepsFeedback(f: Frame, view: seq<nat>, batch: Batch, ts: string, email: string, now: string)
    requires IsView(view, |f.rows|) && BatchFits(batch, view)
    requires "Feedback" in f.columns
    ensures "Feedback" in EditPass(f, view, batch, ts, email, now).frame.columns
    decreases |batch|
  {
    if batch != [] {
      EditPassKeepsFeedback(f, view, batch[..|batch| - 1], ts, email, now);
    }
  }
}

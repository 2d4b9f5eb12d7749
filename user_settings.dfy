/**
 * The user settings page: one editable grid over the UserSettings table with
 * a Delete checkbox column, an add-user form, per-row validated edits of the
 * approved address list, and a save that deletes the marked rows before
 * upserting what changed.
 */
module UserSettings {
  import opened Wrappers
  import opened Text
  import opened Frames
  import opened DatabaseQuery
  import opened EmailList

  const Config := DatasetConfig("bytemaster.appdata.UserSettings", ["PlantId"],
                                ["ApprovedMailID", "UserEmail", "UpdatedTimestamp"], ["PlantId", "ApprovedMailID"])

  /** The loaded table with the Delete column added (all False) when the table has none. */
  function WithDeleteColumn(data: Frame): (r: Frame)
    ensures "Delete" in r.columns
    ensures |r.rows| == |data.rows|
    ensures "Delete" in data.columns ==> r == data
    ensures "Delete" !in data.columns ==> forall i :: 0 <= i < |r.rows| ==> r.rows[i] == data.rows[i]["Delete" := Flag(false)]
  {
    if "Delete" in data.columns then data else SetColumn(data, "Delete", Flag(false))
  }

  /** A numeral whose value is zero: an optional sign, then only zeros and points, with a zero among them. */
  predicate ZeroNumeral(t: string)
  {
    var digits := if |t| > 0 && (t[0] == '-' || t[0] == '+') then t[1..] else t;
    '0' in digits && forall k :: 0 <= k < |digits| ==> digits[k] == '0' || digits[k] == '.'
  }

  /** A value Python's `not` treats as empty: None, "", False and a zero number. */
  predicate Falsy(v: Value)
  {
    match v
    case Null => true
    case Str(s) => s == ""
    case Number(t) => ZeroNumeral(t)
    case Flag(b) => !b
  }

  /**
   * The editor value of an ApprovedMailID cell as validate_email_input sees it:
   * a falsy value takes the empty-field branch, any other value is read as str(value).
   */
  function EmailInput(v: Value): (r: Option<string>)
    ensures r.None? <==> Falsy(v) && !v.Str?
    ensures r.Some? ==> r.value == Show(v)
  {
    if v.Str? then Some(v.s)
    else if Falsy(v) then None
    else Some(Show(v))
  }

  /** None, False and a zero number are refused with the empty-field message, as "" is. */
  lemma {:induction false} FalsyInputRejected(v: Value)
    requires Falsy(v)
    ensures Validate(EmailInput(v)) == (false, EmptyInput)
  {
    if v.Str? {
      BlankInputRejected(v.s);
    }
  }

  /** An ApprovedMailID text is stored in canonical form; every other value as given. */
  function CleanChange(c: (string, Value)): (r: (string, Value))
    ensures r.0 == c.0
    ensures c.0 != "ApprovedMailID" || !c.1.Str? ==> r == c
  {
    if c.0 == "ApprovedMailID" && c.1.Str? then (c.0, Str(Canonical(c.1.s))) else c
  }

  function CleanChanges(ch: Changes): (r: Changes)
    ensures |r| == |ch| && forall j :: 0 <= j < |ch| ==> r[j] == CleanChange(ch[j])
  {
    seq(|ch|, j requires 0 <= j < |ch| => CleanChange(ch[j]))
  }

  /** The timestamp is refreshed unless ticking Delete is the row's only change. */
  predicate Restamps(ch: Changes)
  {
    !Has(ch, "Delete") || |ch| > 1
  }

  /** The address list a row's changes propose fails validation. */
  predicate RejectsAddresses(ch: Changes)
  {
    Has(ch, "ApprovedMailID") && !Validate(EmailInput(Lookup(ch, "ApprovedMailID"))).0
  }

  /** One entry of edited_rows: refused with a message, or written with the timestamp rule. */
  function RowEdit(f: Frame, i: nat, ch: Changes, now: string): (r: (Frame, seq<string>))
    requires i < |f.rows|
    ensures |r.0.rows| == |f.rows|
    ensures forall j :: 0 <= j < |f.rows| && j != i ==> r.0.rows[j] == f.rows[j]
  {
    if RejectsAddresses(ch) then
      (f, ["Row edit failed: " + Validate(EmailInput(Lookup(ch, "ApprovedMailID"))).1])
    else
      var g := WriteAll(f, i, CleanChanges(ch));
      (if Restamps(ch) then SetCell(g, i, "UpdatedTimestamp", Str(now)) else g, [])
  }

  /** The edit pass over a batch, entry by entry, and the messages it shows. */
  function EditPass(f: Frame, view: seq<nat>, batch: Batch, now: string): (r: (Frame, seq<string>))
    requires IsView(view, |f.rows|) && BatchFits(batch, view)
    ensures |r.0.rows| == |f.rows|
    decreases |batch|
  {
    if batch == [] then (f, [])
    else
      var (g, errors) := EditPass(f, view, batch[..|batch| - 1], now);
      var (h, more) := RowEdit(g, view[batch[|batch| - 1].0], batch[|batch| - 1].1, now);
      (h, errors + more)
  }

  /** The number of entries of a batch whose address list is refused. */
  function Refused(batch: Batch): nat
  {
    if batch == [] then 0
    else Refused(batch[..|batch| - 1]) + (if RejectsAddresses(batch[|batch| - 1].1) then 1 else 0)
  }

  /** Edits never remove a column, so the Delete column survives the pass. */
  lemma {:induction false} EditPassKeepsDelete(f: Frame, view: seq<nat>, batch: Batch, now: string)
    requires IsView(view, |f.rows|) && BatchFits(batch, view)
    requires "Delete" in f.columns
    ensures "Delete" in EditPass(f, view, batch, now).0.columns
    decreases |batch|
  {
    if batch != [] {
      EditPassKeepsDelete(f, view, batch[..|batch| - 1], now);
    }
  }

  /** The reasons an add is refused, in the order the form checks them. */
  function AddRefusal(f: Frame, plant: string, emails: string): Option<string>
  {
    if plant == "" || emails == "" then Some("Both PlantId and Email are required.")
    else if !Validate(Some(emails)).0 then Some(Validate(Some(emails)).1)
    else if plant in PlantIds(f) then Some("PlantId '" + plant + "' already exists!")
    else None
  }

  /** user_df_to_edit["PlantId"].astype(str).tolist() */
  function PlantIds(f: Frame): (r: seq<string>)
    ensures |r| == |f.rows| && forall i :: 0 <= i < |f.rows| ==> r[i] == Show(Get(f.rows[i], "PlantId"))
  {
    seq(|f.rows|, i requires 0 <= i < |f.rows| => Show(Get(f.rows[i], "PlantId")))
  }

  function AddTimestampColumn(f: Frame): string
  {
    if "UpdatedTimestamp" in f.columns then "UpdatedTimestamp" else "Timestamp"
  }

  function NewUserColumns(ts: string): seq<string>
  {
    ["PlantId", "ApprovedMailID", "UserEmail", ts, "Delete"]
  }

  /** The row the add form appends. */
  function NewUser(plant: string, emails: string, email: string, ts: string, now: string): Row
  {
    map["PlantId" := Str(plant), "ApprovedMailID" := Str(Canonical(emails)), "UserEmail" := Str(email),
        ts := Str(now), "Delete" := Flag(false)]
  }

  /** The working copy after an accepted add: the new row concatenated at the end. */
  function WithNewUser(f: Frame, plant: string, emails: string, email: string, now: string): Frame
  {
    AppendRow(f, NewUserColumns(AddTimestampColumn(f)), NewUser(plant, emails, email, AddTimestampColumn(f), now))
  }

  function Last(f: Frame): Row
  {
    if f.rows == [] then map[] else f.rows[|f.rows| - 1]
  }

  /** rows_to_delete */
  function Marked(f: Frame): (r: Frame)
    ensures r.columns == f.columns
  {
    Frame(f.columns, RowsWhere(f.rows, "Delete", Flag(true)))
  }

  /** rows_to_keep: the rows whose Delete is False, without the Delete column. */
  function Kept(f: Frame): (r: Frame)
    ensures "Delete" !in r.columns
  {
    DropColumn(Frame(f.columns, RowsWhere(f.rows, "Delete", Flag(false))), "Delete")
  }

  /** The rows sent to writeData: the kept rows diffed against the snapshot without Delete. */
  function Upserts(working: Frame, original: Frame): Frame
  {
    Frame(Kept(working).columns, Pending(Kept(working), DropColumn(original, "Delete")))
  }

  /** The DELETE statements a save runs for the rows marked Delete (none when no row is marked). */
  function DeletionStatements(working: Frame): seq<Statement>
  {
    if Empty(Marked(working)) then [] else Statements(Marked(working).rows, DeleteSql(Config), Config.joinKeys)
  }

  /** The MERGE statements a save runs for the kept rows that differ from the snapshot. */
  function UpsertStatements(working: Frame, original: Frame, cols: seq<string>): seq<Statement>
  {
    if Empty(Upserts(working, original)) then []
    else Statements(Upserts(working, original).rows, MergeSql(Config, cols), cols)
  }

  function DeletedCount(working: Frame): nat
  {
    if Empty(Marked(working)) then 0 else |Marked(working).rows|
  }

  function WrittenCount(working: Frame, original: Frame): nat
  {
    if Empty(Upserts(working, original)) then 0 else |Upserts(working, original).rows|
  }

  /** The success message: the parts for deletions and for writes that happened, joined with " | ". */
  function SaveMessage(deleted: nat, written: nat): string
  {
    Join((if deleted > 0 then ["Deleted " + NatToString(deleted) + " rows."] else [])
         + (if written > 0 then ["Updated/Added " + NatToString(written) + " rows."] else []), " | ")
  }

  // ---------------------------------------------------------------------
  // Properties of the add form
  // ---------------------------------------------------------------------

  /** An add goes through exactly when both fields are filled, the list is valid and the PlantId is new. */
  lemma {:induction false} AddAcceptedIff(f: Frame, plant: string, emails: string)
    ensures AddRefusal(f, plant, emails) == None <==>
              plant != "" && emails != "" && Validate(Some(emails)).0
              && forall i :: 0 <= i < |f.rows| ==> Show(Get(f.rows[i], "PlantId")) != plant
  {
    if plant in PlantIds(f) {
      var i :| 0 <= i < |PlantIds(f)| && PlantIds(f)[i] == plant;
      assert Show(Get(f.rows[i], "PlantId")) == plant;
    }
  }

  /** A PlantId already shown in some row is refused with the duplicate message once the list is valid. */
  lemma {:induction false} DuplicatePlantRefused(f: Frame, plant: string, emails: string, i: nat)
    requires plant != "" && emails != "" && Validate(Some(emails)).0
    requires i < |f.rows| && Show(Get(f.rows[i], "PlantId")) == plant
    ensures AddRefusal(f, plant, emails) == Some("PlantId '" + plant + "' already exists!")
  {
    assert PlantIds(f)[i] == plant;
  }

  /** An accepted add keeps every existing row and appends exactly one. */
  lemma {:induction false} AddedUserAppends(f: Frame, plant: string, emails: string, email: string, now: string)
    ensures |WithNewUser(f, plant, emails, email, now).rows| == |f.rows| + 1
    ensures WithNewUser(f, plant, emails, email, now).rows[..|f.rows|] == f.rows
  {
    assert WithNewUser(f, plant, emails, email, now).rows[..|f.rows|] == f.rows;
  }

  /** The appended row holds the PlantId, the canonical address list and Delete False. */
  lemma {:induction false} AddedUserRow(f: Frame, plant: string, emails: string, email: string, now: string)
    ensures Get(Last(WithNewUser(f, plant, emails, email, now)), "Delete") == Flag(false)
    ensures Get(Last(WithNewUser(f, plant, emails, email, now)), "PlantId") == Str(plant)
    ensures Get(Last(WithNewUser(f, plant, emails, email, now)), "ApprovedMailID") == Str(Canonical(emails))
  {
  }

  /** After an accepted add the new PlantId appears in no earlier row. */
  lemma {:induction false} AddedPlantIsNew(f: Frame, plant: string, emails: string, email: string, now: string)
    requires AddRefusal(f, plant, emails) == None
    ensures forall i :: 0 <= i < |f.rows| ==> Show(Get(WithNewUser(f, plant, emails, email, now).rows[i], "PlantId")) != plant
  {
    AddAcceptedIff(f, plant, emails);
  }

  /** The list an accepted add stores is valid and already canonical. */
  lemma {:induction false} AddedAddressesValid(f: Frame, plant: string, emails: string)
    requires AddRefusal(f, plant, emails) == None
    ensures Validate(Some(Canonical(emails))) == (true, "")
    ensures Canonical(Canonical(emails)) == Canonical(emails)
  {
    CanonicalIdempotent(emails);
    CanonicalKeepsValid(emails);
  }

  // ---------------------------------------------------------------------
  // Properties of the edit pass
  // ---------------------------------------------------------------------

  /** A row whose address list is invalid gets none of its changes, and one message. */
  lemma {:induction false} RejectedRowUntouched(f: Frame, i: nat, ch: Changes, now: string)
    requires i < |f.rows| && RejectsAddresses(ch)
    ensures RowEdit(f, i, ch, now).0 == f && |RowEdit(f, i, ch, now).1| == 1
    ensures IsPrefix("Row edit failed: ", RowEdit(f, i, ch, now).1[0])
  {
  }

  /**
   * An accepted row holds each of its changes (address lists canonical and
   * valid) and, unless Delete was its only change, the new timestamp.
   */
  lemma {:induction false} AcceptedRowWritten(f: Frame, i: nat, ch: Changes, now: string)
    requires i < |f.rows| && !RejectsAddresses(ch) && DistinctKeys(ch)
    ensures var r := RowEdit(f, i, ch, now);
            r.1 == []
            && (forall e :: 0 <= e < |ch| && (ch[e].0 != "UpdatedTimestamp" || !Restamps(ch)) ==>
                  Get(r.0.rows[i], ch[e].0) == CleanChange(ch[e]).1)
            && (Restamps(ch) ==> Get(r.0.rows[i], "UpdatedTimestamp") == Str(now))
            && (!Restamps(ch) ==> forall x :: x != "Delete" ==> Get(r.0.rows[i], x) == Get(f.rows[i], x))
  {
    var clean := CleanChanges(ch);
    assert KeysOf(clean) == KeysOf(ch);
    assert DistinctKeys(clean);
    var g := WriteAll(f, i, clean);
    forall e | 0 <= e < |ch| ensures Get(g.rows[i], ch[e].0) == CleanChange(ch[e]).1 {
      assert clean[e] == CleanChange(ch[e]);
    }
    if !Restamps(ch) {
      assert |ch| == 1 && ch[0].0 == "Delete";
      forall x | x != "Delete" ensures Get(g.rows[i], x) == Get(f.rows[i], x) {
        assert x !in KeysOf(clean);
      }
    }
  }

  /** The value an accepted edit stores for a valid address list is itself valid. */
  lemma {:induction false} StoredAddressesValid(v: Value)
    requires v.Str? && Validate(EmailInput(v)).0
    ensures Validate(EmailInput(CleanChange(("ApprovedMailID", v)).1)) == (true, "")
  {
    CanonicalKeepsValid(v.s);
  }

  /** A row no entry of the batch targets leaves the pass as it entered. */
  lemma {:induction false} UntargetedRowKept(f: Frame, view: seq<nat>, batch: Batch, now: string, j: nat)
    requires IsView(view, |f.rows|) && BatchFits(batch, view) && j < |f.rows|
    requires forall e :: 0 <= e < |batch| ==> view[batch[e].0] != j
    ensures EditPass(f, view, batch, now).0.rows[j] == f.rows[j]
    decreases |batch|
  {
    if batch != [] {
      UntargetedRowKept(f, view, batch[..|batch| - 1], now, j);
    }
  }

  /** Each refused row adds exactly one message; accepted rows add none. */
  lemma {:induction false} EditPassMessages(f: Frame, view: seq<nat>, batch: Batch, now: string)
    requires IsView(view, |f.rows|) && BatchFits(batch, view)
    ensures |EditPass(f, view, batch, now).1| == Refused(batch)
    decreases |batch|
  {
    if batch != [] {
      EditPassMessages(f, view, batch[..|batch| - 1], now);
    }
  }

  // ---------------------------------------------------------------------
  // Properties of the save
  // ---------------------------------------------------------------------

  /** A row sent to write_data is a row of the working copy whose Delete is False, minus Delete. */
  lemma {:induction false} UpsertsAreKeptRows(working: Frame, original: Frame)
    ensures forall x :: x in Upserts(working, original).rows ==>
              exists y :: y in working.rows && Get(y, "Delete") == Flag(false) && x == y - {"Delete"}
  {
    var keep := Frame(working.columns, RowsWhere(working.rows, "Delete", Flag(false)));
    PendingFromCurrent(Kept(working), DropColumn(original, "Delete"));
    forall x | x in Upserts(working, original).rows
      ensures exists y :: y in working.rows && Get(y, "Delete") == Flag(false) && x == y - {"Delete"}
    {
      var k :| 0 <= k < |Kept(working).rows| && Kept(working).rows[k] == x;
      var y := keep.rows[k];
      assert y in keep.rows;
      assert x == y - {"Delete"};
    }
  }

  /** Upserts carry no Delete label and are disjoint from the rows marked for deletion. */
  lemma {:induction false} MarkedNeverUpserted(working: Frame, original: Frame)
    ensures forall x :: x in Upserts(working, original).rows ==> "Delete" !in x
    ensures forall x :: x in Marked(working).rows ==> Get(x, "Delete") == Flag(true)
  {
    UpsertsAreKeptRows(working, original);
  }

  /** After a successful save the page is settled: nothing is marked and nothing differs from the snapshot. */
  lemma {:induction false} SaveIsSettled(f: Frame)
    ensures DeletedCount(SetColumn(Kept(f), "Delete", Flag(false))) == 0
    ensures WrittenCount(SetColumn(Kept(f), "Delete", Flag(false)), Kept(f)) == 0
  {
    var k := Kept(f);
    var w := SetColumn(k, "Delete", Flag(false));
    RowsWhereNone(w.rows, "Delete", Flag(true));
    RowsWhereAll(w.rows, "Delete", Flag(false));
    var cur := Kept(w);
    var orig := DropColumn(k, "Delete");
    assert |cur.rows| == |orig.rows|;
    assert SameColumnSet(cur.columns, orig.columns);
    forall i | 0 <= i < |cur.rows| ensures !StrChanged(cur.columns, orig.columns, cur.rows[i], orig.rows[i]) {
      forall x | x in cur.columns ensures Get(cur.rows[i], x) == Get(orig.rows[i], x) {
        assert Get(w.rows[i], x) == Get(k.rows[i], x);
      }
    }
    ModifiedBelowNone(cur, orig, |cur.rows|);
    assert Pending(cur, orig) == [];
  }

  /**
   * Deleting shifts the diff: with nothing edited, deleting the first of two
   * rows that differ sends the second row as modified, because the kept rows
   * are compared position by position with the snapshot that still holds the
   * deleted row.
   */
  lemma {:induction false} DeleteShiftsDiff(cols: seq<string>, a: Row, b: Row, c: string)
    requires Get(a, "Delete") == Flag(true) && Get(b, "Delete") == Flag(false)
    requires c in cols && c != "Delete" && StrForm(Get(a, c)) != StrForm(Get(b, c))
    ensures Upserts(Frame(cols, [a, b]), Frame(cols, [a, b])).rows == [b - {"Delete"}]
  {
    var f := Frame(cols, [a, b]);
    assert [a, b][..1] == [a];
    assert RowsWhere([a], "Delete", Flag(false)) == [];
    assert RowsWhere(f.rows, "Delete", Flag(false)) == [b];
    var cur := Kept(f);
    var orig := DropColumn(f, "Delete");
    assert cur.rows == [b - {"Delete"}];
    assert orig.rows[0] == a - {"Delete"};
    assert c in cur.columns && StrForm(Get(cur.rows[0], c)) != StrForm(Get(orig.rows[0], c));
    assert ModifiedBelow(cur, orig, 0) == [];
    assert ModifiedPositions(cur, orig) == [0];
  }

  /** Writes one row's changes in dict order, storing address lists in canonical form. */
  method WriteChanges(f: Frame, pos: nat, changes: Changes) returns (g: Frame)
    requires pos < |f.rows|
    ensures g == WriteAll(f, pos, CleanChanges(changes))
  {
    g := f;
    ghost var clean := CleanChanges(changes);
    for j := 0 to |changes|
      invariant |g.rows| == |f.rows|
      invariant g == WriteAll(f, pos, clean[..j])
    {
      var key := changes[j].0;
      var value := changes[j].1;
      if key == "ApprovedMailID" && value.Str? {
        value := Str(Canonical(value.s));
      }
      assert clean[j] == (key, value);
      WriteAllStep(f, pos, clean, j);
      g := SetCell(g, pos, key, value);
    }
    assert clean[..|changes|] == clean;
  }

  /** delete_data on the rows marked Delete, when there are any. */
  method RunDeletes(w: Warehouse, working: Frame) returns (o: Outcome, n: nat)
    modifies w
    ensures o.Pass? ==> w.log == old(w.log) + DeletionStatements(working)
    ensures o.Fail? ==> PartialTrace(old(w.log), w.log, DeletionStatements(working))
    ensures n == DeletedCount(working)
    ensures n == 0 ==> o.Pass? && w.log == old(w.log)
  {
    o := Pass;
    n := DeletedCount(working);
    var toDelete := Marked(working);
    if !Empty(toDelete) {
      o := DeleteData(w, toDelete, Config);
      if o.Pass? {
        ghost var stmts := Statements(toDelete.rows, DeleteSql(Config), Config.joinKeys);
        assert stmts[..|stmts|] == stmts;
      }
    }
  }

  /** write_data on the kept rows that differ from the snapshot, when there are any. */
  method RunUpserts(w: Warehouse, working: Frame, original: Frame, cols: seq<string>) returns (o: Outcome, n: nat)
    requires IsColumnOrder(cols, Config.joinKeys, Config.updateColumns)
    modifies w
    ensures o.Pass? ==> w.log == old(w.log) + UpsertStatements(working, original, cols)
    ensures o.Fail? ==> PartialTrace(old(w.log), w.log, UpsertStatements(working, original, cols))
    ensures n == WrittenCount(working, original)
    ensures n == 0 ==> o.Pass? && w.log == old(w.log)
  {
    o := Pass;
    n := WrittenCount(working, original);
    var upserts := Upserts(working, original);
    if !Empty(upserts) {
      o := WriteData(w, upserts, Config, cols);
      if o.Pass? {
        ghost var stmts := Statements(upserts.rows, MergeSql(Config, cols), cols);
        assert stmts[..|stmts|] == stmts;
      }
    }
  }

  /**
   * What a save does to the warehouse and what it reports: the deletions run first, then the
   * upserts; with no record to delete and none to write nothing runs and nothing is reported
   * saved; a failure reports the error behind "Save failed: ".
   */
  ghost predicate SaveEffect(outcome: SaveOutcome, current: Frame, snapshot: Frame, cols: seq<string>,
                             logBefore: seq<Statement>, logAfter: seq<Statement>)
  {
    && (outcome == NothingToSave <==> DeletedCount(current) == 0 && WrittenCount(current, snapshot) == 0)
    && (outcome == NothingToSave ==> logAfter == logBefore)
    && (outcome.Saved? ==>
          logAfter == logBefore + DeletionStatements(current) + UpsertStatements(current, snapshot, cols)
          && outcome.message == SaveMessage(DeletedCount(current), WrittenCount(current, snapshot)))
    && (outcome.SaveFailed? ==>
          IsPrefix("Save failed: ", outcome.message)
          && PartialTrace(logBefore, logAfter, DeletionStatements(current) + UpsertStatements(current, snapshot, cols)))
  }

  /** The warehouse side of a save: the deletes, then the upserts, then the message. */
  method SaveRows(w: Warehouse, current: Frame, snapshot: Frame, cols: seq<string>) returns (outcome: SaveOutcome)
    requires IsColumnOrder(cols, Config.joinKeys, Config.updateColumns)
    modifies w
    ensures SaveEffect(outcome, current, snapshot, cols, old(w.log), w.log)
  {
    ghost var dels := DeletionStatements(current);
    ghost var ups := UpsertStatements(current, snapshot, cols);
    var o, deleted := RunDeletes(w, current);
    if o.Fail? {
      PartialTraceExtends(old(w.log), w.log, dels, ups);
      return SaveFailed("Save failed: " + o.error);
    }
    ghost var afterDeletes := w.log;
    var written;
    o, written := RunUpserts(w, current, snapshot, cols);
    if o.Fail? {
      PartialTraceAfter(old(w.log), afterDeletes, w.log, dels, ups);
      return SaveFailed("Save failed: " + o.error);
    }
    if deleted == 0 && written == 0 {
      return NothingToSave;
    }
    return Saved(SaveMessage(deleted, written));
  }

  /** The page's session state. */
  class UserSettingsPage {
    /** user_df_to_edit is present */
    var loaded: bool
    var working: Frame
    var original: Frame
    /** user_editor_key */
    var editorKey: nat

    ghost predicate Valid()
      reads this
    {
      loaded ==> "Delete" in working.columns
    }

    constructor ()
      ensures Valid() && !loaded && editorKey == 0
    {
      loaded := false;
      working := Frame([], []);
      original := Frame([], []);
      editorKey := 0;
    }

    /** The data editor's key for the current generation. */
    function WidgetKey(): string
      reads this
    {
      "user_editor_" + NatToString(editorKey)
    }

    /** load_user_data: both copies become the table with its Delete column; a failure changes nothing. */
    method LoadUserData(w: Warehouse) returns (error: Option<string>)
      requires Valid()
      modifies this, w
      ensures Valid()
      ensures editorKey == old(editorKey)
      ensures error.None? <==> w.available && !w.Fails(|old(w.log)|)
      ensures error.None? ==> w.log == old(w.log) + [Statement(SelectQuery(Config.table, None), map[])]
      ensures error.Some? ==> w.log == old(w.log)
      ensures error.None? ==> loaded && working == original && working == WithDeleteColumn(w.respond(SelectQuery(Config.table, None)))
      ensures error.Some? ==> loaded == old(loaded) && working == old(working) && original == old(original)
      ensures error.Some? ==> IsPrefix("Error loading UserSettings: ", error.value)
    {
      var data := GetData(w, Config.table, None);
      if data.Failure? {
        return Some("Error loading UserSettings: " + data.error);
      }
      var f := WithDeleteColumn(data.value);
      working := f;
      original := f;
      loaded := true;
      return None;
    }

    /** Page start: the table is loaded only while no working copy exists. */
    method EnsureLoaded(w: Warehouse) returns (error: Option<string>)
      requires Valid()
      modifies this, w
      ensures Valid() && editorKey == old(editorKey)
      ensures old(loaded) ==>
                error.None? && loaded && working == old(working) && original == old(original) && w.log == old(w.log)
      ensures !old(loaded) ==> (error.None? <==> w.available && !w.Fails(|old(w.log)|))
      ensures !old(loaded) && error.None? ==>
                loaded && working == original && working == WithDeleteColumn(w.respond(SelectQuery(Config.table, None)))
                && w.log == old(w.log) + [Statement(SelectQuery(Config.table, None), map[])]
      ensures !old(loaded) && error.Some? ==>
                !loaded && w.log == old(w.log) && working == old(working) && original == old(original)
                && IsPrefix("Error loading UserSettings: ", error.value)
    {
      error := None;
      if !loaded {
        error := LoadUserData(w);
      }
    }

    /**
     * The add-user form: refused with the first failing check's message,
     * otherwise one row appended at the end with the canonical list and
     * Delete False, and a new editor generation.
     */
    method AddUser(plant: string, emails: string, header: Option<string>, now: string) returns (error: Option<string>)
      requires Valid() && loaded && "PlantId" in working.columns
      modifies this
      ensures original == old(original) && loaded == old(loaded)
      ensures error == AddRefusal(old(working), plant, emails)
      ensures error.Some? ==> working == old(working) && editorKey == old(editorKey)
      ensures error.None? ==>
                working == WithNewUser(old(working), plant, emails, header.GetOr("user@example.com"), now)
                && editorKey == old(editorKey) + 1
      ensures Valid()
    {
      if plant == "" || emails == "" {
        return Some("Both PlantId and Email are required.");
      }
      var ok, message := ValidateEmailInput(Some(emails));
      if !ok {
        return Some(message);
      }
      if plant in PlantIds(working) {
        return Some("PlantId '" + plant + "' already exists!");
      }
      var ts := AddTimestampColumn(working);
      var row := NewUser(plant, emails, header.GetOr("user@example.com"), ts, now);
      working := AppendRow(working, NewUserColumns(ts), row);
      editorKey := editorKey + 1;
      return None;
    }

    /** One entry of the edit pass: validate the address list, then write and stamp. */
    method EditRow(pos: nat, changes: Changes, now: string) returns (errors: seq<string>)
      requires pos < |working.rows|
      modifies this
      ensures (working, errors) == RowEdit(old(working), pos, changes, now)
      ensures loaded == old(loaded) && original == old(original) && editorKey == old(editorKey)
    {
      if Has(changes, "ApprovedMailID") {
        var ok, message := ValidateEmailInput(EmailInput(Lookup(changes, "ApprovedMailID")));
        if !ok {
          return ["Row edit failed: " + message];
        }
      }
      working := WriteChanges(working, pos, changes);
      if !Has(changes, "Delete") || |changes| > 1 {
        working := SetCell(working, pos, "UpdatedTimestamp", Str(now));
      }
      return [];
    }

    /**
     * The edit pass: only the batch recorded under the current editor key is
     * read. A row whose address list fails validation is skipped with a
     * message; every other row gets its changes and, unless Delete is its only
     * change, a fresh UpdatedTimestamp.
     */
    method ApplyEdits(key: string, ui: map<string, seq<Value>>, batch: Batch, now: string) returns (errors: seq<string>)
      requires Valid() && loaded
      requires key == WidgetKey() ==> BatchFits(batch, DisplayView(working, Config.filterColumns, ui))
      modifies this
      ensures original == old(original) && editorKey == old(editorKey) && loaded == old(loaded)
      ensures key != WidgetKey() ==> working == old(working) && errors == []
      ensures key == WidgetKey() ==>
                (working, errors) == EditPass(old(working), DisplayView(old(working), Config.filterColumns, ui), batch, now)
      ensures Valid()
    {
      errors := [];
      if key != WidgetKey() {
        return;
      }
      var view := DisplayView(working, Config.filterColumns, ui);
      ghost var start := working;
      for e := 0 to |batch|
        invariant original == old(original) && editorKey == old(editorKey) && loaded == old(loaded)
        invariant |working.rows| == |start.rows|
        invariant (working, errors) == EditPass(start, view, batch[..e], now)
      {
        assert batch[..e + 1][..e] == batch[..e];
        var more := EditRow(view[batch[e].0], batch[e].1, now);
        errors := errors + more;
      }
      assert batch[..|batch|] == batch;
      EditPassKeepsDelete(start, view, batch, now);
    }

    /**
     * The save: the rows marked Delete are deleted first, then the kept rows
     * are diffed against the snapshot and upserted. When either happened the
     * snapshot becomes the kept rows and the working copy the kept rows with
     * Delete reset; with nothing to do no statement runs.
     */
    method Save(w: Warehouse, cols: seq<string>) returns (outcome: SaveOutcome)
      requires Valid() && loaded
      requires IsColumnOrder(cols, Config.joinKeys, Config.updateColumns)
      modifies this, w
      ensures loaded == old(loaded) && Valid()
      ensures SaveEffect(outcome, old(working), old(original), cols, old(w.log), w.log)
      ensures outcome.Saved? ==>
                original == Kept(old(working))
                && working == SetColumn(Kept(old(working)), "Delete", Flag(false))
                && editorKey == old(editorKey) + 1
      ensures !outcome.Saved? ==> working == old(working) && original == old(original) && editorKey == old(editorKey)
    {
      var current := working;
      var snapshot := original;
      var toKeep := Kept(current);
      var reset := SetColumn(toKeep, "Delete", Flag(false));
      assert "Delete" in reset.columns;
      outcome := SaveRows(w, current, snapshot, cols);
      if outcome.Saved? {
        original := toKeep;
        working := reset;
        editorKey := editorKey + 1;
      }
    }
  }
}

/** SELECT and INSERT of src/query/executor.c one shared access at a time.

  A step reads or writes the shared table as it is at that moment, whatever it was at the
  statement's earlier steps.
 */
module Statements {
  import opened Common
  import opened Csv
  import opened TableModel

  /** A table that has been loaded: its schema names an int primary key. */
  predicate Loaded(t: Table) {
    ValidSchema(t.schema) && t.nextId >= 0
  }

  type LoadedTable = t: Table | Loaded(t)
    witness Table(Schema([Column("id", IntType)], 0, true), [], map[], 1, "")

  // ---------------------------------------------------------------- statements in small steps

  /** How far a statement has come; the name says what it does next. */
  datatype Work =
    | SelectStart
    | ScanAll(pos: nat, acc: seq<Row>)
    | ScanColumn(column: nat, pos: nat, acc: seq<Row>)
    | FetchRow(place: int)
    | Selected(result: Option<seq<Row>>)
    | InsertStart
    | LookUp(row: Row, id: int)
    | AppendFile(row: Row, id: int)
    | AppendMemory(row: Row, id: int)
    | AddToIndex(row: Row, id: int, at: int)
    | RaiseNextId(row: Row, id: int)
    | Inserted(ok: bool)
    | Failed

  predicate Finished(w: Work) {
    w.Selected? || w.Inserted? || w.Failed?
  }

  /** One step of execute_select on the table as it is now. */
  function SelectStep(t: Table, condition: Option<Condition>, w: Work): Work {
    match w
    case SelectStart =>
      if condition.None? then ScanAll(0, [])
      else if condition.value.column == "id" then
        if !IsInteger(condition.value.value) then Selected(None)
        else if Atoi(condition.value.value) in t.index then FetchRow(t.index[Atoi(condition.value.value)])
        else Selected(Some([]))
      else
        var c := FindColumn(t.schema.columns, condition.value.column);
        if c < 0 then Selected(None) else ScanColumn(c, 0, [])
    case ScanAll(pos, acc) =>
      if pos < |t.rows| then ScanAll(pos + 1, acc + [t.rows[pos]]) else Selected(Some(acc))
    case ScanColumn(c, pos, acc) =>
      if pos >= |t.rows| then Selected(Some(acc))
      else if condition.Some? && c < |t.rows[pos]| && t.rows[pos][c] == condition.value.value then
        ScanColumn(c, pos + 1, acc + [t.rows[pos]])
      else ScanColumn(c, pos + 1, acc)
    case FetchRow(i) => Selected(if 0 <= i < |t.rows| then Some([t.rows[i]]) else None)
    case _ => w
  }

  /** One step of execute_insert on the table as it is now: the new table and progress. */
  ghost function InsertStep(t: LoadedTable, values: Row, w: Work): (LoadedTable, Work) {
    match w
    case InsertStart =>
      var row := RowFor(t, values);
      (t, if row.Some? && ValidRow(t.schema, row.value) then LookUp(row.value, Id(t.schema, row.value))
          else Inserted(false))
    case LookUp(row, id) => (t, if id in t.index then Inserted(false) else AppendFile(row, id))
    case AppendFile(row, id) => (t.(file := t.file + EncodeRow(row) + "\n"), AppendMemory(row, id))
    case AppendMemory(row, id) => (t.(rows := t.rows + [row]), AddToIndex(row, id, |t.rows|))
    case AddToIndex(row, id, at) => (t.(index := t.index[id := at]), RaiseNextId(row, id))
    case RaiseNextId(row, id) => (if id >= t.nextId then t.(nextId := id + 1) else t, Inserted(true))
    case _ => (t, w)
  }

  // ---------------------------------------------------------------- each statement alone

  /** A SELECT that has seen only table t so far is on its way to Select(t). */
  ghost predicate SelectOnCourse(t: Table, condition: Option<Condition>, w: Work)
    requires Consistent(t)
  {
    match w
    case SelectStart => true
    case ScanAll(pos, acc) => condition.None? && pos <= |t.rows| && acc == t.rows[..pos]
    case ScanColumn(c, pos, acc) =>
      && condition.Some? && condition.value.column != "id"
      && c == FindColumn(t.schema.columns, condition.value.column)
      && pos <= |t.rows| && acc == Matching(t.schema, t.rows[..pos], c, condition.value.value)
    case FetchRow(i) =>
      && condition.Some? && condition.value.column == "id" && IsInteger(condition.value.value)
      && Atoi(condition.value.value) in t.index && i == t.index[Atoi(condition.value.value)]
    case Selected(result) => result == Select(t, condition)
    case _ => false
  }

  lemma ScanAllOnCourse(t: Table, pos: nat, acc: seq<Row>)
    requires Consistent(t) && SelectOnCourse(t, None, ScanAll(pos, acc))
    ensures SelectOnCourse(t, None, SelectStep(t, None, ScanAll(pos, acc)))
  {
    hide Consistent;
    if pos == |t.rows| {
      assert t.rows[..pos] == t.rows;
    }
  }

  lemma ScanColumnOnCourse(t: Table, condition: Option<Condition>, c: nat, pos: nat, acc: seq<Row>)
    requires Consistent(t) && SelectOnCourse(t, condition, ScanColumn(c, pos, acc))
    ensures SelectOnCourse(t, condition, SelectStep(t, condition, ScanColumn(c, pos, acc)))
  {
    hide ValidRow, Matching, FindColumn, IndexOf, DistinctIds, MaxId;
    if pos < |t.rows| {
      MatchingStep(t.schema, t.rows, pos, c, condition.value.value);
    } else {
      assert t.rows[..pos] == t.rows;
    }
  }

  lemma FetchOnCourse(t: Table, condition: Option<Condition>, i: int)
    requires Consistent(t) && SelectOnCourse(t, condition, FetchRow(i))
    ensures SelectOnCourse(t, condition, SelectStep(t, condition, FetchRow(i)))
  {
    hide ValidRow, IsInteger, Atoi, Id, IndexOf, DistinctIds, MaxId, Matching, FindColumn;
    IndexOfKeys(t.schema, t.rows, Atoi(condition.value.value));
  }

  lemma StartOnCourse(t: Table, condition: Option<Condition>)
    requires Consistent(t)
    ensures SelectOnCourse(t, condition, SelectStep(t, condition, SelectStart))
  {
    hide Consistent, IsInteger, Atoi, FindColumn;
    assert t.rows[..0] == [];
  }

  lemma SelectStepOnCourse(t: Table, condition: Option<Condition>, w: Work)
    requires Consistent(t) && SelectOnCourse(t, condition, w)
    ensures SelectOnCourse(t, condition, SelectStep(t, condition, w))
  {
    match w
    case SelectStart => StartOnCourse(t, condition);
    case ScanAll(pos, acc) => ScanAllOnCourse(t, pos, acc);
    case ScanColumn(c, pos, acc) => ScanColumnOnCourse(t, condition, c, pos, acc);
    case FetchRow(i) => FetchOnCourse(t, condition, i);
    case _ =>
  }

  /** An INSERT that started on table `before` and has brought it to `now`. */
  ghost predicate InsertOnCourse(before: LoadedTable, now: LoadedTable, values: Row, w: Work) {
    var row := Accepted(before, values);
    match w
    case InsertStart => now == before
    case LookUp(r, id) =>
      && RowFor(before, values) == Some(r) && ValidRow(before.schema, r) && id == Id(before.schema, r)
      && now == before
    case AppendFile(r, id) => row == Some(r) && id == Id(before.schema, r) && now == before
    case AppendMemory(r, id) =>
      row == Some(r) && id == Id(before.schema, r) && now == before.(file := before.file + EncodeRow(r) + "\n")
    case AddToIndex(r, id, at) =>
      && row == Some(r) && id == Id(before.schema, r) && at == |before.rows|
      && now == before.(file := before.file + EncodeRow(r) + "\n", rows := before.rows + [r])
    case RaiseNextId(r, id) =>
      row == Some(r) && id == Id(before.schema, r) && now == Added(before, r).(nextId := before.nextId)
    case Inserted(ok) => ok == row.Some? && now == Insert(before, values)
    case _ => false
  }

  lemma InsertStepOnCourse(before: LoadedTable, now: LoadedTable, values: Row, w: Work)
    requires InsertOnCourse(before, now, values, w)
    ensures var (t, w') := InsertStep(now, values, w);
            InsertOnCourse(before, t, values, w')
  {
    hide EncodeRow, ValidRow, RowFor, Id;
  }
}

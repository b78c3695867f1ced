/** What SELECT, INSERT and loading mean for a table, said of its rows and their positions alone.

  `Select`, `Accepted`, `Insert` and `Load` of TableModel follow the code; the predicates here say what
  include/executor.h and the shipped tables promise, without the index and without the code's order of
  work.
 */
module TableMeaning {
  import opened Common
  import opened Text
  import opened Csv
  import opened CsvSpellings
  import opened TableModel

  // ---------------------------------------------------------------- SELECT

  /** j is the first column of that name. */
  predicate IsColumn(s: Schema, j: int, name: string) {
    0 <= j < |s.columns| && s.columns[j].name == name && forall i :: 0 <= i < j ==> s.columns[i].name != name
  }

  /** WHERE id compares numbers; any other column must exist. */
  predicate Answerable(s: Schema, condition: Option<Condition>) {
    match condition
    case None => true
    case Some(Condition(column, value)) =>
      if column == "id" then IsInteger(value) else exists j :: 0 <= j < |s.columns| && s.columns[j].name == column
  }

  /** The row is one that the SELECT asks for. */
  predicate Meets(s: Schema, row: Row, condition: Option<Condition>)
    requires ValidSchema(s) && ValidRow(s, row) && Answerable(s, condition)
  {
    match condition
    case None => true
    case Some(Condition(column, value)) =>
      if column == "id" then Id(s, row) == Atoi(value)
      else exists j :: 0 <= j < |row| && IsColumn(s, j, column) && row[j] == value
  }

  /** The rows are those at increasing positions, and these are exactly the positions of the rows asked for. */
  predicate PickedAt(t: Table, condition: Option<Condition>, rows: seq<Row>, at: seq<int>)
    requires ValidSchema(t.schema) && ValidRows(t.schema, t.rows) && Answerable(t.schema, condition)
  {
    && |at| == |rows|
    && (forall k :: 0 <= k < |at| ==> 0 <= at[k] < |t.rows| && rows[k] == t.rows[at[k]])
    && (forall k, l :: 0 <= k < l < |at| ==> at[k] < at[l])
    && forall i :: 0 <= i < |t.rows| ==> (i in at <==> Meets(t.schema, t.rows[i], condition))
  }

  /** What a SELECT has to answer. */
  ghost predicate IsSelection(t: Table, condition: Option<Condition>, r: Option<seq<Row>>)
    requires ValidSchema(t.schema) && ValidRows(t.schema, t.rows)
  {
    && (r.Some? <==> Answerable(t.schema, condition))
    && (r.Some? ==> exists at :: PickedAt(t, condition, r.value, at))
    && (condition.None? ==> r == Some(t.rows))
  }

  /** The rows asked for, by looking at every row. */
  ghost function Scanned(s: Schema, rows: seq<Row>, condition: Option<Condition>): seq<Row>
    requires ValidSchema(s) && ValidRows(s, rows) && Answerable(s, condition)
  {
    if rows == [] then []
    else
      var n := |rows| - 1;
      Scanned(s, rows[..n], condition) + (if Meets(s, rows[n], condition) then [rows[n]] else [])
  }

  /** One more row at the end. */
  lemma PickedMore(t: Table, u: Table, condition: Option<Condition>, rows: seq<Row>, at: seq<int>)
    requires ValidSchema(t.schema) && ValidRows(t.schema, t.rows) && Answerable(t.schema, condition)
    requires t.rows != [] && u == t.(rows := t.rows[..|t.rows| - 1]) && PickedAt(u, condition, rows, at)
    ensures var n := |t.rows| - 1;
            if Meets(t.schema, t.rows[n], condition) then PickedAt(t, condition, rows + [t.rows[n]], at + [n])
            else PickedAt(t, condition, rows, at)
  {
    hide ValidRow, Meets, Answerable;
    var n := |t.rows| - 1;
    assert n !in at;
    var more := if Meets(t.schema, t.rows[n], condition) then at + [n] else at;
    forall i | 0 <= i < |t.rows|
      ensures i in more <==> Meets(t.schema, t.rows[i], condition)
    {
      if i < n {
        assert u.rows[i] == t.rows[i];
        assert i in more <==> i in at;
      }
    }
  }

  lemma {:induction false} ScannedAt(t: Table, condition: Option<Condition>) returns (at: seq<int>)
    requires ValidSchema(t.schema) && ValidRows(t.schema, t.rows) && Answerable(t.schema, condition)
    ensures PickedAt(t, condition, Scanned(t.schema, t.rows, condition), at)
    decreases |t.rows|
  {
    if t.rows == [] {
      at := [];
    } else {
      hide ValidRow, Meets, Answerable, PickedAt;
      var n := |t.rows| - 1;
      var u := t.(rows := t.rows[..n]);
      at := ScannedAt(u, condition);
      var rows := Scanned(u.schema, u.rows, condition);
      PickedMore(t, u, condition, rows, at);
      if Meets(t.schema, t.rows[n], condition) {
        at := at + [n];
      } else {
        assert rows + [] == rows;
      }
    }
  }

  lemma {:induction false} ScannedById(s: Schema, rows: seq<Row>, value: string)
    requires ValidSchema(s) && ValidRows(s, rows) && DistinctIds(s, rows) && IsInteger(value)
    ensures var c := Some(Condition("id", value));
            var index, id := IndexOf(s, rows), Atoi(value);
            && (id in index ==> 0 <= index[id] < |rows| && Scanned(s, rows, c) == [rows[index[id]]])
            && (id !in index ==> Scanned(s, rows, c) == [])
    decreases |rows|
  {
    hide ValidRow, Id, IsInteger, Atoi;
    if rows != [] {
      var n := |rows| - 1;
      ScannedById(s, rows[..n], value);
      IndexOfKeys(s, rows[..n], Id(s, rows[n]));
    }
  }

  lemma ColumnIsFound(s: Schema, name: string)
    ensures FindColumn(s.columns, name) < 0 <==> forall j :: 0 <= j < |s.columns| ==> s.columns[j].name != name
    ensures forall j :: IsColumn(s, j, name) <==> 0 <= j == FindColumn(s.columns, name)
  {
    hide FindColumn;
  }

  lemma {:induction false} ScannedByColumn(s: Schema, rows: seq<Row>, c: Condition)
    requires ValidSchema(s) && ValidRows(s, rows) && c.column != "id" && FindColumn(s.columns, c.column) >= 0
    ensures Answerable(s, Some(c))
    ensures Scanned(s, rows, Some(c)) == Matching(s, rows, FindColumn(s.columns, c.column), c.value)
    decreases |rows|
  {
    hide FindColumn, ValidField;
    ColumnIsFound(s, c.column);
    var j := FindColumn(s.columns, c.column);
    if rows != [] {
      var n := |rows| - 1;
      ScannedByColumn(s, rows[..n], c);
      assert ValidRow(s, rows[n]);
      assert IsColumn(s, j, c.column);
    }
  }

  lemma {:induction false} ScannedWhole(s: Schema, rows: seq<Row>)
    requires ValidSchema(s) && ValidRows(s, rows)
    ensures Scanned(s, rows, None) == rows
    decreases |rows|
  {
    if rows != [] {
      var n := |rows| - 1;
      ScannedWhole(s, rows[..n]);
      assert rows[..n] + [rows[n]] == rows;
    }
  }

  /** For every condition a SELECT fails exactly if it cannot be answered, and otherwise gives what a scan
      of all rows gives: for WHERE id, the index is as good as the scan. */
  lemma IndexedIsScan(t: Table, condition: Option<Condition>)
    requires Consistent(t)
    ensures Select(t, condition).Some? <==> Answerable(t.schema, condition)
    ensures Answerable(t.schema, condition) ==>
              Select(t, condition) == Some(Scanned(t.schema, t.rows, condition))
  {
    hide IndexOf, MaxId, DistinctIds, ValidRows, Scanned, Matching, IsInteger, Atoi, FindColumn;
    if condition.None? {
      ScannedWhole(t.schema, t.rows);
    } else if condition.value.column == "id" {
      if IsInteger(condition.value.value) {
        ScannedById(t.schema, t.rows, condition.value.value);
        assert condition == Some(Condition("id", condition.value.value));
      }
    } else {
      ColumnIsFound(t.schema, condition.value.column);
      if FindColumn(t.schema.columns, condition.value.column) >= 0 {
        ScannedByColumn(t.schema, t.rows, condition.value);
      }
    }
  }

  /** The answer of every SELECT in terms of rows and positions. */
  lemma SelectMeaning(t: Table, condition: Option<Condition>)
    requires Consistent(t)
    ensures IsSelection(t, condition, Select(t, condition))
  {
    IndexedIsScan(t, condition);
    hide Answerable, Meets, Scanned, PickedAt;
    if Select(t, condition).Some? {
      var at := ScannedAt(t, condition);
    }
  }

  // ---------------------------------------------------------------- INSERT

  /** All columns, or all but the generated id. */
  predicate RightCount(s: Schema, n: nat) {
    n == |s.columns| || (s.autoincrement && s.pk == 0 && n == |s.columns| - 1)
  }

  /** Every value suits its column; the columns left out are the first ones. */
  predicate ValuesFit(s: Schema, values: Row)
    requires |values| <= |s.columns|
  {
    forall i :: 0 <= i < |values| ==> ValidField(s.columns[i + |s.columns| - |values|], values[i])
  }

  lemma GivenKeyIsInteger(s: Schema, values: Row)
    requires ValidSchema(s) && |values| == |s.columns| && ValuesFit(s, values)
    ensures IsInteger(values[s.pk])
  {
    assert ValidField(s.columns[s.pk + |s.columns| - |values|], values[s.pk]);
  }

  /** What an INSERT has to meet: the right number of values, each of the right form, and an id, if it
      is given, that no row has. */
  predicate Acceptable(t: Table, values: Row)
    requires ValidSchema(t.schema) && ValidRows(t.schema, t.rows)
  {
    && RightCount(t.schema, |values|) && ValuesFit(t.schema, values)
    && (|values| == |t.schema.columns| ==>
          (GivenKeyIsInteger(t.schema, values);
           forall i :: 0 <= i < |t.rows| ==> Id(t.schema, t.rows[i]) != Atoi(values[t.schema.pk])))
  }

  /** A number as printf writes it: no sign and no leading zero. */
  predicate Printed(s: string, n: nat) {
    && s != "" && AllDigits(s) && (s[0] == '0' ==> |s| == 1)
    && IsInteger(s) && Atoi(s) == n
  }

  /** The row holds the values, after the next id if the id was left out. */
  predicate Fills(t: Table, values: Row, row: Row)
    requires t.nextId >= 0
  {
    if |values| == |t.schema.columns| then row == values
    else |row| == |values| + 1 && row[1..] == values && Printed(row[0], t.nextId)
  }

  /** An INSERT that adds this row: at the end of the rows and of the file. */
  predicate Adds(t: Table, u: Table, values: Row)
    requires t.nextId >= 0
  {
    && |u.rows| == |t.rows| + 1 && u.rows[..|t.rows|] == t.rows
    && Fills(t, values, u.rows[|t.rows|])
    && u.file == t.file + EncodeRow(u.rows[|t.rows|]) + "\n"
    && u.schema == t.schema
  }

  lemma {:induction false} DecimalLead(n: nat)
    ensures Decimal(n)[0] == '0' ==> n == 0
  {
    if n >= 10 {
      DecimalLead(n / 10);
      assert Decimal(n)[0] == Decimal(n / 10)[0];
    }
  }

  lemma DecimalPrinted(n: nat)
    ensures Printed(Decimal(n), n)
  {
    hide IsInteger, Atoi;
    DecimalRoundTrip(n);
    DecimalLead(n);
  }

  lemma NoRowHas(t: Table, id: int)
    requires Consistent(t)
    ensures id in t.index <==> exists i :: 0 <= i < |t.rows| && Id(t.schema, t.rows[i]) == id
  {
    IndexOfKeys(t.schema, t.rows, id);
  }

  /** A row given in full. */
  lemma FullRowAccepted(t: Table, values: Row)
    requires Consistent(t) && |values| == |t.schema.columns|
    ensures Accepted(t, values) == if Acceptable(t, values) then Some(values) else None
  {
    hide IndexOf, MaxId, DistinctIds, ValidRows, ValidField;
    assert ValidRow(t.schema, values) <==> ValuesFit(t.schema, values);
    if ValidRow(t.schema, values) {
      NoRowHas(t, Id(t.schema, values));
    }
  }

  lemma BehindId(s: Schema, id: string, values: Row, i: nat)
    requires |values| == |s.columns| - 1 && i < |values|
    ensures ValidField(s.columns[i + 1], ([id] + values)[i + 1]) <==>
            ValidField(s.columns[i + |s.columns| - |values|], values[i])
  {
    hide ValidField;
    assert i + |s.columns| - |values| == i + 1 && ([id] + values)[i + 1] == values[i];
  }

  lemma FittingRow(s: Schema, id: string, values: Row)
    requires ValidSchema(s) && s.pk == 0 && |values| == |s.columns| - 1 && IsInteger(id)
    ensures ValuesFit(s, values) ==> ValidRow(s, [id] + values)
  {
    hide IsInteger, IsFloat;
    var row := [id] + values;
    assert row[0] == id && ValidField(s.columns[0], row[0]);
    if ValuesFit(s, values) {
      forall i | 0 <= i < |row|
        ensures ValidField(s.columns[i], row[i])
      {
        if i > 0 {
          BehindId(s, id, values, i - 1);
        }
      }
    }
  }

  lemma RowFits(s: Schema, id: string, values: Row)
    requires |values| == |s.columns| - 1
    ensures ValidRow(s, [id] + values) ==> ValuesFit(s, values)
  {
    hide ValidField;
    if ValidRow(s, [id] + values) {
      forall i | 0 <= i < |values|
        ensures ValidField(s.columns[i + |s.columns| - |values|], values[i])
      {
        BehindId(s, id, values, i);
      }
    }
  }

  lemma GeneratedRowValid(t: Table, values: Row)
    requires ValidSchema(t.schema) && t.nextId >= 0 && t.schema.pk == 0 && |values| == |t.schema.columns| - 1
    ensures ValidRow(t.schema, [Decimal(t.nextId)] + values) <==> ValuesFit(t.schema, values)
    ensures ValuesFit(t.schema, values) ==> Id(t.schema, [Decimal(t.nextId)] + values) == t.nextId
  {
    hide IsInteger, Atoi, Decimal, ValidRow, ValuesFit;
    DecimalRoundTrip(t.nextId);
    FittingRow(t.schema, Decimal(t.nextId), values);
    RowFits(t.schema, Decimal(t.nextId), values);
  }

  /** A generated id is never refused as a duplicate: only the given values can be at fault. */
  lemma GeneratedIdIsFresh(t: Table, values: Row)
    requires Consistent(t) && t.schema.autoincrement && t.schema.pk == 0 && |values| == |t.schema.columns| - 1
    ensures Accepted(t, values).Some? <==> ValuesFit(t.schema, values)
    ensures Accepted(t, values).Some? ==> Fills(t, values, Accepted(t, values).value)
    ensures forall i :: 0 <= i < |t.rows| ==> Id(t.schema, t.rows[i]) != t.nextId
  {
    hide IndexOf, DistinctIds, ValuesFit, ValidRow, Id, Printed;
    GeneratedRowValid(t, values);
    DecimalPrinted(t.nextId);
    NoRowHas(t, t.nextId);
    assert ([Decimal(t.nextId)] + values)[1..] == values;
  }

  /** An INSERT succeeds exactly if it is acceptable, and then adds the row of its values; otherwise it
      changes nothing. */
  lemma InsertMeaning(t: Table, values: Row)
    requires Consistent(t)
    ensures Accepted(t, values).Some? <==> Acceptable(t, values)
    ensures Acceptable(t, values) ==> Adds(t, Insert(t, values), values)
    ensures !Acceptable(t, values) ==> Insert(t, values) == t
  {
    hide IndexOf, MaxId, DistinctIds, ValidRows, ValuesFit, ValidRow, Id, Printed, EncodeRow;
    if |values| == |t.schema.columns| {
      FullRowAccepted(t, values);
    } else if RightCount(t.schema, |values|) {
      GeneratedIdIsFresh(t, values);
    }
  }

  // ---------------------------------------------------------------- loading

  /** The next id of a table follows the largest one: it is 1, or one more than the id of some row. */
  lemma {:induction false} MaxIdIsTaken(s: Schema, rows: seq<Row>)
    requires ValidSchema(s) && ValidRows(s, rows)
    ensures MaxId(s, rows) == 0 || exists i :: 0 <= i < |rows| && Id(s, rows[i]) == MaxId(s, rows)
    decreases |rows|
  {
    hide ValidRow, Id;
    if rows != [] {
      var n := |rows| - 1;
      MaxIdIsTaken(s, rows[..n]);
      assert forall i :: 0 <= i < n ==> rows[i] == rows[..n][i];
    }
  }

  /** A file of lines with quoted and bare fields loads exactly if its rows are valid and have distinct
      ids, and then the table has these rows. */
  lemma FileLoads(s: Schema, lines: seq<Line>, ended: bool)
    requires ValidSchema(s) && forall i :: 0 <= i < |lines| ==> LineOk(lines[i], |s.columns|)
    ensures var t := Load(s, ShowFile(lines, ended));
            && (t.Some? <==> ValidRows(s, RowsOf(lines)) && DistinctIds(s, RowsOf(lines)))
            && (t.Some? ==> t.value.rows == RowsOf(lines) && t.value.file == ShowFile(lines, ended) && Consistent(t.value))
  {
    hide ReadRows, LineOk, IndexOf, MaxId, DistinctIds, ValidRows;
    FileRead(lines, ended, |s.columns|);
  }
}

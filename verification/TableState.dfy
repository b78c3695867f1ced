/** The mutable table of include/db_context.h with the loops of src/query/executor.c and
    src/index/db_context.c, proved against TableModel. */
module TableState {
  import opened Common
  import opened Text
  import opened Csv
  import opened TableModel
  import opened TableMeaning
  import BPlusTreeModel
  import BPlusTreeMap

  // ---------------------------------------------------------------- validation

  /** is_integer_string. */
  method IsIntegerString(text: string) returns (ok: bool)
    requires IsCString(text)
    ensures ok <==> IsInteger(text)
  {
    var index := 0;
    if CharAt(text, 0) == '-' || CharAt(text, 0) == '+' {
      index := 1;
    }
    if CharAt(text, index) == '\0' {
      return false;
    }
    ghost var k := SignLength(text);
    while CharAt(text, index) != '\0'
      invariant k <= index <= |text|
      invariant forall i :: k <= i < index ==> IsDigit(text[i])
      decreases |text| - index
    {
      if !IsDigit(text[index]) {
        assert text[k..][index - k] == text[index];
        return false;
      }
      index := index + 1;
    }
    return true;
  }

  lemma CountDotsStep(s: string, i: nat)
    requires i < |s|
    ensures CountDots(s[..i + 1]) == CountDots(s[..i]) + if s[i] == '.' then 1 else 0
  {
    assert s[..i + 1][..i] == s[..i];
  }

  lemma {:induction false} CountDotsPrefix(s: string, i: nat)
    requires i <= |s|
    ensures CountDots(s[..i]) <= CountDots(s)
    decreases |s| - i
  {
    if i == |s| {
      assert s[..i] == s;
    } else {
      CountDotsStep(s, i);
      CountDotsPrefix(s, i + 1);
    }
  }

  lemma HasDigitStep(s: string, i: nat)
    requires i < |s|
    ensures HasDigit(s[..i + 1]) <==> HasDigit(s[..i]) || IsDigit(s[i])
  {
    var a, b := s[..i], s[..i + 1];
    assert b[i] == s[i];
    assert forall j :: 0 <= j < i ==> a[j] == b[j];
  }

  lemma EmptyBody()
    ensures !HasDigit("") && CountDots("") == 0
  {
  }

  /** is_float_string: one pass with the flags saw_digit and saw_dot. */
  method IsFloatString(text: string) returns (ok: bool)
    requires IsCString(text)
    ensures ok <==> IsFloat(text)
  {
    hide HasDigit, CountDots;
    EmptyBody();
    var index, sawDigit, sawDot := 0, false, false;
    if CharAt(text, 0) == '-' || CharAt(text, 0) == '+' {
      index := 1;
    }
    ghost var k := SignLength(text);
    ghost var body := text[k..];
    while CharAt(text, index) != '\0'
      invariant k <= index <= |text|
      invariant forall i :: 0 <= i < index - k ==> IsDigit(body[i]) || body[i] == '.'
      invariant sawDigit <==> HasDigit(body[..index - k])
      invariant CountDots(body[..index - k]) == if sawDot then 1 else 0
      decreases |text| - index
    {
      ghost var j := index - k;
      assert body[j] == text[index];
      CountDotsStep(body, j);
      HasDigitStep(body, j);
      if IsDigit(text[index]) {
        sawDigit := true;
      } else if text[index] == '.' && !sawDot {
        sawDot := true;
      } else {
        CountDotsPrefix(body, j + 1);
        return false;
      }
      index := index + 1;
    }
    assert body[..index - k] == body;
    return sawDigit;
  }

  /** validate_value. */
  method ValidateValue(c: Column, value: string) returns (ok: bool)
    requires IsCString(value)
    ensures ok <==> ValidField(c, value)
  {
    if c.ty.IntType? {
      ok := IsIntegerString(value);
    } else if c.ty.FloatType? {
      ok := IsFloatString(value);
    } else {
      ok := true;
    }
  }

  method ValidateRow(s: Schema, row: Row) returns (ok: bool)
    requires |row| == |s.columns| && CStrings(row)
    ensures ok <==> ValidRow(s, row)
  {
    hide ValidField;
    var index := 0;
    while index < |row|
      invariant index <= |row|
      invariant forall i :: 0 <= i < index ==> ValidField(s.columns[i], row[i])
    {
      var good := ValidateValue(s.columns[index], row[index]);
      if !good {
        return false;
      }
      index := index + 1;
    }
    return true;
  }

  method FindColumnIndex(columns: seq<Column>, name: string) returns (index: int)
    ensures index == FindColumn(columns, name)
  {
    index := 0;
    assert columns[0..] == columns;
    while index < |columns|
      invariant 0 <= index <= |columns|
      invariant var i := FindColumn(columns[index..], name);
                FindColumn(columns, name) == if i < 0 then -1 else index + i
    {
      if columns[index].name == name {
        return;
      }
      assert columns[index..][1..] == columns[index + 1..];
      index := index + 1;
    }
    return -1;
  }

  // ---------------------------------------------------------------- the table

  class TableState {
    const schema: Schema
    const index: BPlusTreeMap.BPTree
    const file: TableFile
    var rows: seq<Row>
    var nextId: int

    ghost function Value(): Table
      reads this, index, file
    {
      Table(schema, rows, index.contents, nextId, file.text)
    }

    ghost predicate Valid()
      reads this, index, index.nodes, file
    {
      && index.Valid()
      && this !in index.nodes && file !in index.nodes
      && Coherent(Value())
      && forall i :: 0 <= i < |rows| ==> CStrings(rows[i])
    }

    constructor (s: Schema, ix: BPlusTreeMap.BPTree, f: TableFile, rs: seq<Row>, next: int)
      ensures schema == s && index == ix && file == f && rows == rs && nextId == next
    {
      schema, index, file, rows, nextId := s, ix, f, rs, next;
    }

    /** The four updates of execute_insert once a row has been accepted: file, memory, index,
        next id, in this order. */
    method AddRow(fields: Row, insertedId: int)
      requires Valid() && ValidRow(schema, fields) && CStrings(fields)
      requires insertedId == Id(schema, fields) && IdFits(insertedId) && insertedId !in index.contents
      modifies this, index, index.nodes, file
      ensures Valid() && fresh(index.nodes - old(index.nodes))
      ensures Value() == Added(old(Value()), fields)
    {
      hide Coherent, ValidRow, Id, EncodeRow, CStrings, BPlusTreeMap.BPTree.Valid;
      CoherentLoaded(Value());
      AddedCoherent(Value(), fields);
      IdIsAtoi(schema, fields);
      var appended := file.AppendRow(fields);
      var insertedRow := |rows|;
      rows := rows + [fields];
      var inserted := index.Insert(insertedId, insertedRow);
      if insertedId >= nextId {
        nextId := insertedId + 1;
      }
    }

    /** The fields of the new row, with a generated id put in front where one is left out. */
    method BuildFields(values: Row) returns (fields: Option<Row>)
      requires nextId >= 0
      ensures fields == RowFor(Value(), values)
    {
      if |values| == |schema.columns| {
        fields := Some(values);
      } else if schema.autoincrement && schema.pk == 0 && |values| == |schema.columns| - 1 {
        fields := Some([Decimal(nextId)] + values);
      } else {
        fields := None;
      }
    }

    /** execute_insert. */
    method ExecuteInsert(values: Row) returns (ok: bool)
      requires Valid() && CStrings(values) && InRange(Value(), values)
      modifies this, index, index.nodes, file
      ensures Valid() && fresh(index.nodes - old(index.nodes))
      ensures ok <==> Acceptable(old(Value()), values)
      ensures ok ==> Adds(old(Value()), Value(), values)
      ensures !ok ==> Value() == old(Value())
      ensures Value() == Insert(old(Value()), values)
    {
      hide ValidRow, Added, RowFor, IsInteger, Atoi, CStrings, BPlusTreeMap.BPTree.Valid, Acceptable, Adds;
      InsertMeaning(Value(), values);
      var fields := BuildFields(values);
      if fields.None? {
        return false;
      }
      FieldsCStrings(Value(), values);
      RowForLength(Value(), values);
      var good := ValidateRow(schema, fields.value);
      if !good {
        return false;
      }
      IdIsAtoi(schema, fields.value);
      var insertedId := Atoi(fields.value[schema.pk]);
      var found, _ := index.Search(insertedId);
      if found {
        return false;
      }
      AddRow(fields.value, insertedId);
      return true;
    }
  }

  lemma RowForLength(t: Table, values: Row)
    requires t.nextId >= 0 && RowFor(t, values).Some?
    ensures |RowFor(t, values).value| == |t.schema.columns|
  {
  }

  lemma IdIsAtoi(s: Schema, row: Row)
    requires ValidSchema(s) && ValidRow(s, row)
    ensures |row| == |s.columns| && IsInteger(row[s.pk]) && Id(s, row) == Atoi(row[s.pk])
  {
    assert ValidField(s.columns[s.pk], row[s.pk]);
  }

  // ---------------------------------------------------------------- loading

  /** validate_loaded_rowset. */
  method ValidateLoadedRows(s: Schema, rows: seq<Row>) returns (ok: bool)
    requires forall i :: 0 <= i < |rows| ==> CStrings(rows[i])
    ensures ok <==> ValidRows(s, rows)
  {
    hide ValidField, CStrings;
    var rowIndex := 0;
    while rowIndex < |rows|
      invariant rowIndex <= |rows|
      invariant forall i :: 0 <= i < rowIndex ==> ValidRow(s, rows[i])
    {
      if |rows[rowIndex]| != |s.columns| {
        return false;
      }
      var good := ValidateRow(s, rows[rowIndex]);
      if !good {
        return false;
      }
      rowIndex := rowIndex + 1;
    }
    return true;
  }

  /** The index-building loop of table_state_load. */
  method BuildIndex(s: Schema, rows: seq<Row>) returns (index: BPlusTreeMap.BPTree, ok: bool, maxId: int)
    requires ValidSchema(s) && ValidRows(s, rows) && IdsFit(s, rows)
    ensures fresh(index) && fresh(index.nodes) && index.Valid()
    ensures ok <==> DistinctIds(s, rows)
    ensures ok ==> index.contents == IndexOf(s, rows) && maxId == MaxId(s, rows)
  {
    hide ValidRow, BPlusTreeMap.BPTree.Valid, IsInteger, Atoi;
    index := new BPlusTreeMap.BPTree();
    ok, maxId := true, 0;
    var rowIndex := 0;
    while rowIndex < |rows|
      invariant rowIndex <= |rows|
      invariant fresh(index) && fresh(index.nodes) && index.Valid()
      invariant DistinctIds(s, rows[..rowIndex])
      invariant index.contents == IndexOf(s, rows[..rowIndex]) && maxId == MaxId(s, rows[..rowIndex])
    {
      IdIsAtoi(s, rows[rowIndex]);
      var id := Atoi(rows[rowIndex][s.pk]);
      PrefixStep(s, rows, rowIndex);
      var inserted := index.Insert(id, rowIndex);
      if !inserted {
        return index, false, maxId;
      }
      if id > maxId {
        maxId := id;
      }
      rowIndex := rowIndex + 1;
    }
    assert rows[..rowIndex] == rows;
  }

  lemma PrefixStep(s: Schema, rows: seq<Row>, n: nat)
    requires ValidSchema(s) && ValidRows(s, rows) && n < |rows| && DistinctIds(s, rows[..n])
    ensures var id := Id(s, rows[n]);
            && IndexOf(s, rows[..n + 1]) == IndexOf(s, rows[..n])[id := n]
            && MaxId(s, rows[..n + 1]) == (if id > MaxId(s, rows[..n]) then id else MaxId(s, rows[..n]))
            && (id !in IndexOf(s, rows[..n]) <==> DistinctIds(s, rows[..n + 1]))
            && (id in IndexOf(s, rows[..n]) ==> !DistinctIds(s, rows))
  {
    hide ValidRow, Id;
    var id, front, more := Id(s, rows[n]), rows[..n], rows[..n + 1];
    assert more[..n] == front && more[n] == rows[n];
    IndexOfKeys(s, front, id);
    assert forall i :: 0 <= i < n ==> front[i] == rows[i] == more[i];
  }

  /** table_state_load. */
  method LoadTable(s: Schema, file: TableFile) returns (r: TableState?)
    requires ValidSchema(s)
    requires var rows := ReadRows(file.text, |s.columns|);
             rows.Some? && ValidRows(s, rows.value) ==> IdsFit(s, rows.value)
    ensures r == null <==> Load(s, file.text).None?
    ensures r != null ==> fresh(r) && fresh(r.index) && fresh(r.index.nodes) && r.file == file
    ensures r != null ==> r.Valid() && r.Value() == Load(s, file.text).value
  {
    hide ReadRows, ValidRow, DistinctIds, IndexOf, MaxId, BPlusTreeMap.BPTree.Valid;
    var rows := ReadCsvRows(file.text, |s.columns|);
    if rows.None? {
      return null;
    }
    ReadRowsCStrings(file.text, |s.columns|);
    var good := ValidateLoadedRows(s, rows.value);
    if !good {
      return null;
    }
    var index, distinct, maxId := BuildIndex(s, rows.value);
    if !distinct {
      return null;
    }
    var nextId := maxId + 1;
    if nextId <= 0 {
      nextId := 1;
    }
    r := new TableState(s, index, file, rows.value, nextId);
  }

  /** db_context_reload_table: the reloaded table, or the old one if its file does not load. */
  method ReloadTable(t: TableState) returns (ok: bool, r: TableState)
    requires t.Valid()
    requires var rows := ReadRows(t.file.text, |t.schema.columns|);
             rows.Some? && ValidRows(t.schema, rows.value) ==> IdsFit(t.schema, rows.value)
    ensures ok <==> Load(t.schema, t.file.text).Some?
    ensures r.Valid() && r.Value() == if ok then Load(t.schema, t.file.text).value else t.Value()
  {
    var reloaded := LoadTable(t.schema, t.file);
    if reloaded == null {
      return false, t;
    }
    return true, reloaded;
  }

  // ---------------------------------------------------------------- SELECT

  /** execute_select of the command line: the rows printed, or None for an error. */
  method ExecuteSelect(t: TableState, condition: Option<Condition>) returns (r: Option<seq<Row>>)
    requires t.Valid()
    requires condition.Some? ==> IsCString(condition.value.value)
    requires condition.Some? && condition.value.column == "id" && IsInteger(condition.value.value) ==>
             BPlusTreeModel.IsInt(Atoi(condition.value.value))
    ensures IsSelection(t.Value(), condition, r)
    ensures r == Select(t.Value(), condition)
  {
    hide IsSelection, ValidRow, IsInteger, Atoi, BPlusTreeMap.BPTree.Valid, CStrings;
    SelectMeaning(t.Value(), condition);
    var out: seq<Row> := [];
    if condition.None? {
      var rowIndex := 0;
      while rowIndex < |t.rows|
        invariant rowIndex <= |t.rows| && out == t.rows[..rowIndex]
      {
        out := out + [t.rows[rowIndex]];
        rowIndex := rowIndex + 1;
      }
      assert t.rows[..rowIndex] == t.rows;
      return Some(out);
    }
    var value := condition.value.value;
    if condition.value.column == "id" {
      var isInteger := IsIntegerString(value);
      if !isInteger {
        return None;
      }
      var found, matched := t.index.Search(Atoi(value));
      if found {
        IndexOfKeys(t.schema, t.rows, Atoi(value));
        out := out + [t.rows[matched]];
        assert out == [t.rows[matched]];
      }
      return Some(out);
    }
    var column := FindColumnIndex(t.schema.columns, condition.value.column);
    if column < 0 {
      return None;
    }
    var rowIndex := 0;
    while rowIndex < |t.rows|
      invariant rowIndex <= |t.rows| && out == Matching(t.schema, t.rows[..rowIndex], column, value)
    {
      MatchingStep(t.schema, t.rows, rowIndex, column, value);
      if t.rows[rowIndex][column] == value {
        out := out + [t.rows[rowIndex]];
      }
      rowIndex := rowIndex + 1;
    }
    assert t.rows[..rowIndex] == t.rows;
    return Some(out);
  }

  /** append_row_object: the fields are written one by one, and a number field that does not have
      the form of its column type is an error. */
  method AppendRowObject(s: Schema, row: Row) returns (ok: bool)
    requires |row| == |s.columns| && CStrings(row)
    ensures ok <==> ValidRow(s, row)
  {
    hide IsInteger, IsFloat;
    var columnIndex := 0;
    while columnIndex < |s.columns|
      invariant columnIndex <= |row|
      invariant forall i :: 0 <= i < columnIndex ==> ValidField(s.columns[i], row[i])
    {
      var column, field := s.columns[columnIndex], row[columnIndex];
      columnIndex := columnIndex + 1;
      if column.ty.StringType? {
        continue;
      }
      if column.ty.IntType? {
        var good := IsIntegerString(field);
        if !good {
          return false;
        }
      }
      if column.ty.FloatType? {
        var good := IsFloatString(field);
        if !good {
          return false;
        }
      }
    }
    return true;
  }

  /** build_select_payload of the HTTP service: the row objects written, or None for an error.  It
      picks the rows the command line prints, and no type check of append_row_object fires. */
  method BuildSelectPayload(t: TableState, condition: Option<Condition>) returns (r: Option<seq<Row>>)
    requires t.Valid()
    requires condition.Some? ==> IsCString(condition.value.value)
    requires condition.Some? && condition.value.column == "id" && IsInteger(condition.value.value) ==>
             BPlusTreeModel.IsInt(Atoi(condition.value.value))
    ensures IsSelection(t.Value(), condition, r)
    ensures r == Select(t.Value(), condition)
  {
    hide IsSelection, IsInteger, Atoi, ValidField, BPlusTreeMap.BPTree.Valid, CStrings;
    SelectMeaning(t.Value(), condition);
    var json: seq<Row> := [];
    if condition.None? {
      var rowIndex := 0;
      while rowIndex < |t.rows|
        invariant rowIndex <= |t.rows| && json == t.rows[..rowIndex]
      {
        var written := AppendRowObject(t.schema, t.rows[rowIndex]);
        if !written {
          return None;
        }
        json := json + [t.rows[rowIndex]];
        rowIndex := rowIndex + 1;
      }
      assert t.rows[..rowIndex] == t.rows;
      return Some(json);
    }
    var value := condition.value.value;
    if condition.value.column == "id" {
      var isInteger := IsIntegerString(value);
      if !isInteger {
        return None;
      }
      var found, matched := t.index.Search(Atoi(value));
      if found {
        IndexOfKeys(t.schema, t.rows, Atoi(value));
        var written := AppendRowObject(t.schema, t.rows[matched]);
        if !written {
          return None;
        }
        json := json + [t.rows[matched]];
        assert json == [t.rows[matched]];
      }
      return Some(json);
    }
    var column := FindColumnIndex(t.schema.columns, condition.value.column);
    if column < 0 {
      return None;
    }
    var rowIndex := 0;
    while rowIndex < |t.rows|
      invariant rowIndex <= |t.rows| && json == Matching(t.schema, t.rows[..rowIndex], column, value)
    {
      MatchingStep(t.schema, t.rows, rowIndex, column, value);
      var row := t.rows[rowIndex];
      rowIndex := rowIndex + 1;
      if row[column] != value {
        continue;
      }
      var written := AppendRowObject(t.schema, row);
      if !written {
        return None;
      }
      json := json + [row];
    }
    assert t.rows[..rowIndex] == t.rows;
    return Some(json);
  }
}

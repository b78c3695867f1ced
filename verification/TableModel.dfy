/** A table as a value: schema, rows in memory, primary-key index, next id and CSV file.

  Follows src/query/executor.c and src/index/db_context.c.  `Insert` is one INSERT statement,
  `Load` builds a table from its file, `Select` picks the rows of a SELECT.
 */
module TableModel {
  import opened Common
  import opened Text
  import opened Csv
  import BPlusTreeModel

  // ---------------------------------------------------------------- numbers as text

  function SignLength(s: string): nat {
    if s != "" && (s[0] == '-' || s[0] == '+') then 1 else 0
  }

  predicate AllDigits(s: string) {
    forall i :: 0 <= i < |s| ==> IsDigit(s[i])
  }

  /** is_integer_string. */
  predicate IsInteger(s: string) {
    |s| > SignLength(s) && AllDigits(s[SignLength(s)..])
  }

  function CountDots(s: string): nat {
    if s == "" then 0 else CountDots(s[..|s| - 1]) + (if s[|s| - 1] == '.' then 1 else 0)
  }

  predicate HasDigit(s: string) {
    exists i :: 0 <= i < |s| && IsDigit(s[i])
  }

  /** is_float_string: digits with at most one dot and at least one digit. */
  predicate IsFloat(s: string) {
    var body := s[SignLength(s)..];
    && (forall i :: 0 <= i < |body| ==> IsDigit(body[i]) || body[i] == '.')
    && CountDots(body) <= 1
    && HasDigit(body)
  }

  function DigitsValue(s: string): nat
    requires AllDigits(s)
  {
    if s == "" then 0 else 10 * DigitsValue(s[..|s| - 1]) + (s[|s| - 1] as int - '0' as int)
  }

  /** atoi of an integer string. */
  function Atoi(s: string): int
    requires IsInteger(s)
  {
    var v: int := DigitsValue(s[SignLength(s)..]);
    if s[0] == '-' then -v else v
  }

  /** What printf's %d writes for a number that is not negative. */
  function Decimal(n: nat): (s: string)
    ensures s != "" && AllDigits(s)
  {
    (if n < 10 then "" else Decimal(n / 10)) + [('0' as int + n % 10) as char]
  }

  lemma {:induction false} DecimalValue(n: nat)
    ensures DigitsValue(Decimal(n)) == n
  {
    var s := Decimal(n);
    var front := if n < 10 then "" else Decimal(n / 10);
    assert s[..|s| - 1] == front;
    if n >= 10 {
      DecimalValue(n / 10);
    }
  }

  lemma DecimalRoundTrip(n: nat)
    ensures IsInteger(Decimal(n)) && Atoi(Decimal(n)) == n
  {
    var s := Decimal(n);
    assert IsDigit(s[0]);
    assert s[0..] == s;
    DecimalValue(n);
  }

  lemma NumbersHaveNoSpace(s: string)
    requires IsInteger(s) || IsFloat(s)
    ensures NoSpace(s)
  {
    var k := SignLength(s);
    forall i | 0 <= i < |s|
      ensures !IsSpace(s[i])
    {
      assert i >= k ==> s[i] == s[k..][i - k];
    }
  }

  // ---------------------------------------------------------------- schemas and rows

  datatype ColumnType = IntType | FloatType | StringType

  datatype Column = Column(name: string, ty: ColumnType)

  datatype Schema = Schema(columns: seq<Column>, pk: int, autoincrement: bool)

  /** The primary key is an int column. */
  predicate ValidSchema(s: Schema) {
    0 <= s.pk < |s.columns| && s.columns[s.pk].ty.IntType?
  }

  /** validate_value, and validate_loaded_value with it. */
  predicate ValidField(c: Column, v: string) {
    (c.ty.IntType? ==> IsInteger(v)) && (c.ty.FloatType? ==> IsFloat(v))
  }

  predicate ValidRow(s: Schema, row: Row) {
    |row| == |s.columns| && forall i :: 0 <= i < |row| ==> ValidField(s.columns[i], row[i])
  }

  predicate ValidRows(s: Schema, rows: seq<Row>) {
    forall i :: 0 <= i < |rows| ==> ValidRow(s, rows[i])
  }

  function Id(s: Schema, row: Row): int
    requires ValidSchema(s) && ValidRow(s, row)
  {
    assert ValidField(s.columns[s.pk], row[s.pk]);
    Atoi(row[s.pk])
  }

  // ids are C ints that leave room for the next one
  predicate IdFits(id: int) {
    BPlusTreeModel.INT_MIN <= id < BPlusTreeModel.INT_MAX
  }

  ghost predicate IdsFit(s: Schema, rows: seq<Row>)
    requires ValidSchema(s) && ValidRows(s, rows)
  {
    forall i :: 0 <= i < |rows| ==> IdFits(Id(s, rows[i]))
  }

  ghost predicate DistinctIds(s: Schema, rows: seq<Row>)
    requires ValidSchema(s) && ValidRows(s, rows)
  {
    forall i, j :: 0 <= i < j < |rows| ==> Id(s, rows[i]) != Id(s, rows[j])
  }

  /** The index of a row list: the position of every id. */
  ghost function IndexOf(s: Schema, rows: seq<Row>): map<int, int>
    requires ValidSchema(s) && ValidRows(s, rows)
  {
    if rows == [] then map[]
    else
      var n := |rows| - 1;
      IndexOf(s, rows[..n])[Id(s, rows[n]) := n]
  }

  /** The largest id, and at least 0. */
  ghost function MaxId(s: Schema, rows: seq<Row>): (m: nat)
    requires ValidSchema(s) && ValidRows(s, rows)
    ensures forall i :: 0 <= i < |rows| ==> Id(s, rows[i]) <= m
  {
    if rows == [] then 0
    else
      var n := |rows| - 1;
      var m, id := MaxId(s, rows[..n]), Id(s, rows[n]);
      assert forall i :: 0 <= i < n ==> rows[i] == rows[..n][i];
      if id > m then id else m
  }

  lemma {:induction false} IndexOfKeys(s: Schema, rows: seq<Row>, k: int)
    requires ValidSchema(s) && ValidRows(s, rows)
    ensures k in IndexOf(s, rows) <==> exists i :: 0 <= i < |rows| && Id(s, rows[i]) == k
    ensures k in IndexOf(s, rows) ==> 0 <= IndexOf(s, rows)[k] < |rows| && Id(s, rows[IndexOf(s, rows)[k]]) == k
    decreases |rows|
  {
    if rows != [] {
      var n := |rows| - 1;
      IndexOfKeys(s, rows[..n], k);
      assert forall i :: 0 <= i < n ==> rows[i] == rows[..n][i];
    }
  }

  // ---------------------------------------------------------------- tables

  datatype Table = Table(schema: Schema, rows: seq<Row>, index: map<int, int>, nextId: int, file: string)

  /** What schema, rows, index and next id owe each other. */
  ghost predicate Consistent(t: Table) {
    && ValidSchema(t.schema)
    && ValidRows(t.schema, t.rows)
    && DistinctIds(t.schema, t.rows)
    && t.index == IndexOf(t.schema, t.rows)
    && t.nextId == MaxId(t.schema, t.rows) + 1
  }

  /** A consistent table whose ids are C ints. */
  ghost predicate Coherent(t: Table) {
    Consistent(t) && IdsFit(t.schema, t.rows)
  }

  lemma CoherentLoaded(t: Table)
    requires Coherent(t)
    ensures ValidSchema(t.schema) && t.nextId >= 0
  {
  }

  /** The full row of an INSERT: given in full, or without the id of an autoincrement table. */
  function RowFor(t: Table, values: Row): Option<Row>
    requires t.nextId >= 0
  {
    if |values| == |t.schema.columns| then Some(values)
    else if t.schema.autoincrement && t.schema.pk == 0 && |values| == |t.schema.columns| - 1 then
      Some([Decimal(t.nextId)] + values)
    else None
  }

  /** The row an INSERT adds, or None if it is rejected. */
  ghost function Accepted(t: Table, values: Row): Option<Row>
    requires ValidSchema(t.schema) && t.nextId >= 0
  {
    var row := RowFor(t, values);
    if row.Some? && ValidRow(t.schema, row.value) && Id(t.schema, row.value) !in t.index then row else None
  }

  /** Adding an accepted row to all four parts. */
  ghost function Added(t: Table, row: Row): Table
    requires ValidSchema(t.schema) && ValidRow(t.schema, row)
  {
    var id := Id(t.schema, row);
    Table(t.schema, t.rows + [row], t.index[id := |t.rows|], if id >= t.nextId then id + 1 else t.nextId,
          t.file + EncodeRow(row) + "\n")
  }

  /** execute_insert: a rejected statement changes nothing. */
  ghost function Insert(t: Table, values: Row): Table
    requires ValidSchema(t.schema) && t.nextId >= 0
  {
    var row := Accepted(t, values);
    if row.Some? then Added(t, row.value) else t
  }

  /** The id of the statement, if it gets as far as having one, fits. */
  ghost predicate InRange(t: Table, values: Row)
    requires ValidSchema(t.schema) && t.nextId >= 0
  {
    var row := RowFor(t, values);
    row.Some? && ValidRow(t.schema, row.value) ==> IdFits(Id(t.schema, row.value))
  }

  lemma AddedConsistent(t: Table, row: Row)
    requires Consistent(t) && ValidRow(t.schema, row) && Id(t.schema, row) !in t.index
    ensures Consistent(Added(t, row))
  {
    var s, rows := t.schema, t.rows + [row];
    assert rows[..|t.rows|] == t.rows;
    forall i | 0 <= i < |t.rows|
      ensures Id(s, t.rows[i]) != Id(s, row)
    {
      IndexOfKeys(s, t.rows, Id(s, t.rows[i]));
    }
    assert ValidRows(s, rows);
  }

  lemma AddedCoherent(t: Table, row: Row)
    requires Coherent(t) && ValidRow(t.schema, row) && IdFits(Id(t.schema, row)) && Id(t.schema, row) !in t.index
    ensures Coherent(Added(t, row))
  {
    AddedConsistent(t, row);
  }

  /** Every INSERT, accepted or rejected, keeps the table coherent. */
  lemma InsertCoherent(t: Table, values: Row)
    requires Coherent(t) && InRange(t, values)
    ensures Coherent(Insert(t, values))
  {
    var row := Accepted(t, values);
    if row.Some? {
      AddedCoherent(t, row.value);
    }
  }

  // ---------------------------------------------------------------- runs of statements

  ghost predicate AllInRange(t: Table, statements: seq<Row>)
    requires Coherent(t)
    decreases |statements|
  {
    statements == [] ||
    (InRange(t, statements[0]) &&
     (InsertCoherent(t, statements[0]); AllInRange(Insert(t, statements[0]), statements[1..])))
  }

  /** The table after a sequence of INSERT statements. */
  ghost function Run(t: Table, statements: seq<Row>): (r: Table)
    requires Coherent(t) && AllInRange(t, statements)
    ensures Coherent(r)
    decreases |statements|
  {
    if statements == [] then t
    else
      InsertCoherent(t, statements[0]);
      Run(Insert(t, statements[0]), statements[1..])
  }

  // ---------------------------------------------------------------- loading

  /** table_state_load for a schema that has been read. */
  ghost function Load(s: Schema, file: string): Option<Table>
    requires ValidSchema(s)
  {
    var rows := ReadRows(file, |s.columns|);
    if rows.Some? && ValidRows(s, rows.value) && DistinctIds(s, rows.value) then
      Some(Table(s, rows.value, IndexOf(s, rows.value), MaxId(s, rows.value) + 1, file))
    else None
  }

  // ---------------------------------------------------------------- durability

  ghost predicate SameUpToTrim(mem: seq<Row>, disk: seq<Row>) {
    |disk| == |mem| && forall i :: 0 <= i < |mem| ==> disk[i] == TrimAll(mem[i])
  }

  /** Loading the table's file gives the table back: same ids, index and next id, and the same
      fields up to white space at their ends. */
  ghost predicate Durable(t: Table)
    requires ValidSchema(t.schema)
  {
    var u := Load(t.schema, t.file);
    && u.Some?
    && SameUpToTrim(t.rows, u.value.rows)
    && u.value.index == t.index && u.value.nextId == t.nextId
  }

  /** The file says more rows than memory holds, or does not parse. */
  ghost predicate Lost(t: Table) {
    var rows := ReadRows(t.file, |t.schema.columns|);
    rows.None? || |rows.value| > |t.rows|
  }

  lemma TrimValid(s: Schema, row: Row)
    requires ValidSchema(s) && ValidRow(s, row)
    ensures ValidRow(s, TrimAll(row)) && Id(s, TrimAll(row)) == Id(s, row)
  {
    forall i | 0 <= i < |row|
      ensures ValidField(s.columns[i], Trim(row[i])) && (i == s.pk ==> Trim(row[i]) == row[i])
    {
      assert ValidField(s.columns[i], row[i]);
      if !s.columns[i].ty.StringType? {
        NumbersHaveNoSpace(row[i]);
        TrimNoSpace(row[i]);
      }
    }
    assert TrimAll(row)[s.pk] == row[s.pk];
  }

  lemma TrimSameIds(s: Schema, mem: seq<Row>, disk: seq<Row>)
    requires ValidSchema(s) && ValidRows(s, mem) && SameUpToTrim(mem, disk)
    ensures ValidRows(s, disk)
    ensures forall i :: 0 <= i < |mem| ==> Id(s, disk[i]) == Id(s, mem[i])
    ensures DistinctIds(s, disk) <==> DistinctIds(s, mem)
  {
    hide ValidRow, Id;
    forall i | 0 <= i < |mem|
      ensures ValidRow(s, disk[i]) && Id(s, disk[i]) == Id(s, mem[i])
    {
      TrimValid(s, mem[i]);
    }
  }

  /** Rows with the same ids have the same index and the same next id. */
  lemma {:induction false} SameIdsSameIndex(s: Schema, mem: seq<Row>, disk: seq<Row>)
    requires ValidSchema(s) && ValidRows(s, mem) && ValidRows(s, disk) && |mem| == |disk|
    requires forall i :: 0 <= i < |mem| ==> Id(s, disk[i]) == Id(s, mem[i])
    ensures IndexOf(s, disk) == IndexOf(s, mem) && MaxId(s, disk) == MaxId(s, mem)
    decreases |mem|
  {
    hide ValidRow, Id;
    if mem != [] {
      var n := |mem| - 1;
      var m, d := mem[..n], disk[..n];
      assert forall i :: 0 <= i < n ==> Id(s, d[i]) == Id(s, disk[i]) == Id(s, mem[i]) == Id(s, m[i]);
      SameIdsSameIndex(s, m, d);
    }
  }

  /** For a consistent table, being durable is a matter of the rows the file gives. */
  lemma DurableIsReadBack(t: Table)
    requires Consistent(t)
    ensures Durable(t) <==>
      var rows := ReadRows(t.file, |t.schema.columns|);
      rows.Some? && SameUpToTrim(t.rows, rows.value)
  {
    hide ReadRows, IndexOf, MaxId, DistinctIds, ValidRows, SameUpToTrim;
    var rows := ReadRows(t.file, |t.schema.columns|);
    if rows.Some? && SameUpToTrim(t.rows, rows.value) {
      SameLength(t.rows, rows.value);
      TrimSameIds(t.schema, t.rows, rows.value);
      SameIdsSameIndex(t.schema, t.rows, rows.value);
    }
  }

  lemma SameLength(mem: seq<Row>, disk: seq<Row>)
    requires SameUpToTrim(mem, disk)
    ensures |mem| == |disk|
  {
  }

  /** One accepted INSERT on a durable table stays durable exactly when its row is storable, and
      otherwise the table is lost. */
  lemma AddedDurable(t: Table, row: Row)
    requires Coherent(t) && Durable(t) && EndsLine(t.file)
    requires ValidRow(t.schema, row) && IdFits(Id(t.schema, row)) && Id(t.schema, row) !in t.index && CStrings(row)
    ensures Coherent(Added(t, row)) && EndsLine(Added(t, row).file)
    ensures Storable(row) ==> Durable(Added(t, row))
    ensures !Storable(row) ==> Lost(Added(t, row))
  {
    var t' := Added(t, row);
    var disk := ReadRows(t.file, |row|);
    AddedCoherent(t, row);
    DurableIsReadBack(t);
    DurableIsReadBack(t');
    hide ReadRows, SameUpToTrim, Coherent, Durable, Storable, EncodeRow;
    ReadAfterAppend(t.file, disk.value, row);
    SameExtended(t.rows, disk.value, row);
  }

  lemma SameExtended(mem: seq<Row>, disk: seq<Row>, row: Row)
    requires SameUpToTrim(mem, disk)
    ensures SameUpToTrim(mem + [row], disk + [TrimAll(row)]) && |mem| == |disk|
  {
  }

  // the values of a statement come from SQL text
  ghost predicate AllCStrings(statements: seq<Row>) {
    forall i :: 0 <= i < |statements| ==> CStrings(statements[i])
  }

  /** Every row that the run of statements adds is storable. */
  ghost predicate AllStorable(t: Table, statements: seq<Row>)
    requires Coherent(t) && AllInRange(t, statements)
    decreases |statements|
  {
    statements == [] ||
    (InsertCoherent(t, statements[0]);
     var row := Accepted(t, statements[0]);
     (row.Some? ==> Storable(row.value)) && AllStorable(Insert(t, statements[0]), statements[1..]))
  }

  lemma FieldsCStrings(t: Table, values: Row)
    requires t.nextId >= 0 && CStrings(values) && RowFor(t, values).Some?
    ensures CStrings(RowFor(t, values).value)
  {
    var row := RowFor(t, values).value;
    forall i | 0 <= i < |row|
      ensures IsCString(row[i])
    {
      if |values| < |row| {
        assert i == 0 ==> AllDigits(row[0]);
        assert i > 0 ==> row[i] == values[i - 1];
      }
    }
  }

  lemma LostStays(t: Table, row: Row)
    requires Coherent(t) && Lost(t) && EndsLine(t.file) && ValidRow(t.schema, row) && CStrings(row)
    ensures Lost(Added(t, row))
  {
    hide ReadRows, EncodeRow;
    SurplusStays(t.file, |t.rows|, row, |t.schema.columns|);
  }

  lemma {:induction false} LostForever(t: Table, statements: seq<Row>)
    requires Coherent(t) && AllInRange(t, statements) && AllCStrings(statements)
    requires Lost(t) && EndsLine(t.file)
    ensures Lost(Run(t, statements))
    decreases |statements|
  {
    hide Lost, EndsLine, ReadRows;
    if statements != [] {
      InsertCoherent(t, statements[0]);
      if Accepted(t, statements[0]).Some? {
        FieldsCStrings(t, statements[0]);
        LostStays(t, Accepted(t, statements[0]).value);
        AddedEndsLine(t, Accepted(t, statements[0]).value);
      }
      LostForever(Insert(t, statements[0]), statements[1..]);
    }
  }

  lemma AddedEndsLine(t: Table, row: Row)
    requires ValidSchema(t.schema) && ValidRow(t.schema, row)
    ensures EndsLine(Added(t, row).file)
  {
  }

  lemma LostIsNotDurable(t: Table)
    requires Coherent(t) && Lost(t)
    ensures !Durable(t)
  {
  }

  /** Durability over whole runs: after any sequence of INSERT statements on a durable table whose
      file ends its last line, reloading the file gives the table in memory if and only if every
      row added on the way was storable. */
  lemma {:induction false} RunDurable(t: Table, statements: seq<Row>)
    requires Coherent(t) && AllInRange(t, statements) && AllCStrings(statements)
    requires Durable(t) && EndsLine(t.file)
    ensures Durable(Run(t, statements)) <==> AllStorable(t, statements)
    decreases |statements|
  {
    hide Lost, EndsLine, ReadRows, Durable, Storable;
    if statements != [] {
      var rest := statements[1..];
      InsertCoherent(t, statements[0]);
      var row := Accepted(t, statements[0]);
      if row.None? {
        RunDurable(t, rest);
      } else {
        FieldsCStrings(t, statements[0]);
        AddedDurable(t, row.value);
        if Storable(row.value) {
          RunDurable(Insert(t, statements[0]), rest);
        } else {
          LostForever(Insert(t, statements[0]), rest);
          LostIsNotDurable(Run(t, statements));
        }
      }
    }
  }

  /** A freshly loaded table is durable. */
  lemma LoadDurable(s: Schema, file: string)
    requires ValidSchema(s) && Load(s, file).Some?
    ensures Durable(Load(s, file).value)
  {
    ReadRowsTrimmed(file, |s.columns|);
    hide ReadRows, Trim;
    var rows := Load(s, file).value.rows;
    forall i | 0 <= i < |rows|
      ensures rows[i] == TrimAll(rows[i])
    {
      assert Trimmed(rows[i]);
    }
  }

  /** What a last line `l` that is not ended does to durability: a row short enough to share the line
      buffer with it survives exactly if the line is nothing but carriage returns.  Otherwise the row is
      read as part of that line. */
  lemma UnendedFileDurable(t: Table, row: Row, a: string, l: string)
    requires Coherent(t) && Durable(t) && t.file == a + l && EndsLine(a) && '\n' !in l && IsCString(l)
    requires ValidRow(t.schema, row) && IdFits(Id(t.schema, row)) && Id(t.schema, row) !in t.index && CStrings(row)
    requires NewlineFree(row) && |l| + |EncodeRow(row)| < LINE_BUFFER
    ensures Coherent(Added(t, row))
    ensures Durable(Added(t, row)) <==> OnlyReturns(l)
  {
    AddedCoherent(t, row);
    DurableIsReadBack(t);
    DurableIsReadBack(Added(t, row));
    var disk := ReadRows(t.file, |row|);
    hide ReadRows, EncodeRow, Coherent, Durable, SameUpToTrim, OnlyReturns;
    SameLength(t.rows, disk.value);
    AppendedToUnendedLine(a, l, row);
    SameExtended(t.rows, disk.value, row);
    var back := ReadRows(Added(t, row).file, |row|);
    if back.Some? && SameUpToTrim(Added(t, row).rows, back.value) {
      SameLength(Added(t, row).rows, back.value);
    }
  }

  // ---------------------------------------------------------------- two rows that are lost

  const ID_ONLY := Schema([Column("id", IntType)], 0, false)

  /** A table of one row whose file does not end its only line. */
  const UNENDED := Table(ID_ONLY, [["1"]], map[1 := 0], 2, "1")

  lemma UnendedCoherent()
    ensures Coherent(UNENDED) && Id(ID_ONLY, ["1"]) == 1 && ValidRow(ID_ONLY, ["2"]) && Id(ID_ONLY, ["2"]) == 2
  {
    OneDigit('1');
    OneDigit('2');
    assert UNENDED.rows[..0] == [];
  }

  lemma OneDigit(d: char)
    requires IsDigit(d)
    ensures IsInteger([d]) && Atoi([d]) == d as int - '0' as int
  {
    var s := [d];
    assert s[0..] == s && s[..|s| - 1] == "";
    assert DigitsValue(s) == 10 * DigitsValue("") + (d as int - '0' as int);
  }

  lemma DigitParses(d: char)
    requires IsDigit(d)
    ensures ParseLine([d], 1) == Some([[d]])
  {
    TrimFixed([d]);
    hide Trim;
    var line := [d];
    assert line[1..] == "" && "" + [d] == [d] && [] + [[d]] == [[d]];
    assert Scan(line, false, "", []) == Scan("", false, [d], []);
  }

  lemma DigitReadBack(d: char)
    requires IsDigit(d)
    ensures ReadRows([d], 1) == Some([[[d]]])
  {
    DigitParses(d);
    hide ParseLine, ReadRows;
    assert [d][|[d]| - 1] == d;
    LastLineRead([d], 1, [[d]]);
  }

  lemma UnendedDurable()
    ensures Coherent(UNENDED) && Durable(UNENDED)
  {
    hide ReadRows, Durable, Coherent, Id, ValidRow;
    UnendedCoherent();
    DigitReadBack('1');
    TrimFixed("1");
    ConsistentOf(UNENDED);
    DurableIsReadBack(UNENDED);
  }

  lemma ConsistentOf(t: Table)
    requires Coherent(t)
    ensures Consistent(t)
  {
  }

  /** File `1`, then INSERT of `2`: the file becomes `1"2"`, which is one row. */
  lemma UnendedFileExample()
    ensures Coherent(UNENDED) && Durable(UNENDED) && ValidRow(ID_ONLY, ["2"])
    ensures Coherent(Added(UNENDED, ["2"])) && !Durable(Added(UNENDED, ["2"]))
  {
    hide ReadRows, Durable, Coherent, Id, ValidRow, EncodeRow;
    UnendedCoherent();
    UnendedDurable();
    EncodedDigit();
    assert "" + "1" == "1" && "1"[0] != '\r';
    UnendedFileDurable(UNENDED, ["2"], "", "1");
  }

  lemma EncodedDigit()
    ensures |EncodeRow(["2"])| == 3
  {
    assert Escaped("2") == "2";
  }

  const WITH_NAME := Schema([Column("id", IntType), Column("name", StringType)], 0, false)

  const EMPTY := Table(WITH_NAME, [], map[], 1, "")

  /** An empty table, then INSERT of a name with a newline in it: the row takes two lines. */
  lemma NewlineExample()
    ensures Coherent(EMPTY) && Durable(EMPTY) && EndsLine(EMPTY.file)
    ensures Coherent(Added(EMPTY, ["1", "a\nb"])) && !Durable(Added(EMPTY, ["1", "a\nb"]))
  {
    var row := ["1", "a\nb"];
    OneDigit('1');
    assert ValidRow(WITH_NAME, row) && Id(WITH_NAME, row) == 1;
    assert row[1][1] == '\n';
    assert !NewlineFree(row) && CStrings(row);
    hide ReadRows, EncodeRow, ValidRow, Id, NewlineFree, CStrings;
    AddedDurable(EMPTY, row);
    LostIsNotDurable(Added(EMPTY, row));
  }

  // ---------------------------------------------------------------- SELECT

  datatype Condition = Condition(column: string, value: string)

  /** find_column_index: the first column of that name, or -1. */
  function FindColumn(columns: seq<Column>, name: string): (i: int)
    ensures -1 <= i < |columns|
    ensures i >= 0 ==> columns[i].name == name
    ensures forall j :: 0 <= j < (if i < 0 then |columns| else i) ==> columns[j].name != name
  {
    if columns == [] then -1
    else if columns[0].name == name then 0
    else
      var i := FindColumn(columns[1..], name);
      if i < 0 then -1 else i + 1
  }

  /** The rows whose field c is the given text, in order. */
  function Matching(s: Schema, rows: seq<Row>, c: nat, value: string): seq<Row>
    requires ValidRows(s, rows) && c < |s.columns|
  {
    if rows == [] then []
    else
      var n := |rows| - 1;
      Matching(s, rows[..n], c, value) + (if rows[n][c] == value then [rows[n]] else [])
  }

  lemma MatchingStep(s: Schema, rows: seq<Row>, pos: nat, c: nat, value: string)
    requires ValidRows(s, rows) && pos < |rows| && c < |s.columns|
    ensures c < |rows[pos]|
    ensures Matching(s, rows[..pos + 1], c, value) ==
              Matching(s, rows[..pos], c, value) + (if rows[pos][c] == value then [rows[pos]] else [])
  {
    assert rows[..pos + 1][..pos] == rows[..pos];
    assert ValidRow(s, rows[pos]);
  }

  /** The rows a SELECT returns, or None if it fails; WHERE id goes through the index. */
  ghost function Select(t: Table, condition: Option<Condition>): Option<seq<Row>>
    requires Consistent(t)
  {
    match condition
    case None => Some(t.rows)
    case Some(Condition(column, value)) =>
      if column == "id" then
        if !IsInteger(value) then None
        else if Atoi(value) in t.index then
          IndexOfKeys(t.schema, t.rows, Atoi(value));
          Some([t.rows[t.index[Atoi(value)]]])
        else Some([])
      else
        var c := FindColumn(t.schema.columns, column);
        if c < 0 then None else Some(Matching(t.schema, t.rows, c, value))
  }

  /** Every row a SELECT returns is a row of the table, so its fields pass the column type checks. */
  lemma SelectedRowsValid(t: Table, condition: Option<Condition>)
    requires Consistent(t) && Select(t, condition).Some?
    ensures ValidRows(t.schema, Select(t, condition).value)
  {
    if condition.Some? && condition.value.column != "id" {
      MatchingValid(t.schema, t.rows, FindColumn(t.schema.columns, condition.value.column), condition.value.value);
    } else if condition.Some? && Atoi(condition.value.value) in t.index {
      IndexOfKeys(t.schema, t.rows, Atoi(condition.value.value));
    }
  }

  lemma {:induction false} MatchingValid(s: Schema, rows: seq<Row>, c: nat, value: string)
    requires ValidRows(s, rows) && c < |s.columns|
    ensures ValidRows(s, Matching(s, rows, c, value))
    decreases |rows|
  {
    if rows != [] {
      MatchingValid(s, rows[..|rows| - 1], c, value);
    }
  }
}

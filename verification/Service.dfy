/** From the texts of the requests to the files of the tables: what src/server/request/request_handler.c,
    sql_service.c and src/storage/storage.c promise together.
 */
module Service {
  import opened Common
  import opened Text
  import opened Csv
  import opened TableModel
  import opened SqlGrammar
  import opened DbGuard
  import opened Statements
  import opened Database
  import opened GuardedSystem
  import opened SystemSteps
  import opened Serializability
  import SqlClassifier

  // ---------------------------------------------------------------- statements are C strings

  lemma InEither(a: string, b: string, c: char)
    ensures c in a + b <==> c in a || c in b
  {
  }

  lemma {:induction false} ItemsHold(values: seq<string>, items: seq<ItemLayout>, i: nat, c: char)
    requires |values| == |items| && i < |values| && c in values[i]
    ensures c in ShowItems(values, items)
    decreases |values|
  {
    var first, after := ShowValue(values[0], items[0].value), items[0].after;
    var rest := if |values| == 1 then ")" else "," + ShowItems(values[1..], items[1..]);
    if i == 0 {
      ValueHolds(values[0], items[0].value, c);
    } else {
      ItemsHold(values[1..], items[1..], i - 1, c);
      InEither(",", ShowItems(values[1..], items[1..]), c);
    }
    hide ShowValue;
    InEither(after, rest, c);
    InEither(first, after + rest, c);
  }

  lemma ValueHolds(v: string, l: ValueLayout, c: char)
    requires c in v
    ensures c in ShowValue(v, l)
  {
    if l.quote.Some? {
      InEither([l.quote.value], v, c);
      InEither([l.quote.value] + v, [l.quote.value], c);
      InEither(l.before, [l.quote.value] + v + [l.quote.value], c);
    } else {
      InEither(l.before, v, c);
    }
  }

  /** The values of a parsed INSERT are C strings, and there is at least one. */
  lemma ParsedCStrings(s: string)
    requires IsCString(s) && ParseSql(s).Some? && ParseSql(s).value.InsertQuery?
    ensures CStrings(ParseSql(s).value.values) && |ParseSql(s).value.values| > 0
  {
    var values := ParseSql(s).value.values;
    var l := ParsedIsSpelled(s);
    hide ParseSql, Proper, ShowItems, ShowEnd;
    forall i | 0 <= i < |values|
      ensures IsCString(values[i])
    {
      if '\0' in values[i] {
        ItemsHold(values, l.items, i, '\0');
      }
    }
  }

  // ---------------------------------------------------------------- the writes of a run

  /** The values of an INSERT are C strings. */
  ghost predicate CValues(q: Option<Query>) {
    IsInsert(q) ==> CStrings(q.value.values)
  }

  lemma TextCValues(text: string)
    requires IsCString(text)
    ensures CValues(ParseSql(text))
  {
    hide ParseSql;
    if IsInsert(ParseSql(text)) {
      ParsedCStrings(text);
    }
  }

  ghost predicate AllCValues(s: System) {
    && s.job.Keys == s.guard.pc.Keys
    && (forall t :: t in s.guard.pc && !s.guard.pc[t].Idle? ==> CValues(s.job[t].query))
    && forall i :: 0 <= i < |s.writes| ==> CValues(s.writes[i])
  }

  lemma AdvanceCValues(s: System, m: Move)
    requires AllCValues(s) && m.thread in s.guard.pc && m.thread in s.job && IsCString(m.text)
    ensures AllCValues(Advance(s, m))
  {
    hide ParseSql, SqlClassifier.Classify, CValues, IsCString, StatementStep, FirstWork, Finished, OneMoves;
    TextCValues(m.text);
    OneThreadMoves(s, m);
    OthersAre(s, m);
  }

  lemma OthersAre(s: System, m: Move)
    requires m.thread in s.guard.pc && m.thread in s.job && OneMoves(s, Advance(s, m), m.thread)
    ensures Advance(s, m).guard.pc.Keys == s.guard.pc.Keys == Advance(s, m).job.Keys
    ensures forall u :: u in s.guard.pc && u != m.thread ==>
              Advance(s, m).guard.pc[u] == s.guard.pc[u] && Advance(s, m).job[u] == s.job[u]
  {
    hide Advance;
  }

  lemma {:induction false} RunCValues(base: Tables, states: seq<System>, moves: seq<Move>, n: nat)
    requires IsSystemRun(states, moves) && InitialSystem(states[0], base) && n < |states|
    requires forall i :: 0 <= i < |moves| ==> IsCString(moves[i].text)
    ensures AllCValues(states[n])
  {
    if n > 0 {
      hide Advance, AllCValues, IsCString;
      RunCValues(base, states, moves, n - 1);
      AdvanceCValues(states[n - 1], moves[n - 1]);
    }
  }

  // ---------------------------------------------------------------- durability of a run

  /** The rows that the statements insert into one table, in order. */
  function RowsFor(writes: seq<Option<Query>>, name: string): seq<Row> {
    if writes == [] then []
    else
      var n := |writes| - 1;
      var q := writes[n];
      RowsFor(writes[..n], name) + (if IsInsert(q) && q.value.table == name then [q.value.values] else [])
  }

  lemma {:induction false} RowsForCStrings(writes: seq<Option<Query>>, name: string)
    requires forall i :: 0 <= i < |writes| ==> CValues(writes[i])
    ensures AllCStrings(RowsFor(writes, name))
  {
    hide CStrings;
    if writes != [] {
      RowsForCStrings(writes[..|writes| - 1], name);
      assert CValues(writes[|writes| - 1]);
    }
  }

  /** The last statement of a run of INSERTs. */
  lemma {:induction false} RunLast(t: Table, rows: seq<Row>, values: Row)
    requires Coherent(t) && AllInRange(t, rows + [values])
    ensures AllInRange(t, rows) && Run(t, rows + [values]) == Insert(Run(t, rows), values)
    decreases |rows|
  {
    hide Coherent, InRange;
    CoherentLoaded(t);
    var all := rows + [values];
    InsertCoherent(t, all[0]);
    if rows == [] {
      assert all[1..] == [];
    } else {
      assert all[1..] == rows[1..] + [values];
      RunLast(Insert(t, rows[0]), rows[1..], values);
    }
  }

  /** In the serial execution of all statements, a table goes through exactly the INSERTs into it. */
  lemma {:induction false} SerialIsRun(base: Tables, writes: seq<Option<Query>>, name: string)
    requires AllConsistent(base) && name in base && Coherent(base[name])
    requires AllInRange(base[name], RowsFor(writes, name))
    ensures Serial(base, writes)[name] == Run(base[name], RowsFor(writes, name))
    decreases |writes|
  {
    hide AllConsistent, Coherent, AllInRange, Insert;
    if writes != [] {
      var n := |writes| - 1;
      var q := writes[n];
      if IsInsert(q) && q.value.table == name {
        RunLast(base[name], RowsFor(writes[..n], name), q.value.values);
      } else {
        assert RowsFor(writes[..n], name) + [] == RowsFor(writes[..n], name);
      }
      SerialIsRun(base, writes[..n], name);
    }
  }

  /** Durability of the whole server.  After any concurrent run of any texts, whenever nobody is writing,
      reloading a table's file gives the table in memory if and only if every row that was added to it
      was storable. */
  lemma RunsAreDurable(base: Tables, states: seq<System>, moves: seq<Move>, n: nat, name: string)
    requires IsSystemRun(states, moves) && InitialSystem(states[0], base) && n < |states|
    requires forall i :: 0 <= i < |moves| ==> IsCString(moves[i].text)
    requires name in base && Coherent(base[name]) && Durable(base[name]) && EndsLine(base[name].file)
    requires AllInRange(base[name], RowsFor(states[n].writes, name))
    requires !AnyWriting(states[n].guard)
    ensures name in states[n].tables
    ensures Durable(states[n].tables[name]) <==> AllStorable(base[name], RowsFor(states[n].writes, name))
  {
    hide AllConsistent, Durable, EndsLine, Coherent, AllInRange, AllStorable, Run, AnyWriting, RowsFor, IsCString;
    hide Right, InRealTime, InOrder, Writers, CValues, AllCStrings, DbGuard.Init, Advance, Serial;
    Serializable(base, states, moves, n);
    RunCValues(base, states, moves, n);
    RowsForCStrings(states[n].writes, name);
    SerialIsRun(base, states[n].writes, name);
    RunDurable(base[name], RowsFor(states[n].writes, name));
  }
}

/** Concurrent INSERTs of one id into one table through the guard: a consequence of serializability for
    the duplicate check of src/query/executor.c.
 */
module Winners {
  import opened Common
  import opened Csv
  import opened TableModel
  import opened TableMeaning
  import opened SqlGrammar
  import DbGuard
  import opened Statements
  import opened Database
  import opened GuardedSystem
  import opened Serializability
  import opened Answers

  /** The table of that name after the first k writes. */
  ghost function TableAt(base: Tables, writes: seq<Option<Query>>, k: nat, name: string): (t: LoadedTable)
    requires AllConsistent(base) && k <= |writes| && name in base
    ensures t.schema == base[name].schema
  {
    Serial(base, writes[..k])[name]
  }

  /** The statement at place k adds a row with this id to the table. */
  ghost predicate Wins(base: Tables, writes: seq<Option<Query>>, k: nat, name: string, id: int)
    requires AllConsistent(base) && k < |writes| && name in base
  {
    && Into(writes[k], name)
    && var row := Accepted(TableAt(base, writes, k, name), writes[k].value.values);
       row.Some? && Id(base[name].schema, row.value) == id
  }

  /** The INSERT names the id itself and its row is valid. */
  predicate Names(s: Schema, values: Row, id: int)
    requires ValidSchema(s)
  {
    ValidRow(s, values) && Id(s, values) == id
  }

  lemma TableAfter(base: Tables, writes: seq<Option<Query>>, k: nat, name: string)
    requires AllConsistent(base) && k < |writes| && name in base
    ensures TableAt(base, writes, k + 1, name) ==
      if Into(writes[k], name) then Insert(TableAt(base, writes, k, name), writes[k].value.values)
      else TableAt(base, writes, k, name)
  {
    hide AllConsistent, Serial, Insert;
    assert writes[..k + 1] == writes[..k] + [writes[k]];
    SerialStep(base, writes[..k], writes[k]);
  }

  lemma TableAtStart(base: Tables, writes: seq<Option<Query>>, name: string)
    requires AllConsistent(base) && name in base
    ensures TableAt(base, writes, 0, name) == base[name]
  {
  }

  /** The ids after place k: those before it and the one it adds. */
  lemma IdsAfter(base: Tables, writes: seq<Option<Query>>, k: nat, name: string, id: int)
    requires AllConsistent(base) && k < |writes| && name in base
    ensures id in TableAt(base, writes, k + 1, name).index <==>
            id in TableAt(base, writes, k, name).index || Wins(base, writes, k, name, id)
    ensures Wins(base, writes, k, name, id) ==> id !in TableAt(base, writes, k, name).index
    ensures Into(writes[k], name) && Names(base[name].schema, writes[k].value.values, id) ==>
            id in TableAt(base, writes, k + 1, name).index
  {
    hide AllConsistent, ValidRow, Id, TableAt;
    TableAfter(base, writes, k, name);
    if Into(writes[k], name) && Names(base[name].schema, writes[k].value.values, id) {
      NamedRow(base[name].schema, writes[k].value.values, id);
    }
  }

  lemma NamedRow(s: Schema, values: Row, id: int)
    requires ValidSchema(s) && Names(s, values, id)
    ensures |values| == |s.columns|
  {
  }

  lemma {:induction false} IdsStay(base: Tables, writes: seq<Option<Query>>, j: nat, k: nat, name: string, id: int)
    requires AllConsistent(base) && j <= k <= |writes| && name in base && id in TableAt(base, writes, j, name).index
    ensures id in TableAt(base, writes, k, name).index
    decreases k
  {
    hide AllConsistent, TableAt, Wins;
    if j < k {
      IdsStay(base, writes, j, k - 1, name, id);
      IdsAfter(base, writes, k - 1, name, id);
    }
  }

  lemma {:induction false} SomeWinner(base: Tables, writes: seq<Option<Query>>, n: nat, name: string, id: int) returns (k: nat)
    requires AllConsistent(base) && n <= |writes| && name in base
    requires id !in base[name].index && id in TableAt(base, writes, n, name).index
    ensures k < n && Wins(base, writes, k, name, id)
  {
    hide AllConsistent, TableAt, Wins;
    TableAtStart(base, writes, name);
    IdsAfter(base, writes, n - 1, name, id);
    if Wins(base, writes, n - 1, name, id) {
      k := n - 1;
    } else {
      k := SomeWinner(base, writes, n - 1, name, id);
    }
  }

  lemma {:induction false} WritersGrow(answers: seq<Answer>, i: nat, j: nat)
    requires i <= j <= |answers|
    ensures Writers(answers[..i]) <= Writers(answers[..j])
    ensures i < j && answers[i].lock.Write? ==> Writers(answers[..i]) < Writers(answers[..j])
    decreases j
  {
    if i < j {
      WritersGrow(answers, i, j - 1);
      assert answers[..j][..j - 1] == answers[..j - 1];
    }
  }

  /** Every serial place up to an answered one has its answer. */
  lemma {:induction false} AnswerAt(answers: seq<Answer>, n: nat, k: nat) returns (j: nat)
    requires InOrder(answers) && n <= |answers| && k < Writers(answers[..n])
    ensures j < n && answers[j].lock.Write? && answers[j].at == k
  {
    assert answers[..n][..n - 1] == answers[..n - 1];
    if k < Writers(answers[..n - 1]) {
      j := AnswerAt(answers, n - 1, k);
    } else {
      j := n - 1;
    }
  }

  /** The INSERT into the table was answered with success, and the row it added has this id. */
  ghost predicate Won(base: Tables, s: System, i: nat, name: string, id: int)
    requires AllConsistent(base) && name in base
  {
    && i < |s.answers| && Into(s.answers[i].query, name) && s.answers[i].outcome == Done(true)
    && s.answers[i].at < |s.writes| && LastId(TableAt(base, s.writes, s.answers[i].at + 1, name), id)
  }

  /** The last row of the table has this id. */
  ghost predicate LastId(t: LoadedTable, id: int) {
    && t.rows != [] && ValidRow(t.schema, t.rows[|t.rows| - 1])
    && Id(t.schema, t.rows[|t.rows| - 1]) == id
  }

  /** The answered INSERT into the table names this id. */
  ghost predicate Asked(base: Tables, s: System, i: nat, name: string, id: int)
    requires name in base
  {
    && i < |s.answers| && Into(s.answers[i].query, name)
    && Names(base[name].schema, s.answers[i].query.value.values, id)
  }

  /** The INSERT names this id and was answered with success. */
  ghost predicate Granted(base: Tables, s: System, i: nat, name: string, id: int)
    requires name in base
  {
    Asked(base, s, i, name, id) && s.answers[i].outcome == Done(true)
  }

  /** Of the INSERTs into a table of one id that was absent at the start, at any moment of any run: once any
      has been answered, exactly one INSERT has been answered with success for this id, and the others that
      name it have been answered with failure. */
  lemma OneWinner(base: Tables, states: seq<System>, moves: seq<Move>, n: nat, name: string, id: int, i: nat)
    requires IsSystemRun(states, moves) && InitialSystem(states[0], base) && n < |states|
    requires name in base && id !in base[name].index && Asked(base, states[n], i, name, id)
    ensures exists w: nat :: w <= i && Won(base, states[n], w, name, id)
    ensures forall v: nat, w: nat :: Won(base, states[n], v, name, id) && Won(base, states[n], w, name, id) ==> v == w
    ensures states[n].answers[i].outcome == Done(Won(base, states[n], i, name, id))
  {
    hide AllConsistent, TableAt, Names, Wins, AnyWriting, InRealTime, Reply, Won, InitialSystem, Advance;
    InitialConsistent(states[0], base);
    var s := states[n];
    var a := s.answers[i];
    Serializable(base, states, moves, n);
    assert Right(base, s.writes, a);
    IdsAfter(base, s.writes, a.at, name, id);
    var k := SomeWinner(base, s.writes, a.at + 1, name, id);
    WritersGrow(s.answers, i, i + 1);
    var w := AnswerAt(s.answers, i + 1, k);
    WinsIsInto(base, s.writes, k, name, id);
    WonIsWins(base, s, w, name, id);
    OneSuccess(base, states, moves, n, name, id);
    AskedIsTold(base, s, i, name, id);
  }

  lemma WinsIsInto(base: Tables, writes: seq<Option<Query>>, k: nat, name: string, id: int)
    requires AllConsistent(base) && k < |writes| && name in base && Wins(base, writes, k, name, id)
    ensures Into(writes[k], name)
  {
  }

  /** At most one INSERT that names an id is ever answered with success, whatever the table held. */
  lemma OneSuccess(base: Tables, states: seq<System>, moves: seq<Move>, n: nat, name: string, id: int)
    requires IsSystemRun(states, moves) && InitialSystem(states[0], base) && n < |states| && name in base
    ensures forall v: nat, w: nat :: Won(base, states[n], v, name, id) && Won(base, states[n], w, name, id) ==> v == w
    ensures forall v: nat, w: nat :: Granted(base, states[n], v, name, id) && Granted(base, states[n], w, name, id) ==> v == w
  {
    hide AllConsistent, TableAt, Names, Wins, AnyWriting, InRealTime, Right, Won, InitialSystem, Advance;
    InitialConsistent(states[0], base);
    var s := states[n];
    Serializable(base, states, moves, n);
    forall v: nat, w: nat | Won(base, s, v, name, id) && Won(base, s, w, name, id)
      ensures v == w
    {
      WinnersAgree(base, s, v, w, name, id);
    }
    forall v: nat | Granted(base, s, v, name, id)
      ensures Won(base, s, v, name, id)
    {
      AskedIsTold(base, s, v, name, id);
    }
  }

  /** An id that is there from the start is refused every time. */
  lemma TakenIdFails(base: Tables, states: seq<System>, moves: seq<Move>, n: nat, name: string, id: int, i: nat)
    requires IsSystemRun(states, moves) && InitialSystem(states[0], base) && n < |states|
    requires name in base && id in base[name].index && Asked(base, states[n], i, name, id)
    ensures states[n].answers[i].outcome == Done(false)
  {
    hide AllConsistent, TableAt, Names, Wins, AnyWriting, InRealTime, Won, InitialSystem, Advance, InOrder, Reply;
    InitialConsistent(states[0], base);
    var s := states[n];
    Serializable(base, states, moves, n);
    assert Right(base, s.writes, s.answers[i]);
    AskedIsTold(base, s, i, name, id);
    if Won(base, s, i, name, id) {
      WonIsInto(base, s, i, name, id);
      WonIsWins(base, s, i, name, id);
      TableAtStart(base, s.writes, name);
      IdsStay(base, s.writes, 0, s.answers[i].at, name, id);
      IdsAfter(base, s.writes, s.answers[i].at, name, id);
    }
  }

  lemma WonIsInto(base: Tables, s: System, w: nat, name: string, id: int)
    requires AllConsistent(base) && name in base && Won(base, s, w, name, id)
    ensures w < |s.answers| && Into(s.answers[w].query, name)
  {
  }

  /** An INSERT at its place, by the rows: its answer and the row it added. */
  lemma WonIsWins(base: Tables, s: System, w: nat, name: string, id: int)
    requires AllConsistent(base) && name in base && w < |s.answers| && Into(s.answers[w].query, name)
    requires Right(base, s.writes, s.answers[w])
    ensures s.answers[w].at < |s.writes|
    ensures Won(base, s, w, name, id) <==> Wins(base, s.writes, s.answers[w].at, name, id)
  {
    hide AllConsistent, Serial, ValidRow, Id;
    var a := s.answers[w];
    TableAfter(base, s.writes, a.at, name);
  }

  /** An INSERT that names the id is answered with success exactly if it won. */
  lemma AskedIsTold(base: Tables, s: System, w: nat, name: string, id: int)
    requires AllConsistent(base) && name in base && Asked(base, s, w, name, id)
    requires Right(base, s.writes, s.answers[w])
    ensures s.answers[w].outcome == Done(Won(base, s, w, name, id))
  {
    hide AllConsistent, Serial, ValidRow, Id, Won;
    NamedRow(base[name].schema, s.answers[w].query.value.values, id);
    WonIsWins(base, s, w, name, id);
  }

  lemma WinnersAgree(base: Tables, s: System, v: nat, w: nat, name: string, id: int)
    requires AllConsistent(base) && name in base && InOrder(s.answers)
    requires forall i :: 0 <= i < |s.answers| ==> Right(base, s.writes, s.answers[i])
    requires Won(base, s, v, name, id) && Won(base, s, w, name, id)
    ensures v == w
  {
    hide AllConsistent, Wins, Right;
    if v < w {
      LaterLoses(base, s, v, w, name, id);
    } else if w < v {
      LaterLoses(base, s, w, v, name, id);
    }
  }

  lemma LaterLoses(base: Tables, s: System, v: nat, w: nat, name: string, id: int)
    requires AllConsistent(base) && name in base && InOrder(s.answers) && v < w && Won(base, s, v, name, id)
    requires forall i :: 0 <= i < |s.answers| ==> Right(base, s.writes, s.answers[i])
    ensures !Won(base, s, w, name, id)
  {
    hide AllConsistent, TableAt, Wins, Won, Reply;
    if Won(base, s, w, name, id) {
      WonIsInto(base, s, v, name, id);
      WonIsInto(base, s, w, name, id);
      assert Right(base, s.writes, s.answers[v]) && Right(base, s.writes, s.answers[w]);
      WonIsWins(base, s, v, name, id);
      WonIsWins(base, s, w, name, id);
      var j, k := s.answers[v].at, s.answers[w].at;
      WritersGrow(s.answers, v, w);
      IdsAfter(base, s.writes, j, name, id);
      IdsStay(base, s.writes, j + 1, k, name, id);
      IdsAfter(base, s.writes, k, name, id);
    }
  }
}

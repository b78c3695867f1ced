/** What the answers of a run say about the rows of the tables.

  `Serializable` compares every answer with the serial execution by the code's own functions.  Here the
  serial execution is a history of table contents, one after every request with the write lock, and an
  answer is judged by the rows of that history alone.
 */
module Answers {
  import opened Common
  import opened Csv
  import opened TableModel
  import opened TableMeaning
  import opened SqlGrammar
  import DbGuard
  import opened Statements
  import opened Database
  import opened GuardedSystem
  import opened Serializability

  /** The statement is an INSERT into this table. */
  predicate Into(q: Option<Query>, name: string) {
    q.Some? && q.value.InsertQuery? && q.value.table == name
  }

  /** What a statement may do to one table: an acceptable INSERT into it adds the row of its values, and
      nothing else changes anything. */
  ghost predicate TableStep(t: Table, u: Table, q: Option<Query>, name: string)
    requires Consistent(t)
  {
    if Into(q, name) && Acceptable(t, q.value.values) then Consistent(u) && Adds(t, u, q.value.values) else u == t
  }

  ghost predicate TablesStep(db: Tables, next: Tables, q: Option<Query>)
    requires AllConsistent(db)
  {
    next.Keys == db.Keys && forall name :: name in db ==> TableStep(db[name], next[name], q, name)
  }

  /** The contents of the tables after every statement. */
  ghost predicate IsHistory(base: Tables, writes: seq<Option<Query>>, history: seq<Tables>) {
    && |history| == |writes| + 1 && history[0] == base
    && (forall k :: 0 <= k < |history| ==> AllConsistent(history[k]))
    && forall k :: 0 <= k < |writes| ==> TablesStep(history[k], history[k + 1], writes[k])
  }

  /** The answer fits the tables: a SELECT gets the rows it asks for, an INSERT is told whether it was
      acceptable, and everything without a table or without a parse is refused. */
  ghost predicate Fits(db: Tables, q: Option<Query>, outcome: Outcome)
    requires AllConsistent(db)
  {
    match q
    case None => outcome == Refused
    case Some(SelectQuery(name, condition)) =>
      if name in db then outcome.Rows? && IsSelection(db[name], condition, outcome.rows) else outcome == Refused
    case Some(InsertQuery(name, values)) =>
      if name in db then outcome == Done(Acceptable(db[name], values)) else outcome == Refused
  }

  lemma ReplyFits(db: Tables, q: Option<Query>)
    requires AllConsistent(db)
    ensures Fits(db, q, Reply(db, q))
  {
    hide Consistent, Select, Accepted, IsSelection, Acceptable;
    if q.Some? && q.value.table in db {
      if q.value.SelectQuery? {
        SelectMeaning(db[q.value.table], q.value.condition);
      } else {
        InsertMeaning(db[q.value.table], q.value.values);
      }
    }
  }

  lemma InsertTableStep(t: LoadedTable, q: Option<Query>, name: string)
    requires Consistent(t) && Into(q, name)
    ensures TableStep(t, Insert(t, q.value.values), q, name)
  {
    hide Consistent, Acceptable, Adds, Insert;
    InsertMeaning(t, q.value.values);
    InsertConsistent(t, q.value.values);
  }

  lemma EffectIsStep(db: Tables, q: Option<Query>)
    requires AllConsistent(db)
    ensures TablesStep(db, Effect(db, q), q)
  {
    hide Consistent, TableStep, Insert;
    forall name | name in db
      ensures TableStep(db[name], Effect(db, q)[name], q, name)
    {
      if Into(q, name) {
        InsertTableStep(db[name], q, name);
      } else {
        SameTable(db[name], q, name);
      }
    }
  }

  lemma SameTable(t: LoadedTable, q: Option<Query>, name: string)
    requires Consistent(t) && !Into(q, name)
    ensures TableStep(t, t, q, name)
  {
  }

  ghost function History(base: Tables, writes: seq<Option<Query>>): (h: seq<Tables>)
    requires AllConsistent(base)
    ensures |h| == |writes| + 1 && forall k :: 0 <= k < |h| ==> h[k] == Serial(base, writes[..k])
  {
    seq(|writes| + 1, k requires 0 <= k <= |writes| => Serial(base, writes[..k]))
  }

  lemma SerialHistory(base: Tables, writes: seq<Option<Query>>)
    requires AllConsistent(base)
    ensures IsHistory(base, writes, History(base, writes))
  {
    hide AllConsistent, TablesStep, Effect;
    var h := History(base, writes);
    forall k | 0 <= k < |writes|
      ensures TablesStep(h[k], h[k + 1], writes[k])
    {
      assert writes[..k + 1] == writes[..k] + [writes[k]];
      SerialStep(base, writes[..k], writes[k]);
      EffectIsStep(h[k], writes[k]);
    }
    assert writes[..0] == [];
    SerialStart(base);
  }

  lemma SerialStart(base: Tables)
    requires AllConsistent(base)
    ensures Serial(base, []) == base
  {
  }

  /** Serializability in terms of rows.  In every state of every run there is a history of the tables from
      the base to what they are whenever nobody is writing, in which every answer fits the tables at its
      place. */
  lemma RunHasHistory(base: Tables, states: seq<System>, moves: seq<Move>, n: nat) returns (history: seq<Tables>)
    requires IsSystemRun(states, moves) && InitialSystem(states[0], base) && n < |states|
    ensures history == History(base, states[n].writes) && IsHistory(base, states[n].writes, history)
    ensures forall i :: 0 <= i < |states[n].answers| ==>
      var a := states[n].answers[i];
      && a.at < |history| && Fits(history[a.at], a.query, a.outcome)
      && (a.lock.Write? ==> a.at + 1 < |history| && states[n].writes[a.at] == a.query)
      && (a.lock.Read? ==> !IsInsert(a.query))
    ensures InRealTime(states[n].answers) && InOrder(states[n].answers)
    ensures !AnyWriting(states[n].guard) ==> states[n].tables == history[|states[n].writes|]
  {
    hide AllConsistent, InRealTime, InOrder, AnyWriting, Writers, Fits, IsHistory, Reply, Serial;
    var s := states[n];
    Serializable(base, states, moves, n);
    history := History(base, s.writes);
    SerialHistory(base, s.writes);
    assert s.writes[..|s.writes|] == s.writes;
    forall i | 0 <= i < |s.answers|
      ensures var a := s.answers[i];
        && a.at < |history| && Fits(history[a.at], a.query, a.outcome)
        && (a.lock.Write? ==> a.at + 1 < |history| && s.writes[a.at] == a.query)
        && (a.lock.Read? ==> !IsInsert(a.query))
    {
      assert Right(base, s.writes, s.answers[i]);
      ReplyFits(history[s.answers[i].at], s.answers[i].query);
    }
  }

  /** An INSERT is answered with success exactly if the table has one row more after it than before, which
      is the case exactly if it was acceptable, and with failure exactly if the table is the same. */
  ghost predicate Told(t: Table, u: Table, values: Row, outcome: Outcome) {
    && Consistent(t) && outcome.Done?
    && (outcome == Done(true) <==> |u.rows| == |t.rows| + 1)
    && (outcome == Done(true) <==> Acceptable(t, values))
    && (outcome == Done(true) ==> Adds(t, u, values))
    && (outcome == Done(false) <==> u == t)
  }

  lemma FittingIsTold(t: Table, u: Table, q: Option<Query>, name: string, outcome: Outcome)
    requires Consistent(t) && Into(q, name) && TableStep(t, u, q, name)
    requires outcome == Done(Acceptable(t, q.value.values))
    ensures Told(t, u, q.value.values, outcome)
  {
    hide Consistent, Acceptable, Fills, EncodeRow;
  }

  ghost predicate ToldAt(h: seq<Tables>, a: Answer, name: string)
    requires Into(a.query, name)
  {
    && a.at + 1 < |h| && name in h[a.at] && name in h[a.at + 1]
    && Told(h[a.at][name], h[a.at + 1][name], a.query.value.values, a.outcome)
  }

  lemma InsertAnswer(base: Tables, states: seq<System>, moves: seq<Move>, n: nat, i: nat, name: string)
    requires IsSystemRun(states, moves) && InitialSystem(states[0], base) && n < |states|
    requires i < |states[n].answers| && name in base && Into(states[n].answers[i].query, name)
    ensures ToldAt(History(base, states[n].writes), states[n].answers[i], name)
  {
    hide AllConsistent, InRealTime, InOrder, AnyWriting, Serial, ToldAt, Advance, InitialSystem, IsHistory, Fits;
    InitialConsistent(states[0], base);
    var h := RunHasHistory(base, states, moves, n);
    var a := states[n].answers[i];
    SerialKeys(base, states[n].writes, a.at);
    FittingAnswer(base, states[n].writes, h, a, name);
  }

  lemma FittingAnswer(base: Tables, writes: seq<Option<Query>>, h: seq<Tables>, a: Answer, name: string)
    requires IsHistory(base, writes, h) && a.at + 1 < |h| && writes[a.at] == a.query && Into(a.query, name)
    requires AllConsistent(h[a.at]) && Fits(h[a.at], a.query, a.outcome) && name in h[a.at]
    ensures ToldAt(h, a, name)
  {
    hide AllConsistent, TableStep, Told, Acceptable, IsSelection, Consistent, Loaded, ValidRows;
    AllAre(h[a.at], name);
    assert TablesStep(h[a.at], h[a.at + 1], a.query);
    FittingIsTold(h[a.at][name], h[a.at + 1][name], a.query, name, a.outcome);
  }

  lemma InitialConsistent(s: System, base: Tables)
    requires InitialSystem(s, base)
    ensures AllConsistent(base)
  {
  }

  lemma AllAre(db: Tables, name: string)
    requires AllConsistent(db) && name in db
    ensures Consistent(db[name])
  {
  }

  lemma SerialKeys(base: Tables, writes: seq<Option<Query>>, k: nat)
    requires AllConsistent(base) && k <= |writes|
    ensures History(base, writes)[k].Keys == base.Keys
  {
  }
}

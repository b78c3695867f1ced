/** The loaded tables by name, and what a parsed statement does to them: src/server/request/sql_service.c
    with src/index/db_context.c.

  Every table there is has been loaded; a statement that names another one fails.
 */
module Database {
  import opened Common
  import opened Csv
  import opened TableModel
  import opened SqlGrammar
  import opened Statements

  type Tables = map<string, LoadedTable>

  ghost predicate AllConsistent(db: Tables) {
    forall name :: name in db ==> Consistent(db[name])
  }

  ghost predicate SameSchemas(db: Tables, base: Tables) {
    db.Keys == base.Keys && forall name :: name in base ==> db[name].schema == base[name].schema
  }

  /** What a request is answered: the rows of a SELECT, whether an INSERT succeeded, or an error before
      either began. */
  datatype Outcome = Rows(rows: Option<seq<Row>>) | Done(ok: bool) | Refused

  // ---------------------------------------------------------------- statements in one piece

  /** The answer to a statement; no query is a text that does not parse. */
  ghost function Reply(db: Tables, q: Option<Query>): Outcome
    requires AllConsistent(db)
  {
    match q
    case None => Refused
    case Some(SelectQuery(name, condition)) => if name in db then Rows(Select(db[name], condition)) else Refused
    case Some(InsertQuery(name, values)) => if name in db then Done(Accepted(db[name], values).Some?) else Refused
  }

  /** The tables after a statement. */
  ghost function Effect(db: Tables, q: Option<Query>): Tables {
    match q
    case None => db
    case Some(SelectQuery(_, _)) => db
    case Some(InsertQuery(name, values)) =>
      if name in db then
        AddedLoaded(db[name], values);
        db[name := Insert(db[name], values)]
      else db
  }

  lemma AddedLoaded(t: LoadedTable, values: Row)
    ensures Loaded(Insert(t, values))
  {
  }

  lemma InsertConsistent(t: LoadedTable, values: Row)
    requires Consistent(t)
    ensures Consistent(Insert(t, values)) && Insert(t, values).schema == t.schema
  {
    if Accepted(t, values).Some? {
      hide Consistent;
      AddedConsistent(t, Accepted(t, values).value);
    }
  }

  lemma EffectConsistent(db: Tables, q: Option<Query>)
    requires AllConsistent(db)
    ensures AllConsistent(Effect(db, q)) && SameSchemas(Effect(db, q), db)
  {
    hide Consistent, Insert, Loaded;
    if q.Some? && q.value.InsertQuery? && q.value.table in db {
      InsertConsistent(db[q.value.table], q.value.values);
    }
  }

  /** The tables after the statements, one at a time. */
  ghost function Serial(base: Tables, writes: seq<Option<Query>>): (db: Tables)
    requires AllConsistent(base)
    ensures AllConsistent(db) && SameSchemas(db, base)
  {
    if writes == [] then base
    else
      var n := |writes| - 1;
      EffectConsistent(Serial(base, writes[..n]), writes[n]);
      Effect(Serial(base, writes[..n]), writes[n])
  }

  lemma SerialStep(base: Tables, writes: seq<Option<Query>>, q: Option<Query>)
    requires AllConsistent(base)
    ensures Serial(base, writes + [q]) == Effect(Serial(base, writes), q)
  {
    hide Effect, AllConsistent;
    assert (writes + [q])[..|writes|] == writes;
  }

  // ---------------------------------------------------------------- statements in small steps

  function FirstWork(q: Option<Query>): Work {
    if q.Some? && q.value.InsertQuery? then InsertStart else SelectStart
  }

  /** sql_service_execute, one access to the tables as they are now. */
  ghost function StatementStep(db: Tables, q: Option<Query>, w: Work): (Tables, Work) {
    match q
    case None => (db, Failed)
    case Some(SelectQuery(name, condition)) => (db, if name in db then SelectStep(db[name], condition, w) else Failed)
    case Some(InsertQuery(name, values)) =>
      if name in db then
        var (t, next) := InsertStep(db[name], values, w);
        (db[name := t], next)
      else (db, Failed)
  }

  function OutcomeOf(w: Work): Outcome {
    match w
    case Selected(result) => Rows(result)
    case Inserted(ok) => Done(ok)
    case _ => Refused
  }

  /** A statement that started on the tables `before` and has brought them to `now`. */
  ghost predicate OnCourse(before: Tables, now: Tables, q: Option<Query>, w: Work)
    requires AllConsistent(before)
  {
    match q
    case None => now == before && (w == FirstWork(q) || w.Failed?)
    case Some(SelectQuery(name, condition)) =>
      now == before && if name in before then SelectOnCourse(before[name], condition, w) else w == FirstWork(q) || w.Failed?
    case Some(InsertQuery(name, values)) =>
      if name in before then
        && name in now && now == before[name := now[name]]
        && InsertOnCourse(before[name], now[name], values, w)
      else now == before && (w == FirstWork(q) || w.Failed?)
  }

  lemma StartsOnCourse(db: Tables, q: Option<Query>)
    requires AllConsistent(db)
    ensures OnCourse(db, db, q, FirstWork(q))
  {
    if q.Some? && q.value.table in db {
      assert db[q.value.table := db[q.value.table]] == db;
    }
  }

  lemma InsertStaysOnCourse(before: Tables, now: Tables, name: string, values: Row, w: Work)
    requires AllConsistent(before) && OnCourse(before, now, Some(InsertQuery(name, values)), w) && name in before
    ensures name in now
    ensures var (t, next) := InsertStep(now[name], values, w);
            OnCourse(before, now[name := t], Some(InsertQuery(name, values)), next)
  {
    hide AllConsistent, InsertOnCourse, InsertStep, Loaded;
    InsertStepOnCourse(before[name], now[name], values, w);
    var t := InsertStep(now[name], values, w).0;
    assert now[name := t] == before[name := t];
  }

  lemma StepStaysOnCourse(before: Tables, now: Tables, q: Option<Query>, w: Work)
    requires AllConsistent(before) && OnCourse(before, now, q, w)
    ensures var (db, next) := StatementStep(now, q, w); OnCourse(before, db, q, next)
  {
    hide Consistent, SelectOnCourse, InsertOnCourse, SelectStep, InsertStep, Loaded;
    if q.Some? && q.value.table in before {
      if q.value.SelectQuery? {
        SelectStepOnCourse(before[q.value.table], q.value.condition, w);
      } else {
        InsertStaysOnCourse(before, now, q.value.table, q.value.values, w);
      }
    }
  }

  /** Where the course ends: the answer and the tables of the statement in one piece. */
  lemma CourseEnds(before: Tables, now: Tables, q: Option<Query>, w: Work)
    requires AllConsistent(before) && OnCourse(before, now, q, w) && Finished(w)
    ensures OutcomeOf(w) == Reply(before, q) && now == Effect(before, q)
  {
    hide Consistent, Select, Accepted, Insert;
  }

  predicate IsInsert(q: Option<Query>) {
    q.Some? && q.value.InsertQuery?
  }

  /** Everything but an INSERT leaves the tables alone, at every step. */
  lemma OnlyInsertsWrite(db: Tables, q: Option<Query>, w: Work)
    requires !IsInsert(q)
    ensures StatementStep(db, q, w).0 == db && Effect(db, q) == db
  {
  }
}

/** Every request can be answered: from any state of any run, and whatever the other threads are doing, some
    schedule takes a request through the guard and its statement to its answer.
 */
module SystemProgress {
  import opened Common
  import opened SqlGrammar
  import opened DbGuard
  import opened Statements
  import opened Database
  import opened GuardedSystem
  import opened SystemSteps
  import opened Serializability
  import SqlClassifier
  import TableModel

  // ---------------------------------------------------------------- statements come to an end

  /** How many accesses a statement still makes on a table of n rows, at most. */
  function WorkLeft(n: nat, w: Work): nat {
    match w
    case SelectStart => n + 2
    case ScanAll(pos, _) => if pos <= n then n - pos + 1 else 1
    case ScanColumn(_, pos, _) => if pos <= n then n - pos + 1 else 1
    case FetchRow(_) => 1
    case InsertStart => 6
    case LookUp(_, _) => 5
    case AppendFile(_, _) => 4
    case AppendMemory(_, _) => 3
    case AddToIndex(_, _, _) => 2
    case RaiseNextId(_, _) => 1
    case Selected(_) => 0
    case Inserted(_) => 0
    case Failed => 0
  }

  function RowCount(db: Tables, q: Option<Query>): nat {
    if q.Some? && q.value.table in db then |db[q.value.table].rows| else 0
  }

  lemma SelectComesNearer(t: TableModel.Table, condition: Option<TableModel.Condition>, w: Work)
    requires TableModel.Consistent(t) && SelectOnCourse(t, condition, w) && !Finished(w)
    ensures WorkLeft(|t.rows|, SelectStep(t, condition, w)) < WorkLeft(|t.rows|, w)
  {
    hide TableModel.Consistent, TableModel.Matching, TableModel.FindColumn, TableModel.IsInteger, TableModel.Atoi;
  }

  lemma InsertComesNearer(before: LoadedTable, now: LoadedTable, values: seq<string>, w: Work, m: nat, n: nat)
    requires InsertOnCourse(before, now, values, w) && !Finished(w)
    ensures WorkLeft(n, InsertStep(now, values, w).1) < WorkLeft(m, w)
  {
  }

  /** Every access of a statement brings it nearer to its end. */
  lemma StatementComesNearer(before: Tables, now: Tables, q: Option<Query>, w: Work)
    requires AllConsistent(before) && OnCourse(before, now, q, w) && !Finished(w)
    ensures var (db, next) := StatementStep(now, q, w); WorkLeft(RowCount(db, q), next) < WorkLeft(RowCount(now, q), w)
  {
    hide TableModel.Consistent, SelectOnCourse, InsertOnCourse, SelectStep, InsertStep, Loaded;
    if q.Some? && q.value.table in before {
      var name := q.value.table;
      if q.value.SelectQuery? {
        SelectComesNearer(before[name], q.value.condition, w);
      } else {
        var t := InsertStep(now[name], q.value.values, w).0;
        InsertComesNearer(before[name], now[name], q.value.values, w, |now[name].rows|, |t.rows|);
      }
    }
  }

  // ---------------------------------------------------------------- runs without new requests

  /** A run in which no idle thread takes up a text. */
  ghost predicate Serves(states: seq<System>, moves: seq<Move>) {
    && IsSystemRun(states, moves)
    && forall i :: 0 <= i < |moves| ==> !states[i].guard.pc[moves[i].thread].Idle?
  }

  lemma ServesFirst(s: System, m: Move, states: seq<System>, moves: seq<Move>)
    requires m.thread in s.guard.pc && m.thread in s.job && !s.guard.pc[m.thread].Idle?
    requires Serves(states, moves) && states[0] == Advance(s, m)
    ensures Serves([s] + states, [m] + moves)
  {
    hide Advance;
  }

  lemma ServesJoin(states: seq<System>, moves: seq<Move>, more: seq<System>, turns: seq<Move>)
    requires Serves(states, moves) && Serves(more, turns) && more[0] == states[|moves|]
    ensures Serves(states + more[1..], moves + turns) && (states + more[1..])[|moves + turns|] == more[|turns|]
  {
    hide Advance;
    var all, both := states + more[1..], moves + turns;
    forall i | 0 <= i < |both|
      ensures both[i].thread in all[i].guard.pc && both[i].thread in all[i].job
      ensures all[i + 1] == Advance(all[i], both[i]) && !all[i].guard.pc[both[i].thread].Idle?
    {
      if i >= |moves| {
        assert all[i] == more[i - |moves|] && both[i] == turns[i - |moves|];
      }
    }
  }

  predicate SameRequest(a: Job, b: Job) {
    a.lock == b.lock && a.query == b.query && a.began == b.began
  }

  predicate AnswerTo(a: Answer, j: Job) {
    a.lock == j.lock && a.query == j.query && a.began == j.began
  }

  function Busy(s: System): set<Thread> {
    set t | t in s.guard.pc && !s.guard.pc[t].Idle?
  }

  /** The requests that are still open are those of before. */
  ghost predicate Carries(s: System, later: System) {
    && later.guard.pc.Keys == s.guard.pc.Keys == later.job.Keys == s.job.Keys
    && s.answers <= later.answers && Busy(later) <= Busy(s)
    && forall t :: t in Busy(later) ==> SameRequest(s.job[t], later.job[t])
  }

  lemma CarriesOn(a: System, b: System, c: System)
    requires Carries(a, b) && Carries(b, c)
    ensures Carries(a, c)
  {
  }

  /** A step of a thread that is not idle keeps all open requests. */
  lemma StepCarries(s: System, m: Move)
    requires m.thread in s.guard.pc && m.thread in s.job && s.job.Keys == s.guard.pc.Keys && !s.guard.pc[m.thread].Idle?
    ensures Carries(s, Advance(s, m))
  {
    var after := Advance(s, m);
    OneThreadMoves(s, m);
    SameAfter(s, m);
    hide Advance;
    forall t | t in Busy(after)
      ensures t in Busy(s) && SameRequest(s.job[t], after.job[t])
    {
      if t != m.thread {
        assert after.guard.pc[t] == s.guard.pc[t];
      }
    }
  }

  lemma SameAfter(s: System, m: Move)
    requires m.thread in s.guard.pc && m.thread in s.job && !s.guard.pc[m.thread].Idle?
    ensures m.thread in Advance(s, m).job && SameRequest(s.job[m.thread], Advance(s, m).job[m.thread])
  {
    hide ParseSql, SqlClassifier.Classify, StatementStep, Next, FirstWork, Finished;
  }

  // ---------------------------------------------------------------- a request that holds the lock

  ghost predicate Reachable(base: Tables, s: System) {
    AllConsistent(base) && SystemInv(base, s)
  }

  lemma ReachableKeys(base: Tables, s: System)
    requires Reachable(base, s)
    ensures s.job.Keys == s.guard.pc.Keys
  {
    hide AllConsistent, DbGuard.Inv, TablesInv, AnswersInv, AllThreads;
  }

  lemma AdvanceReachable(base: Tables, s: System, m: Move)
    requires Reachable(base, s) && m.thread in s.guard.pc
    ensures m.thread in s.job && Reachable(base, Advance(s, m))
  {
    hide AllConsistent, SystemInv, Advance;
    ReachableKeys(base, s);
    AdvanceInv(base, s, m);
  }

  function LeftToDo(s: System, t: Thread): nat
    requires t in s.job
  {
    WorkLeft(RowCount(s.tables, s.job[t].query), s.job[t].work)
  }

  /** The statement of a thread that holds a lock is on its way. */
  lemma HolderOnCourse(base: Tables, s: System, t: Thread)
    requires Reachable(base, s) && t in s.guard.pc && HoldsLock(s.guard.pc[t]) && !Finished(s.job[t].work)
    ensures exists before :: AllConsistent(before) && OnCourse(before, s.tables, s.job[t].query, s.job[t].work)
  {
    hide AllConsistent, OnCourse, AnswersInv, DbGuard.Inv, Finished;
    ThreadOf(base, s, t);
    Separation(s.guard, t);
    if s.guard.pc[t].Reading? {
      assert OnCourse(Serial(base, s.writes), s.tables, s.job[t].query, s.job[t].work);
    } else {
      assert OnCourse(Serial(base, s.writes[..s.job[t].at]), s.tables, s.job[t].query, s.job[t].work);
    }
  }

  lemma AccessComesNearer(base: Tables, s: System, m: Move)
    requires Reachable(base, s) && m.thread in s.guard.pc && m.thread in s.job
    requires HoldsLock(s.guard.pc[m.thread]) && !Finished(s.job[m.thread].work)
    ensures m.thread in Advance(s, m).job && Advance(s, m).guard == s.guard && Advance(s, m).answers == s.answers
    ensures LeftToDo(Advance(s, m), m.thread) < LeftToDo(s, m.thread)
  {
    hide AllConsistent, SystemInv, OnCourse, StatementStep, WorkLeft, RowCount, Finished;
    var j := s.job[m.thread];
    HolderOnCourse(base, s, m.thread);
    var before: Tables :| AllConsistent(before) && OnCourse(before, s.tables, j.query, j.work);
    StatementComesNearer(before, s.tables, j.query, j.work);
  }

  lemma LastStep(s: System, m: Move)
    requires m.thread in s.guard.pc && m.thread in s.job
    requires HoldsLock(s.guard.pc[m.thread]) && Finished(s.job[m.thread].work)
    ensures m.thread in Advance(s, m).guard.pc && Advance(s, m).guard.pc[m.thread].Idle?
    ensures Advance(s, m).answers == s.answers + [Conclude(s.job[m.thread])]
    ensures Busy(Advance(s, m)) == Busy(s) - {m.thread}
  {
    hide Finished, OutcomeOf;
  }

  /** The thread has been answered and is idle again. */
  ghost predicate Answered(s: System, later: System, t: Thread)
    requires t in s.job
  {
    && t in later.guard.pc && later.guard.pc[t].Idle?
    && |later.answers| > |s.answers| && AnswerTo(later.answers[|later.answers| - 1], s.job[t])
  }

  lemma {:induction false} HolderFinishes(base: Tables, s: System, t: Thread) returns (states: seq<System>, moves: seq<Move>)
    requires Reachable(base, s) && t in s.guard.pc && t in s.job && HoldsLock(s.guard.pc[t])
    ensures Serves(states, moves) && states[0] == s
    ensures var last := states[|moves|];
            Reachable(base, last) && Carries(s, last) && Answered(s, last, t) && Busy(last) == Busy(s) - {t}
    decreases LeftToDo(s, t)
  {
    hide Reachable, Advance, Finished, LeftToDo, OutcomeOf;
    ReachableKeys(base, s);
    var m := Move(t, true, "");
    var after := Advance(s, m);
    AdvanceReachable(base, s, m);
    StepCarries(s, m);
    if Finished(s.job[t].work) {
      LastStep(s, m);
      states, moves := [after], [];
    } else {
      AccessComesNearer(base, s, m);
      SameAfter(s, m);
      states, moves := HolderFinishes(base, after, t);
      CarriesOn(s, after, states[|moves|]);
    }
    ServesFirst(s, m, states, moves);
    states, moves := [s] + states, [m] + moves;
  }

  // ---------------------------------------------------------------- somebody gets the lock

  ghost predicate NoHolder(g: Guard) {
    forall t :: t in g.pc ==> !HoldsLock(g.pc[t])
  }

  /** Nobody but w has writer_active set. */
  predicate NoOtherOwner(g: Guard, w: Thread)
    requires w in g.pc
  {
    g.writerActive == 0 || In(g.pc[w], Owning)
  }

  /** A move of a thread on its way to a lock is its step in the guard. */
  lemma WayStep(base: Tables, s: System, t: Thread)
    requires Reachable(base, s) && t in s.guard.pc && !s.guard.pc[t].Idle? && !HoldsLock(s.guard.pc[t])
    ensures t in s.job && Reachable(base, Advance(s, Move(t, true, "")))
    ensures var after := Advance(s, Move(t, true, ""));
            Carries(s, after) && after.guard == Next(s.guard, t, true) && Busy(after) == Busy(s)
  {
    hide Reachable, Advance, Carries;
    StillBusy(s.guard, t);
    ReachableKeys(base, s);
    var m := Move(t, true, "");
    AdvanceReachable(base, s, m);
    StepCarries(s, m);
    StepChanges(s, m);
  }

  lemma StillBusy(g: Guard, t: Thread)
    requires t in g.pc && !g.pc[t].Idle? && !HoldsLock(g.pc[t])
    ensures !Next(g, t, true).pc[t].Idle?
  {
  }

  lemma ReachableGuard(base: Tables, s: System)
    requires Reachable(base, s)
    ensures DbGuard.Inv(s.guard)
  {
    hide AllConsistent, DbGuard.Inv, TablesInv, AnswersInv, AllThreads;
  }

  /** While a writer waits and nobody else owns writer_active, the steps that help it let nobody else in. */
  lemma HelperLetsNobodyIn(g: Guard, w: Thread, t: Thread)
    requires DbGuard.Inv(g) && WriterWaits(g, w) && NoHolder(g) && NoOtherOwner(g, w) && Helps(g, w, t)
    ensures !g.pc[t].Idle? && w in Next(g, t, true).pc && NoOtherOwner(Next(g, t, true), w)
    ensures NoHolder(Next(g, t, true)) || Next(g, t, true).pc[w].Writing?
  {
    hide Count;
    CountMove(g.pc, w, g.pc[w], Waiting);
  }

  lemma {:induction false} WriterGetsIn(base: Tables, s: System, w: Thread) returns (states: seq<System>, moves: seq<Move>)
    requires Reachable(base, s) && WriterWaits(s.guard, w) && NoHolder(s.guard) && NoOtherOwner(s.guard, w)
    ensures Serves(states, moves) && states[0] == s
    ensures var last := states[|moves|];
            && Reachable(base, last) && Carries(s, last) && w in last.guard.pc && HoldsLock(last.guard.pc[w])
            && Busy(last) == Busy(s)
    decreases ReaderWork(s.guard.pc), WriterRank(s.guard.pc[w]), OwnerWork(s.guard.pc)
  {
    hide Reachable, Advance, ReaderWork, OwnerWork, WriterRank, Helps, DbGuard.Inv, NoHolder, NoOtherOwner, Carries, Next;
    ReachableGuard(base, s);
    var t := HelperExists(s.guard, w);
    HelperLetsNobodyIn(s.guard, w, t);
    HelperProgress(s.guard, w, t);
    NotHolding(s.guard, t);
    WayStep(base, s, t);
    var m := Move(t, true, "");
    var after := Advance(s, m);
    if after.guard.pc[w].Writing? {
      states, moves := [after], [];
    } else {
      states, moves := WriterGetsIn(base, after, w);
      CarriesOn(s, after, states[|moves|]);
    }
    ServesFirst(s, m, states, moves);
    states, moves := [s] + states, [m] + moves;
  }

  lemma NotHolding(g: Guard, t: Thread)
    requires NoHolder(g) && t in g.pc
    ensures !HoldsLock(g.pc[t])
  {
  }

  function ReaderRank(p: Pc): nat {
    match p
    case Retreat => 6
    case CheckActive => 5
    case CheckWaiting => 4
    case Enter => 3
    case RecheckActive => 2
    case RecheckWaiting => 1
    case _ => 0
  }

  lemma ReaderComesNearer(g: Guard, t: Thread)
    requires t in g.pc && GoesToRead(g.pc[t]) && g.writerActive == 0 && g.writersWaiting == 0
    ensures var g' := Next(g, t, true);
      && g'.writerActive == 0 && g'.writersWaiting == 0
      && (g'.pc[t].Reading? || (GoesToRead(g'.pc[t]) && ReaderRank(g'.pc[t]) < ReaderRank(g.pc[t])))
  {
  }

  lemma {:induction false} ReaderGetsIn(base: Tables, s: System, t: Thread) returns (states: seq<System>, moves: seq<Move>)
    requires Reachable(base, s) && t in s.guard.pc && GoesToRead(s.guard.pc[t])
    requires s.guard.writerActive == 0 && s.guard.writersWaiting == 0
    ensures Serves(states, moves) && states[0] == s
    ensures var last := states[|moves|];
            && Reachable(base, last) && Carries(s, last) && t in last.guard.pc && HoldsLock(last.guard.pc[t])
            && Busy(last) == Busy(s)
    decreases ReaderRank(s.guard.pc[t])
  {
    hide Reachable, Advance, ReaderRank, Carries, Next;
    ReaderComesNearer(s.guard, t);
    WayStep(base, s, t);
    CarriedThread(s, Advance(s, Move(t, true, "")), t);
    var m := Move(t, true, "");
    var after := Advance(s, m);
    if after.guard.pc[t].Reading? {
      states, moves := [after], [];
    } else {
      states, moves := ReaderGetsIn(base, after, t);
      CarriesOn(s, after, states[|moves|]);
    }
    ServesFirst(s, m, states, moves);
    states, moves := [s] + states, [m] + moves;
  }

  lemma CarriedThread(s: System, later: System, t: Thread)
    requires Carries(s, later) && t in s.guard.pc
    ensures t in later.guard.pc && t in later.job && t in s.job
    ensures !later.guard.pc[t].Idle? ==> !s.guard.pc[t].Idle? && SameRequest(s.job[t], later.job[t])
    ensures s.answers <= later.answers
  {
    assert t in Busy(later) <==> !later.guard.pc[t].Idle?;
    assert t in Busy(s) <==> !s.guard.pc[t].Idle?;
  }

  /** Some writer that waits and has no other owner beside it, if the guard is taken or asked for. */
  lemma WaitingWriter(g: Guard) returns (w: Thread)
    requires DbGuard.Inv(g) && NoHolder(g) && (g.writerActive != 0 || g.writersWaiting != 0)
    ensures WriterWaits(g, w) && NoOtherOwner(g, w)
  {
    if g.writerActive != 0 {
      w :| w in At(g.pc, Owning);
    } else {
      w :| w in At(g.pc, Waiting);
    }
  }

  /** With the guard free, a busy thread that holds nothing is a reader or about to register. */
  lemma FreeGuard(g: Guard, t: Thread)
    requires DbGuard.Inv(g) && NoHolder(g) && g.writerActive == 0 && g.writersWaiting == 0 && t in g.pc && !g.pc[t].Idle?
    ensures GoesToRead(g.pc[t]) || g.pc[t].Register?
    ensures g.pc[t].Register? ==>
      var g' := Next(g, t, true); WriterWaits(g', t) && NoHolder(g') && NoOtherOwner(g', t)
  {
    CountMove(g.pc, t, g.pc[t], Owning);
    CountMove(g.pc, t, g.pc[t], Waiting);
  }

  /** From every reachable state with an open request, some request gets a lock. */
  lemma SomeoneHolds(base: Tables, s: System) returns (states: seq<System>, moves: seq<Move>, u: Thread)
    requires Reachable(base, s) && Busy(s) != {}
    ensures Serves(states, moves) && states[0] == s
    ensures var last := states[|moves|];
            && Reachable(base, last) && Carries(s, last) && u in last.guard.pc && HoldsLock(last.guard.pc[u])
            && Busy(last) == Busy(s)
  {
    hide Reachable, Advance, Next, NoOtherOwner, DbGuard.Inv, GoesToRead;
    ReachableGuard(base, s);
    ReachableKeys(base, s);
    if t :| t in s.guard.pc && HoldsLock(s.guard.pc[t]) {
      states, moves, u := [s], [], t;
    } else if s.guard.writerActive != 0 || s.guard.writersWaiting != 0 {
      u := WaitingWriter(s.guard);
      states, moves := WriterGetsIn(base, s, u);
    } else {
      u :| u in Busy(s);
      FreeGuard(s.guard, u);
      if s.guard.pc[u].Register? {
        WayStep(base, s, u);
        var m := Move(u, true, "");
        states, moves := WriterGetsIn(base, Advance(s, m), u);
        CarriesOn(s, Advance(s, m), states[|moves|]);
        ServesFirst(s, m, states, moves);
        states, moves := [s] + states, [m] + moves;
      } else {
        states, moves := ReaderGetsIn(base, s, u);
      }
    }
  }

  /** From every reachable state with an open request, some open request gets its answer. */
  lemma SomeoneFinishes(base: Tables, s: System) returns (states: seq<System>, moves: seq<Move>, u: Thread)
    requires Reachable(base, s) && Busy(s) != {}
    ensures Serves(states, moves) && states[0] == s && u in Busy(s) && u in s.job
    ensures var last := states[|moves|];
            Reachable(base, last) && Carries(s, last) && Answered(s, last, u) && Busy(last) == Busy(s) - {u}
  {
    hide Reachable, Advance, Carries;
    states, moves, u := SomeoneHolds(base, s);
    var mid := states[|moves|];
    ReachableKeys(base, s);
    ReachableKeys(base, mid);
    CarriedKeys(s, mid);
    CarriedThread(s, mid, u);
    var more, turns := HolderFinishes(base, mid, u);
    CarriesOn(s, mid, more[|turns|]);
    ServesJoin(states, moves, more, turns);
    states, moves := states + more[1..], moves + turns;
  }

  lemma CarriedKeys(s: System, later: System)
    requires Carries(s, later)
    ensures later.guard.pc.Keys == s.guard.pc.Keys
  {
  }

  lemma BusyShrinks(s: System, later: System, u: Thread)
    requires Carries(s, later) && u in Busy(s) && u in s.job && Answered(s, later, u)
    ensures |Busy(later)| < |Busy(s)|
  {
    SubsetCount(Busy(later), Busy(s) - {u});
  }

  /** Every open request can be answered. */
  lemma {:induction false} RequestFinishes(base: Tables, s: System, t: Thread) returns (states: seq<System>, moves: seq<Move>)
    requires Reachable(base, s) && t in s.guard.pc && t in s.job && !s.guard.pc[t].Idle?
    ensures Serves(states, moves) && states[0] == s
    ensures var last := states[|moves|]; Reachable(base, last) && Carries(s, last) && Answered(s, last, t)
    decreases |Busy(s)|
  {
    hide Reachable, Advance, Carries;
    assert t in Busy(s);
    var u;
    states, moves, u := SomeoneFinishes(base, s);
    var mid := states[|moves|];
    BusyShrinks(s, mid, u);
    CarriedThread(s, mid, t);
    if u != t {
      assert t in Busy(mid);
      var more, turns := RequestFinishes(base, mid, t);
      CarriesOn(s, mid, more[|turns|]);
      ServesJoin(states, moves, more, turns);
      states, moves := states + more[1..], moves + turns;
    }
  }

  // ---------------------------------------------------------------- from the text to the answer

  lemma RunReachable(base: Tables, states: seq<System>, moves: seq<Move>, n: nat)
    requires IsSystemRun(states, moves) && InitialSystem(states[0], base) && n < |states|
    ensures Reachable(base, states[n])
  {
    hide AllConsistent, SystemInv, Advance;
    SystemRunInv(base, states, moves, n);
  }

  lemma BeginTakesText(s: System, m: Move)
    requires m.thread in s.guard.pc && m.thread in s.job && s.guard.pc[m.thread].Idle?
    requires SqlClassifier.Classify(m.text).Some?
    ensures var after := Advance(s, m);
      && m.thread in after.guard.pc && !after.guard.pc[m.thread].Idle? && after.answers == s.answers && m.thread in after.job
      && after.job[m.thread].lock == SqlClassifier.Classify(m.text).value
      && after.job[m.thread].query == ParseSql(m.text) && after.job[m.thread].began == |s.answers|
  {
    hide ParseSql, SqlClassifier.Classify, FirstWork;
  }

  lemma RunGoesOn(states: seq<System>, moves: seq<Move>, n: nat, more: seq<System>, turns: seq<Move>)
    requires IsSystemRun(states, moves) && n < |states| && IsSystemRun(more, turns) && more[0] == states[n]
    ensures IsSystemRun(states[..n] + more, moves[..n] + turns)
  {
    hide Advance;
    var all, both := states[..n] + more, moves[..n] + turns;
    forall i | 0 <= i < |both|
      ensures both[i].thread in all[i].guard.pc && both[i].thread in all[i].job && all[i + 1] == Advance(all[i], both[i])
    {
      if i >= n {
        assert all[i] == more[i - n] && both[i] == turns[i - n];
      } else {
        assert all[i] == states[i] && all[i + 1] == states[i + 1] && both[i] == moves[i];
      }
    }
  }

  /** Every request can be answered: from every state of every run, for every thread inside a request, there
      is a continuation without new requests that ends with the answer to it. */
  lemma RequestCanBeAnswered(base: Tables, states: seq<System>, moves: seq<Move>, n: nat, t: Thread)
    returns (more: seq<System>, turns: seq<Move>)
    requires IsSystemRun(states, moves) && InitialSystem(states[0], base) && n < |states|
    requires t in states[n].guard.pc && t in states[n].job && !states[n].guard.pc[t].Idle?
    ensures Serves(more, turns) && more[0] == states[n] && Answered(states[n], more[|turns|], t)
    ensures IsSystemRun(states[..n] + more, moves[..n] + turns)
  {
    hide Reachable, Advance, InitialSystem, Carries, Answered;
    RunReachable(base, states, moves, n);
    more, turns := RequestFinishes(base, states[n], t);
    RunGoesOn(states, moves, n, more, turns);
  }

  /** Every text the classifier knows can be answered: an idle thread takes it up in any state of any run, and
      a continuation ends with the answer to the statement it parses to. */
  lemma TextCanBeAnswered(base: Tables, states: seq<System>, moves: seq<Move>, n: nat, t: Thread, text: string)
    returns (more: seq<System>, turns: seq<Move>)
    requires IsSystemRun(states, moves) && InitialSystem(states[0], base) && n < |states|
    requires t in states[n].guard.pc && states[n].guard.pc[t].Idle? && SqlClassifier.Classify(text).Some?
    ensures IsSystemRun(more, turns) && more[0] == states[n] && turns != [] && turns[0] == Move(t, true, text)
    ensures IsSystemRun(states[..n] + more, moves[..n] + turns)
    ensures var last := more[|turns|];
      && |last.answers| > |states[n].answers| && t in last.guard.pc && last.guard.pc[t].Idle?
      && var a := last.answers[|last.answers| - 1];
         a.lock == SqlClassifier.Classify(text).value && a.query == ParseSql(text) && a.began == |states[n].answers|
  {
    hide Reachable, Advance, InitialSystem, Carries, ParseSql, SqlClassifier.Classify;
    var s, m := states[n], Move(t, true, text);
    RunReachable(base, states, moves, n);
    ReachableKeys(base, s);
    AdvanceReachable(base, s, m);
    BeginTakesText(s, m);
    more, turns := RequestFinishes(base, Advance(s, m), t);
    FirstMove(s, m, more, turns);
    more, turns := [s] + more, [m] + turns;
    RunGoesOn(states, moves, n, more, turns);
  }

  lemma FirstMove(s: System, m: Move, states: seq<System>, moves: seq<Move>)
    requires m.thread in s.guard.pc && m.thread in s.job && IsSystemRun(states, moves) && states[0] == Advance(s, m)
    ensures IsSystemRun([s] + states, [m] + moves)
  {
    hide Advance;
  }
}

/** Every step of every thread keeps the invariant of the guarded system. */
module SystemSteps {
  import opened Common
  import opened SqlGrammar
  import opened DbGuard
  import opened Statements
  import opened Database
  import opened GuardedSystem
  import SqlClassifier

  lemma InitialInv(base: Tables, s: System)
    requires InitialSystem(s, base)
    ensures SystemInv(base, s)
  {
    hide AllConsistent;
    InitInv(s.guard);
  }

  /** A thread that does not move keeps its part. */
  lemma OtherThread(base: Tables, s: System, after: System, u: Thread)
    requires AllConsistent(base) && u in s.guard.pc && u in s.job && u in after.guard.pc && u in after.job
    requires after.guard.pc[u] == s.guard.pc[u] && after.job[u] == s.job[u] && s.answers <= after.answers
    requires s.guard.pc[u].Reading? || s.guard.pc[u].Writing? ==> after.writes == s.writes
    requires s.guard.pc[u].Writing? ==> after.tables == s.tables
    requires ThreadOk(base, s, u)
    ensures ThreadOk(base, after, u)
  {
    hide AllConsistent, OnCourse, Serial, FirstWork, IsInsert;
  }

  /** At most thread t has moved. */
  ghost predicate OneMoves(s: System, after: System, t: Thread) {
    && after.guard.pc.Keys == s.guard.pc.Keys == s.job.Keys == after.job.Keys && s.answers <= after.answers
    && forall u :: u in s.guard.pc && u != t ==> after.guard.pc[u] == s.guard.pc[u] && after.job[u] == s.job[u]
  }

  /** Only the thread that moves needs a look of its own. */
  lemma OtherThreads(base: Tables, s: System, after: System, t: Thread)
    requires AllConsistent(base) && s.job.Keys == s.guard.pc.Keys && AllThreads(base, s) && OneMoves(s, after, t)
    requires after.writes == s.writes ||
             forall u :: u in s.guard.pc && u != t ==> !s.guard.pc[u].Reading? && !s.guard.pc[u].Writing?
    requires after.tables == s.tables || forall u :: u in s.guard.pc && u != t ==> !s.guard.pc[u].Writing?
    requires t in after.guard.pc && t in after.job && ThreadOk(base, after, t)
    ensures AllThreads(base, after)
  {
    hide AllConsistent, ThreadOk;
    forall u | u in after.guard.pc
      ensures ThreadOk(base, after, u)
    {
      if u != t {
        OtherThread(base, s, after, u);
      }
    }
  }

  /** Who writes after a guard step. */
  lemma WritingMove(g: Guard, t: Thread, choice: bool)
    requires DbGuard.Inv(g) && t in g.pc
    ensures var to := Next(g, t, choice).pc[t];
            && (g.pc[t].Writing? ==> AnyWriting(g) && !AnyWriting(Next(g, t, choice)))
            && (g.pc[t].Admit? ==> !AnyWriting(g) && AnyWriting(Next(g, t, choice)))
            && (!g.pc[t].Writing? && !g.pc[t].Admit? ==> !to.Writing? && AnyWriting(Next(g, t, choice)) == AnyWriting(g))
  {
    hide DbGuard.Inv;
    var g' := Next(g, t, choice);
    if In(g.pc[t], SawNoReader) {
      forall u | u in g.pc && u != t
        ensures !g.pc[u].Writing?
      {
        Alone(g, t, u);
      }
    } else if AnyWriting(g) {
      var u :| u in g.pc && g.pc[u].Writing?;
      assert g'.pc[u].Writing?;
    }
    if g.pc[t].Admit? {
      assert g'.pc[t].Writing?;
    }
  }

  /** While a thread reads nobody writes, and a writing or admitted thread is alone. */
  lemma Separation(g: Guard, t: Thread)
    requires DbGuard.Inv(g) && t in g.pc
    ensures g.pc[t].Reading? ==> !AnyWriting(g)
    ensures In(g.pc[t], SawNoReader) ==>
              forall u :: u in g.pc && u != t ==> !g.pc[u].Reading? && !g.pc[u].Writing?
  {
    hide DbGuard.Inv;
    forall u | u in g.pc && u != t
      ensures In(g.pc[t], SawNoReader) ==> !g.pc[u].Reading? && !g.pc[u].Writing?
      ensures g.pc[t].Reading? ==> !g.pc[u].Writing?
    {
      if In(g.pc[t], SawNoReader) {
        Alone(g, t, u);
      } else if g.pc[u].Writing? {
        Alone(g, u, t);
      }
    }
  }

  // ---------------------------------------------------------------- what a step changes

  predicate HoldsLock(p: Pc) {
    p.Reading? || p.Writing?
  }

  /** On the way to a lock, the writer's last step excepted. */
  predicate OnTheWay(p: Pc) {
    !p.Idle? && !HoldsLock(p) && !p.Admit?
  }

  lemma MovedOne(s: System, after: System, t: Thread, choice: bool)
    requires t in s.guard.pc && s.job.Keys == s.guard.pc.Keys && s.answers <= after.answers
    requires after.guard == s.guard || after.guard == Next(s.guard, t, choice)
    requires t in after.job && after.job == s.job[t := after.job[t]]
    ensures OneMoves(s, after, t)
  {
    hide Operation;
  }

  lemma OneThreadMoves(s: System, m: Move)
    requires m.thread in s.guard.pc && m.thread in s.job && s.job.Keys == s.guard.pc.Keys
    ensures OneMoves(s, Advance(s, m), m.thread)
  {
    hide ParseSql, SqlClassifier.Classify, StatementStep, Next, FirstWork, Finished, OutcomeOf, OneMoves;
    var t, lock := m.thread, SqlClassifier.Classify(m.text);
    assert s.job[t := s.job[t]] == s.job;
    MovedOne(s, Advance(s, m), t, if s.guard.pc[t].Idle? && lock.Some? then lock.value.Read? else m.choice);
  }

  /** Where a step on the way to a lock leads. */
  lemma WayOn(g: Guard, t: Thread, choice: bool)
    requires t in g.pc && OnTheWay(g.pc[t])
    ensures t in Next(g, t, choice).pc
    ensures var to := Next(g, t, choice).pc[t];
            && !to.Idle? && !to.Writing? && (to.Reading? ==> g.pc[t].RecheckWaiting?)
            && (!to.Reading? ==> (GoesToRead(to) <==> GoesToRead(g.pc[t])))
  {
  }

  lemma StepChanges(s: System, m: Move)
    requires m.thread in s.guard.pc && m.thread in s.job
    ensures var p, after := s.guard.pc[m.thread], Advance(s, m);
            && (OnTheWay(p) ==> after.guard == Next(s.guard, m.thread, m.choice) && after.tables == s.tables
                                && after.writes == s.writes && after.answers == s.answers)
            && (p.Admit? ==> after.guard == Next(s.guard, m.thread, m.choice) && after.tables == s.tables
                             && after.writes == s.writes + [s.job[m.thread].query] && after.answers == s.answers)
            && (HoldsLock(p) && Finished(s.job[m.thread].work) ==>
                  && after.guard == Next(s.guard, m.thread, m.choice) && after.tables == s.tables && after.writes == s.writes
                  && after.answers == s.answers + [Conclude(s.job[m.thread])])
            && (HoldsLock(p) && !Finished(s.job[m.thread].work) ==>
                  after.guard == s.guard && after.writes == s.writes && after.answers == s.answers)
  {
    hide ParseSql, SqlClassifier.Classify, StatementStep, Next, FirstWork, Finished;
  }

  lemma ThreadOf(base: Tables, s: System, t: Thread)
    requires AllConsistent(base) && s.job.Keys == s.guard.pc.Keys && AllThreads(base, s) && t in s.guard.pc
    ensures ThreadOk(base, s, t)
  {
  }

  /** A longer record of writes leaves the answers right. */
  lemma RightExtends(base: Tables, writes: seq<Option<Query>>, q: Option<Query>, a: Answer)
    requires AllConsistent(base) && Right(base, writes, a)
    ensures Right(base, writes + [q], a)
  {
    hide AllConsistent, Reply, Serial, IsInsert;
    assert (writes + [q])[..a.at] == writes[..a.at];
  }

  lemma AnswersGrow(answers: seq<Answer>, a: Answer)
    requires InRealTime(answers) && InOrder(answers)
    requires a.began <= |answers| && forall i :: 0 <= i < a.began ==> End(answers[i]) <= a.at
    requires a.lock.Write? ==> a.at == Writers(answers)
    ensures InRealTime(answers + [a]) && InOrder(answers + [a])
    ensures Writers(answers + [a]) == Writers(answers) + (if a.lock.Write? then 1 else 0)
  {
    var all := answers + [a];
    OrderGrows(answers, a);
    hide InOrder;
    assert all[..|answers|] == answers;
  }

  lemma OrderGrows(answers: seq<Answer>, a: Answer)
    requires InOrder(answers) && (a.lock.Write? ==> a.at == Writers(answers))
    ensures InOrder(answers + [a])
  {
    hide Writers;
    var all := answers + [a];
    forall i | 0 <= i < |all| && all[i].lock.Write?
      ensures all[i].at == Writers(all[..i])
    {
      assert all[..i] == answers[..i];
      assert i == |answers| ==> answers[..i] == answers;
    }
  }

  /** The invariant, and a thread that may move. */
  ghost predicate Movable(base: Tables, s: System, t: Thread) {
    AllConsistent(base) && SystemInv(base, s) && t in s.guard.pc && t in s.job
  }

  // ---------------------------------------------------------------- statements

  lemma ReadStepThread(base: Tables, s: System, m: Move)
    requires Movable(base, s, m.thread)
    requires s.guard.pc[m.thread].Reading? && !Finished(s.job[m.thread].work)
    ensures m.thread in Advance(s, m).guard.pc && m.thread in Advance(s, m).job
    ensures ThreadOk(base, Advance(s, m), m.thread) && Advance(s, m).tables == s.tables
  {
    hide AllConsistent, OnCourse, Serial, StatementStep, DbGuard.Inv, AnyWriting, AllThreads, AnswersInv, IsInsert;
    var t, j := m.thread, s.job[m.thread];
    ThreadOf(base, s, t);
    Separation(s.guard, t);
    StepStaysOnCourse(s.tables, s.tables, j.query, j.work);
    OnlyInsertsWrite(s.tables, j.query, j.work);
  }

  lemma ReadStep(base: Tables, s: System, m: Move)
    requires Movable(base, s, m.thread)
    requires s.guard.pc[m.thread].Reading? && !Finished(s.job[m.thread].work)
    ensures SystemInv(base, Advance(s, m))
  {
    hide AllConsistent, ThreadOk, AllThreads, Serial, Advance, OneMoves, DbGuard.Inv, AnyWriting, Right, InRealTime;
    hide InOrder;
    hide Finished, Writers;
    ReadStepThread(base, s, m);
    OneThreadMoves(s, m);
    StepChanges(s, m);
    OtherThreads(base, s, Advance(s, m), m.thread);
    KeysKept(s, m);
  }

  lemma WriteStepThread(base: Tables, s: System, m: Move)
    requires Movable(base, s, m.thread)
    requires s.guard.pc[m.thread].Writing? && !Finished(s.job[m.thread].work)
    ensures m.thread in Advance(s, m).guard.pc && m.thread in Advance(s, m).job
    ensures ThreadOk(base, Advance(s, m), m.thread)
  {
    hide AllConsistent, OnCourse, Serial, StatementStep, DbGuard.Inv, AnyWriting, AllThreads, AnswersInv, TablesInv;
    hide IsInsert;
    var t, j := m.thread, s.job[m.thread];
    ThreadOf(base, s, t);
    StepStaysOnCourse(Serial(base, s.writes[..j.at]), s.tables, j.query, j.work);
  }

  lemma WriteStep(base: Tables, s: System, m: Move)
    requires Movable(base, s, m.thread)
    requires s.guard.pc[m.thread].Writing? && !Finished(s.job[m.thread].work)
    ensures SystemInv(base, Advance(s, m))
  {
    hide AllConsistent, ThreadOk, AllThreads, Serial, Advance, OneMoves, DbGuard.Inv, Right, InRealTime, InOrder;
    hide Finished, Writers;
    Separation(s.guard, m.thread);
    WriteStepThread(base, s, m);
    OneThreadMoves(s, m);
    StepChanges(s, m);
    OtherThreads(base, s, Advance(s, m), m.thread);
    KeysKept(s, m);
    assert AnyWriting(s.guard);
  }

  lemma KeysKept(s: System, m: Move)
    requires m.thread in s.guard.pc && m.thread in s.job && OneMoves(s, Advance(s, m), m.thread)
    ensures Advance(s, m).job.Keys == Advance(s, m).guard.pc.Keys
  {
  }

  // ---------------------------------------------------------------- guard steps

  /** An idle thread takes up a text: a text that goes for the read lock is no INSERT. */
  lemma BeginThread(base: Tables, s: System, m: Move)
    requires Movable(base, s, m.thread) && s.guard.pc[m.thread].Idle? && SqlClassifier.Classify(m.text).Some?
    ensures m.thread in Advance(s, m).guard.pc && m.thread in Advance(s, m).job
    ensures ThreadOk(base, Advance(s, m), m.thread)
  {
    hide SystemInv, AllConsistent, ParseSql, SqlClassifier.Classify, FirstWork;
    if ParseSql(m.text).Some? {
      SqlClassifier.LockIsRight(m.text);
    }
  }

  lemma BeginChanges(s: System, m: Move)
    requires m.thread in s.guard.pc && m.thread in s.job && s.guard.pc[m.thread].Idle?
    ensures var lock, after := SqlClassifier.Classify(m.text), Advance(s, m);
            if lock.None? then after == s
            else after.guard == Next(s.guard, m.thread, lock.value.Read?) && after.tables == s.tables
                 && after.writes == s.writes && after.answers == s.answers
  {
    hide ParseSql, SqlClassifier.Classify, Next, FirstWork;
  }

  lemma Begin(base: Tables, s: System, m: Move)
    requires Movable(base, s, m.thread) && s.guard.pc[m.thread].Idle?
    ensures SystemInv(base, Advance(s, m))
  {
    hide AllConsistent, AllThreads, ThreadOk, Serial, Advance, OneMoves, DbGuard.Inv, Right, InRealTime, InOrder;
    hide AnyWriting, Writers;
    hide SqlClassifier.Classify, Next;
    var lock := SqlClassifier.Classify(m.text);
    BeginChanges(s, m);
    if lock.Some? {
      NextInv(s.guard, m.thread, lock.value.Read?);
      WritingMove(s.guard, m.thread, lock.value.Read?);
      BeginThread(base, s, m);
      OneThreadMoves(s, m);
      OtherThreads(base, s, Advance(s, m), m.thread);
      KeysKept(s, m);
    }
  }

  /** Every answered request has its place among the writes so far. */
  lemma PlacesSoFar(base: Tables, s: System)
    requires AllConsistent(base) && AnswersInv(base, s)
    ensures forall i :: 0 <= i < |s.answers| ==> End(s.answers[i]) <= |s.writes|
  {
    hide AllConsistent, Serial, Reply, IsInsert, InRealTime, InOrder;
  }

  lemma OtherStepThread(base: Tables, s: System, m: Move)
    requires Movable(base, s, m.thread) && OnTheWay(s.guard.pc[m.thread])
    ensures m.thread in Advance(s, m).guard.pc && m.thread in Advance(s, m).job
    ensures ThreadOk(base, Advance(s, m), m.thread)
  {
    hide AllConsistent, AllThreads, TablesInv, AnswersInv, Serial, DbGuard.Inv, OnCourse, FirstWork, IsInsert, End, Next;
    ThreadOf(base, s, m.thread);
    WayOn(s.guard, m.thread, m.choice);
    StartsOnCourse(Serial(base, s.writes), s.job[m.thread].query);
    PlacesSoFar(base, s);
  }

  /** A step on the way to a lock, the reader's last one included. */
  lemma OtherStep(base: Tables, s: System, m: Move)
    requires Movable(base, s, m.thread) && OnTheWay(s.guard.pc[m.thread])
    ensures SystemInv(base, Advance(s, m))
  {
    hide AllConsistent, AllThreads, ThreadOk, Serial, Advance, OneMoves, DbGuard.Inv, Right, InRealTime, InOrder;
    hide AnyWriting, Writers;
    hide Next;
    var t := m.thread;
    StepChanges(s, m);
    NextInv(s.guard, t, m.choice);
    WritingMove(s.guard, t, m.choice);
    OtherStepThread(base, s, m);
    OneThreadMoves(s, m);
    OtherThreads(base, s, Advance(s, m), t);
    KeysKept(s, m);
  }

  lemma AdmitWriteThread(base: Tables, s: System, m: Move)
    requires Movable(base, s, m.thread) && s.guard.pc[m.thread].Admit?
    ensures m.thread in Advance(s, m).guard.pc && m.thread in Advance(s, m).job
    ensures ThreadOk(base, Advance(s, m), m.thread)
  {
    hide AllConsistent, AllThreads, AnswersInv, Serial, DbGuard.Inv, AnyWriting, OnCourse, FirstWork, IsInsert, End;
    var q := s.job[m.thread].query;
    ThreadOf(base, s, m.thread);
    WritingMove(s.guard, m.thread, m.choice);
    StartsOnCourse(Serial(base, s.writes), q);
    PlacesSoFar(base, s);
    assert (s.writes + [q])[..|s.writes|] == s.writes;
  }

  /** A writer that has found no reader leaves the waiting count and is in. */
  lemma AdmitWrite(base: Tables, s: System, m: Move)
    requires Movable(base, s, m.thread) && s.guard.pc[m.thread].Admit?
    ensures SystemInv(base, Advance(s, m))
  {
    hide AllConsistent, AllThreads, ThreadOk, Serial, Advance, OneMoves, DbGuard.Inv, InRealTime, InOrder;
    hide AnyWriting, Right, Writers;
    hide Next;
    var t, s' := m.thread, Advance(s, m);
    StepChanges(s, m);
    NextInv(s.guard, t, m.choice);
    WritingMove(s.guard, t, m.choice);
    Separation(s.guard, t);
    AdmitWriteThread(base, s, m);
    OneThreadMoves(s, m);
    OtherThreads(base, s, s', t);
    KeysKept(s, m);
    forall i | 0 <= i < |s'.answers|
      ensures Right(base, s'.writes, s'.answers[i])
    {
      RightExtends(base, s.writes, s.job[t].query, s.answers[i]);
    }
  }

  lemma FinishThread(base: Tables, s: System, m: Move)
    requires Movable(base, s, m.thread) && HoldsLock(s.guard.pc[m.thread]) && Finished(s.job[m.thread].work)
    ensures m.thread in Advance(s, m).guard.pc && m.thread in Advance(s, m).job
    ensures ThreadOk(base, Advance(s, m), m.thread)
    ensures var j := s.job[m.thread];
            && j.began <= |s.answers| && (forall i :: 0 <= i < j.began ==> End(s.answers[i]) <= j.at)
            && (s.guard.pc[m.thread].Writing? ==> j.at + 1 == |s.writes|)
  {
    hide AllConsistent, AllThreads, Serial, DbGuard.Inv, AnyWriting, AnswersInv, TablesInv, OnCourse, OutcomeOf, End;
    ThreadOf(base, s, m.thread);
  }

  lemma FinishRight(base: Tables, s: System, m: Move)
    requires Movable(base, s, m.thread) && HoldsLock(s.guard.pc[m.thread]) && Finished(s.job[m.thread].work)
    ensures Right(base, s.writes, Conclude(s.job[m.thread]))
    ensures s.guard.pc[m.thread].Writing? ==> s.tables == Serial(base, s.writes)
    ensures s.guard.pc[m.thread].Writing? <==> s.job[m.thread].lock.Write?
  {
    hide AllConsistent, AllThreads, Serial, DbGuard.Inv, AnyWriting, AnswersInv, OnCourse, OutcomeOf, Reply, IsInsert;
    var j := s.job[m.thread];
    ThreadOf(base, s, m.thread);
    assert s.writes[..|s.writes|] == s.writes;
    if s.guard.pc[m.thread].Writing? {
      assert s.writes == s.writes[..j.at] + [s.writes[j.at]];
      SerialStep(base, s.writes[..j.at], s.writes[j.at]);
      CourseEnds(Serial(base, s.writes[..j.at]), s.tables, j.query, j.work);
    } else {
      CourseEnds(Serial(base, s.writes), Serial(base, s.writes), j.query, j.work);
    }
  }

  /** A finished statement answers and unlocks. */
  lemma Finish(base: Tables, s: System, m: Move)
    requires Movable(base, s, m.thread) && HoldsLock(s.guard.pc[m.thread]) && Finished(s.job[m.thread].work)
    ensures SystemInv(base, Advance(s, m))
  {
    hide AllConsistent, AllThreads, ThreadOk, Serial, Advance, OneMoves, DbGuard.Inv, AnyWriting, InOrder;
    hide InRealTime, Right, Writers;
    hide OutcomeOf, Next, Finished;
    var t, a := m.thread, Conclude(s.job[m.thread]);
    StepChanges(s, m);
    NextInv(s.guard, t, m.choice);
    WritingMove(s.guard, t, m.choice);
    FinishThread(base, s, m);
    OneThreadMoves(s, m);
    OtherThreads(base, s, Advance(s, m), t);
    KeysKept(s, m);
    FinishRight(base, s, m);
    AnswersGrow(s.answers, a);
  }

  /** Every step of every thread keeps the invariant. */
  lemma AdvanceInv(base: Tables, s: System, m: Move)
    requires AllConsistent(base) && SystemInv(base, s) && m.thread in s.guard.pc && m.thread in s.job
    ensures SystemInv(base, Advance(s, m))
  {
    hide AllConsistent, SystemInv, Finished, Advance;
    var p := s.guard.pc[m.thread];
    if p.Idle? {
      Begin(base, s, m);
    } else if p.Admit? {
      AdmitWrite(base, s, m);
    } else if OnTheWay(p) {
      OtherStep(base, s, m);
    } else if Finished(s.job[m.thread].work) {
      Finish(base, s, m);
    } else if p.Reading? {
      ReadStep(base, s, m);
    } else {
      WriteStep(base, s, m);
    }
  }
}

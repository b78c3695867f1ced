/** Requests running through the guard: src/server/request/request_handler.c with db_guard.c,
    executor.c and sql_service.c.

  Any number of threads take up SQL texts.  The classifier picks the lock of a text, the parser its
  statement.  A thread's steps are the atomic steps of the guard and, while it holds the guard, the
  single reads and writes of its statement, each on whatever the shared tables are at that moment.
  `SystemInv` says how every state follows the serial execution of the requests that took the write
  lock, in the order of their admission.
 */
module GuardedSystem {
  import opened Common
  import opened Text
  import opened TableModel
  import opened SqlGrammar
  import opened DbGuard
  import opened Statements
  import opened Database
  import SqlClassifier

  // ---------------------------------------------------------------- the system

  /** A thread's request: the lock it goes for, its statement if it has one, its progress, how many
      answers had been given when it was made, and its place in the serial order (known from its
      admission on). */
  datatype Job = Job(lock: SqlClassifier.Operation, query: Option<Query>, work: Work, began: nat, at: nat)

  datatype Answer = Answer(lock: SqlClassifier.Operation, query: Option<Query>, began: nat, at: nat, outcome: Outcome)

  /** The shared state, the threads' jobs and two records of the past: the statements admitted to the
      write lock in order of admission, and the answers in order of completion. */
  datatype System = System(guard: Guard, tables: Tables, job: map<Thread, Job>,
                           writes: seq<Option<Query>>, answers: seq<Answer>)

  /** Thread t moves; an idle one takes up the text. */
  datatype Move = Move(thread: Thread, choice: bool, text: string)

  function Conclude(j: Job): Answer {
    Answer(j.lock, j.query, j.began, j.at, OutcomeOf(j.work))
  }

  /** request_handler_handle: a text the classifier refuses takes no lock; any other is executed between
      lock and unlock of the kind the classifier names, whatever its statement turns out to be. */
  ghost function Advance(s: System, m: Move): System
    requires m.thread in s.guard.pc && m.thread in s.job
  {
    var t, j, p := m.thread, s.job[m.thread], s.guard.pc[m.thread];
    match p
    case Idle =>
      (match SqlClassifier.Classify(m.text)
       case None => s
       case Some(lock) =>
         var q := ParseSql(m.text);
         s.(guard := Next(s.guard, t, lock.Read?), job := s.job[t := Job(lock, q, FirstWork(q), |s.answers|, 0)]))
    case Reading =>
      if Finished(j.work) then s.(guard := Next(s.guard, t, m.choice), answers := s.answers + [Conclude(j)])
      else Access(s, t)
    case Writing =>
      if Finished(j.work) then s.(guard := Next(s.guard, t, m.choice), answers := s.answers + [Conclude(j)])
      else Access(s, t)
    case RecheckWaiting =>
      s.(guard := Next(s.guard, t, m.choice), job := s.job[t := j.(at := |s.writes|)])
    case Admit =>
      s.(guard := Next(s.guard, t, m.choice), job := s.job[t := j.(at := |s.writes|)], writes := s.writes + [j.query])
    case _ => s.(guard := Next(s.guard, t, m.choice))
  }

  /** One access of the statement of a thread that holds a lock. */
  ghost function Access(s: System, t: Thread): System
    requires t in s.job
  {
    var j := s.job[t];
    var (tables, work) := StatementStep(s.tables, j.query, j.work);
    s.(tables := tables, job := s.job[t := j.(work := work)])
  }

  ghost predicate InitialSystem(s: System, base: Tables) {
    && DbGuard.Init(s.guard) && s.tables == base && AllConsistent(base)
    && s.job.Keys == s.guard.pc.Keys && s.writes == [] && s.answers == []
  }

  ghost predicate IsSystemRun(states: seq<System>, moves: seq<Move>) {
    && |states| == |moves| + 1
    && forall i :: 0 <= i < |moves| ==>
         && moves[i].thread in states[i].guard.pc && moves[i].thread in states[i].job
         && states[i + 1] == Advance(states[i], moves[i])
  }

  // ---------------------------------------------------------------- answers against the serial execution

  /** The answer is the one of the serial execution at the answer's place, and a request with the write
      lock is the statement at its place. */
  ghost predicate Right(base: Tables, writes: seq<Option<Query>>, a: Answer)
    requires AllConsistent(base)
  {
    && a.at <= |writes| && a.outcome == Reply(Serial(base, writes[..a.at]), a.query)
    && (a.lock.Write? ==> a.at < |writes| && writes[a.at] == a.query)
    && (a.lock.Read? ==> !IsInsert(a.query))
  }

  /** The first place in the serial order after the answered request. */
  function End(a: Answer): nat {
    if a.lock.Write? then a.at + 1 else a.at
  }

  /** A request made after another was answered comes after it in the serial order. */
  ghost predicate InRealTime(answers: seq<Answer>) {
    && (forall j :: 0 <= j < |answers| ==> answers[j].began <= j)
    && forall i, j :: 0 <= j < |answers| && 0 <= i < answers[j].began ==> End(answers[i]) <= answers[j].at
  }

  /** How many requests with the write lock have been answered. */
  function Writers(answers: seq<Answer>): nat {
    if answers == [] then 0
    else Writers(answers[..|answers| - 1]) + (if answers[|answers| - 1].lock.Write? then 1 else 0)
  }

  /** The answers to requests with the write lock are, in order, those of the places 0, 1, 2, ... */
  ghost predicate InOrder(answers: seq<Answer>) {
    forall i :: 0 <= i < |answers| && answers[i].lock.Write? ==> answers[i].at == Writers(answers[..i])
  }

  // ---------------------------------------------------------------- the invariant

  /** Inside lock_read. */
  predicate GoesToRead(p: Pc) {
    p.CheckActive? || p.CheckWaiting? || p.Enter? || p.RecheckActive? || p.RecheckWaiting? || p.Retreat?
  }

  ghost predicate ThreadInv(base: Tables, s: System, t: Thread)
    requires AllConsistent(base) && t in s.guard.pc && t in s.job
  {
    var p, j := s.guard.pc[t], s.job[t];
    if p.Idle? then true
    else if p.Reading? then
      && j.lock.Read? && !IsInsert(j.query) && j.at == |s.writes|
      && OnCourse(Serial(base, s.writes), Serial(base, s.writes), j.query, j.work)
    else if p.Writing? then
      && j.lock.Write? && j.at + 1 == |s.writes| && s.writes[j.at] == j.query
      && OnCourse(Serial(base, s.writes[..j.at]), s.tables, j.query, j.work)
    else
      && j.work == FirstWork(j.query)
      && if GoesToRead(p) then j.lock.Read? && !IsInsert(j.query) else j.lock.Write?
  }

  predicate AnyWriting(g: Guard) {
    exists t :: t in g.pc && g.pc[t].Writing?
  }

  /** The shared tables are the serial ones whenever no statement is in the middle of changing them. */
  ghost predicate TablesInv(base: Tables, s: System)
    requires AllConsistent(base)
  {
    !AnyWriting(s.guard) ==> s.tables == Serial(base, s.writes)
  }

  ghost predicate AnswersInv(base: Tables, s: System)
    requires AllConsistent(base)
  {
    && (forall i :: 0 <= i < |s.answers| ==> Right(base, s.writes, s.answers[i]))
    && InRealTime(s.answers) && InOrder(s.answers)
    && |s.writes| == Writers(s.answers) + (if AnyWriting(s.guard) then 1 else 0)
  }

  /** Answers given before a request was made end before its place, once it has one. */
  ghost predicate BeganInv(s: System, t: Thread)
    requires t in s.guard.pc && t in s.job
  {
    var j := s.job[t];
    && j.began <= |s.answers|
    && (s.guard.pc[t].Reading? || s.guard.pc[t].Writing? ==>
          forall i :: 0 <= i < j.began ==> End(s.answers[i]) <= j.at)
  }

  ghost predicate ThreadOk(base: Tables, s: System, t: Thread)
    requires AllConsistent(base) && t in s.guard.pc && t in s.job
  {
    ThreadInv(base, s, t) && (!s.guard.pc[t].Idle? ==> BeganInv(s, t))
  }

  ghost predicate AllThreads(base: Tables, s: System)
    requires AllConsistent(base) && s.job.Keys == s.guard.pc.Keys
  {
    forall t :: t in s.guard.pc ==> ThreadOk(base, s, t)
  }

  ghost predicate SystemInv(base: Tables, s: System)
    requires AllConsistent(base)
  {
    && DbGuard.Inv(s.guard) && s.job.Keys == s.guard.pc.Keys
    && TablesInv(base, s) && AnswersInv(base, s) && AllThreads(base, s)
  }
}

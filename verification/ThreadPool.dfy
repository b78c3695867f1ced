/** The thread pool of src/server/pool/thread_pool.c, after a successful start.

  Workers loop on pop, execute and clean up; other threads submit jobs, stop the pool or destroy
  it.  A step is one mutex section of the queue or one callback, read or write outside it.
 */
module ThreadPool {
  import opened Common
  import opened JobQueue
  import QueueProtocol

  /** What a thread does between its calls to the queue. */
  datatype Local =
    | Idle
    | CheckStarted(job: Job)       // thread_pool_submit before its tests
    | Rejecting(job: Job)          // about to clean up a job it could not submit
    | Executing(job: Job)          // run_job before execute
    | Cleaning(job: Job)           // run_job before cleanup
    | Exited                       // the worker's loop has ended
    | CheckJoin(destroy: bool)     // thread_pool_stop after the close
    | Joining(next: nat, destroy: bool)
    | Destroying                   // job_queue_destroy after its own close

  type Pc = QueueProtocol.Pc<Local>
  type Queue = QueueProtocol.Queue<Local>

  datatype Event = Executed(id: nat) | Cleaned(id: nat)

  /** Where a submitted job is. */
  datatype Place = With(thread: Thread) | Queued | Gone(executed: bool)

  /** The pool, and records of the past: the callbacks called so far and, for each job submitted so
      far, the thread that submits it, where it is now and what thread_pool_submit returned. */
  datatype Pool = Pool(queue: Queue, workers: seq<Thread>, started: bool, events: seq<Event>,
                       submitted: seq<Job>, submitter: seq<Thread>, place: seq<Place>, result: seq<Option<bool>>)

  /** What an idle thread calls. */
  datatype Call = Submit(executable: bool, hasCleanup: bool) | Stop | Destroy

  /** Thread t makes its next step; the rest settles what the step leaves open. */
  datatype Move = Move(thread: Thread, call: Call, woken: set<Thread>)

  // ---------------------------------------------------------------- steps

  function WithPc(p: Pool, t: Thread, to: Pc): Pool {
    p.(queue := p.queue.(pc := p.queue.pc[t := to]))
  }

  function CleanupOf(job: Job): seq<Event> {
    if job.hasCleanup then [Cleaned(job.id)] else []
  }

  function CleanupsOf(jobs: seq<Job>): seq<Event> {
    seq(|WithCleanup(jobs)|, i requires 0 <= i < |WithCleanup(jobs)| => Cleaned(WithCleanup(jobs)[i].id))
  }

  /** A worker is created at its first pop; every other thread starts idle. */
  ghost predicate Init(p: Pool) {
    && p.started && p.events == [] && p.submitted == [] && p.submitter == [] && p.place == [] && p.result == []
    && |p.workers| > 0 && (forall i :: 0 <= i < |p.workers| ==> p.workers[i] in p.queue.pc)
    && p.queue.capacity > 0 && p.queue.jobs == [] && p.queue.accepted == [] && p.queue.taken == [] && !p.queue.closed
    && forall t :: t in p.queue.pc ==>
         p.queue.pc[t] == if t in p.workers then QueueProtocol.PopStart else QueueProtocol.Client(Idle)
  }

  function QueueStep(pc: Pc, m: Move): QueueProtocol.Step<Local> {
    if pc.PushAsleep? || pc.PopAsleep? then QueueProtocol.SpuriousWake else QueueProtocol.Section(m.woken)
  }

  datatype Activity = InQueue | InSubmit | InWorker | InStop

  /** Which of the four kinds of steps a thread makes next. */
  function ActivityOf(pc: Pc): Activity {
    match pc
    case PushReturned(_, _) => InSubmit
    case PopReturned(_) => InWorker
    case Client(local) =>
      (match local
       case Idle => InSubmit
       case CheckStarted(_) => InSubmit
       case Rejecting(_) => InSubmit
       case Executing(_) => InWorker
       case Cleaning(_) => InWorker
       case Exited => InWorker
       case _ => InStop)
    case _ => InQueue
  }

  /** A step outside the queue changes the position of its own thread only. */
  ghost predicate OwnMove(p: Pool, t: Thread, p': Pool)
    requires t in p.queue.pc
  {
    && p'.workers == p.workers && (!p.started ==> !p'.started)
    && t in p'.queue.pc && p'.queue == p.queue.(pc := p.queue.pc[t := p'.queue.pc[t]])
    && var to := p'.queue.pc[t]; to.Client? || to.PushStart? || to.PopStart? || to.CloseStart?
  }

  predicate Enabled(p: Pool, m: Move) {
    && m.thread in p.queue.pc
    && var pc := p.queue.pc[m.thread];
       if ActivityOf(pc).InQueue? then QueueProtocol.Enabled(p.queue, m.thread, QueueStep(pc, m))
       else
         match pc
         case Client(Joining(k, _)) =>
           k < |p.workers| ==> p.workers[k] in p.queue.pc && p.queue.pc[p.workers[k]] == QueueProtocol.Client(Exited)
         case Client(Exited) => false
         case _ => true
  }

  function SetAt<T>(s: seq<T>, i: nat, v: T): seq<T> {
    if i < |s| then s[i := v] else s
  }

  function AfterStop(destroy: bool): Pc {
    if destroy then QueueProtocol.CloseStart(Destroying) else QueueProtocol.Client(Idle)
  }

  /** A step inside the queue; a job that enters or leaves it changes place. */
  function QueueNext(p: Pool, m: Move): (p': Pool)
    requires Enabled(p, m) && ActivityOf(p.queue.pc[m.thread]).InQueue?
    ensures p'.workers == p.workers && p'.started == p.started
    ensures p'.queue == QueueProtocol.Next(p.queue, m.thread, QueueStep(p.queue.pc[m.thread], m))
    ensures m.thread in p'.queue.pc
  {
    var t, pc := m.thread, p.queue.pc[m.thread];
    var q := QueueProtocol.Next(p.queue, t, QueueStep(pc, m));
    match q.pc[t]
    case PushReturned(job, true) => p.(queue := q, place := SetAt(p.place, job.id, Queued))
    case PopReturned(Some(job)) => p.(queue := q, place := SetAt(p.place, job.id, With(t)))
    case _ => p.(queue := q)
  }

  /** thread_pool_submit, from its call to its return. */
  function SubmitNext(p: Pool, t: Thread, call: Call): (p': Pool)
    requires t in p.queue.pc && ActivityOf(p.queue.pc[t]).InSubmit?
    ensures OwnMove(p, t, p') && p'.started == p.started
  {
    match p.queue.pc[t]
    case Client(Idle) =>
      if call.Submit? then
        var job := Job(|p.submitted|, call.executable, call.hasCleanup);
        WithPc(p, t, QueueProtocol.Client(CheckStarted(job))).(
          submitted := p.submitted + [job], submitter := p.submitter + [t],
          place := p.place + [With(t)], result := p.result + [None])
      else WithPc(p, t, QueueProtocol.CloseStart(CheckJoin(call.Destroy?)))
    case Client(CheckStarted(job)) =>
      if !p.started || !job.executable then WithPc(p, t, QueueProtocol.Client(Rejecting(job)))
      else WithPc(p, t, QueueProtocol.PushStart(job))
    case PushReturned(job, ok) =>
      if ok then WithPc(p, t, QueueProtocol.Client(Idle)).(result := SetAt(p.result, job.id, Some(true)))
      else WithPc(p, t, QueueProtocol.Client(Rejecting(job)))
    case Client(Rejecting(job)) =>
      WithPc(p, t, QueueProtocol.Client(Idle)).(
        events := p.events + CleanupOf(job),
        place := SetAt(p.place, job.id, Gone(false)), result := SetAt(p.result, job.id, Some(false)))
    case _ => p
  }

  /** thread_pool_worker_main with run_job. */
  function WorkerNext(p: Pool, t: Thread): (p': Pool)
    requires t in p.queue.pc && ActivityOf(p.queue.pc[t]).InWorker?
    ensures OwnMove(p, t, p') && p'.started == p.started
  {
    match p.queue.pc[t]
    case PopReturned(Some(job)) => WithPc(p, t, QueueProtocol.Client(Executing(job)))
    case PopReturned(None) => WithPc(p, t, QueueProtocol.Client(Exited))
    case Client(Executing(job)) =>
      WithPc(p, t, QueueProtocol.Client(Cleaning(job))).(events := p.events + [Executed(job.id)])
    case Client(Cleaning(job)) =>
      WithPc(p, t, QueueProtocol.PopStart).(
        events := p.events + CleanupOf(job), place := SetAt(p.place, job.id, Gone(true)))
    case _ => WithPc(p, t, p.queue.pc[t])
  }

  /** thread_pool_stop and thread_pool_destroy. */
  function StopNext(p: Pool, t: Thread): (p': Pool)
    requires t in p.queue.pc && ActivityOf(p.queue.pc[t]).InStop?
    ensures OwnMove(p, t, p')
  {
    match p.queue.pc[t]
    case Client(CheckJoin(destroy)) =>
      WithPc(p, t, if p.started then QueueProtocol.Client(Joining(0, destroy)) else AfterStop(destroy))
    case Client(Joining(k, destroy)) =>
      if k < |p.workers| then WithPc(p, t, QueueProtocol.Client(Joining(k + 1, destroy)))
      else WithPc(p, t, AfterStop(destroy)).(started := false)
    case Client(Destroying) =>
      WithPc(p, t, QueueProtocol.Client(Idle)).(events := p.events + CleanupsOf(p.queue.jobs))
    case _ => p
  }

  function Next(p: Pool, m: Move): Pool
    requires Enabled(p, m)
  {
    match ActivityOf(p.queue.pc[m.thread])
    case InQueue => QueueNext(p, m)
    case InSubmit => SubmitNext(p, m.thread, m.call)
    case InWorker => WorkerNext(p, m.thread)
    case InStop => StopNext(p, m.thread)
  }

  // ---------------------------------------------------------------- who owns which job

  /** What a thread has to do with a job. */
  datatype Hold = NoJob | Submitting(job: Job) | Returning(job: Job) | Working(job: Job) | Worked(job: Job)

  function HoldOf(pc: Pc): Hold {
    match pc
    case PushStart(job) => Submitting(job)
    case PushAsleep(job) => Submitting(job)
    case PushSignalled(job) => Submitting(job)
    case PushSpurious(job) => Submitting(job)
    case PushReturned(job, ok) => if ok then Returning(job) else Submitting(job)
    case Client(CheckStarted(job)) => Submitting(job)
    case Client(Rejecting(job)) => Submitting(job)
    case PopReturned(Some(job)) => Working(job)
    case Client(Executing(job)) => Working(job)
    case Client(Cleaning(job)) => Worked(job)
    case _ => NoJob
  }

  /** The pool seen as a ledger of jobs. */
  datatype Ledger = Ledger(holds: map<Thread, Hold>, jobs: seq<Job>, events: seq<Event>,
                           submitted: seq<Job>, submitter: seq<Thread>, place: seq<Place>, result: seq<Option<bool>>)

  function Holds(pc: map<Thread, Pc>): map<Thread, Hold> {
    map t | t in pc :: HoldOf(pc[t])
  }

  function View(p: Pool): Ledger {
    Ledger(Holds(p.queue.pc), p.queue.jobs, p.events,
           p.submitted, p.submitter, p.place, p.result)
  }

  /** The entries of the ledger. */
  datatype Entry =
    | Nothing | NewJob(executable: bool, hasCleanup: bool) | Store | Take | Execute | Finish | Reject | Return

  predicate CanEnter(l: Ledger, t: Thread, e: Entry) {
    && t in l.holds
    && match e
       case Nothing => true
       case NewJob(_, _) => l.holds[t].NoJob?
       case Store => l.holds[t].Submitting?
       case Take => l.holds[t].NoJob? && l.jobs != []
       case Execute => l.holds[t].Working?
       case Finish => l.holds[t].Worked?
       case Reject => l.holds[t].Submitting?
       case Return => l.holds[t].Returning?
  }

  function Enter(l: Ledger, t: Thread, e: Entry): Ledger
    requires CanEnter(l, t, e)
  {
    match e
    case Nothing => l
    case NewJob(executable, hasCleanup) =>
      var job := Job(|l.submitted|, executable, hasCleanup);
      l.(holds := l.holds[t := Submitting(job)], submitted := l.submitted + [job], submitter := l.submitter + [t],
         place := l.place + [With(t)], result := l.result + [None])
    case Store =>
      var job := l.holds[t].job;
      l.(holds := l.holds[t := Returning(job)], jobs := l.jobs + [job], place := SetAt(l.place, job.id, Queued))
    case Take =>
      l.(holds := l.holds[t := Working(l.jobs[0])], jobs := l.jobs[1..], place := SetAt(l.place, l.jobs[0].id, With(t)))
    case Execute =>
      var job := l.holds[t].job;
      l.(holds := l.holds[t := Worked(job)], events := l.events + [Executed(job.id)])
    case Finish =>
      var job := l.holds[t].job;
      l.(holds := l.holds[t := NoJob], events := l.events + CleanupOf(job), place := SetAt(l.place, job.id, Gone(true)))
    case Reject =>
      var job := l.holds[t].job;
      l.(holds := l.holds[t := NoJob], events := l.events + CleanupOf(job),
         place := SetAt(l.place, job.id, Gone(false)), result := SetAt(l.result, job.id, Some(false)))
    case Return =>
      l.(holds := l.holds[t := NoJob], result := SetAt(l.result, l.holds[t].job.id, Some(true)))
  }

  // ---------------------------------------------------------------- the ledger's invariant

  /** The callbacks called for one job, in order. */
  function EventsOf(events: seq<Event>, id: nat): seq<Event> {
    if events == [] then []
    else
      var n := |events| - 1;
      EventsOf(events[..n], id) + (if events[n].id == id then [events[n]] else [])
  }

  ghost predicate Known(l: Ledger, job: Job) {
    job.id < |l.submitted| && l.submitted[job.id] == job
  }

  ghost predicate Sizes(l: Ledger) {
    && |l.submitted| == |l.submitter| == |l.place| == |l.result|
    && forall i :: 0 <= i < |l.submitted| ==> l.submitted[i].id == i
  }

  /** Accepted by the queue at some time. */
  ghost predicate Passed(l: Ledger, id: nat)
    requires id < |l.place|
  {
    match l.place[id]
    case With(t) => t in l.holds && (l.holds[t].Working? || l.holds[t].Worked?)
    case Queued => true
    case Gone(executed) => executed
  }

  ghost predicate HolderOk(l: Ledger, t: Thread)
    requires Sizes(l) && t in l.holds
  {
    match l.holds[t]
    case NoJob => true
    case Submitting(job) =>
      Known(l, job) && l.place[job.id] == With(t) && l.submitter[job.id] == t && l.result[job.id].None?
    case Returning(job) =>
      Known(l, job) && Passed(l, job.id) && l.submitter[job.id] == t && l.result[job.id].None?
    case Working(job) => Known(l, job) && l.place[job.id] == With(t)
    case Worked(job) => Known(l, job) && l.place[job.id] == With(t)
  }

  ghost predicate QueueOk(l: Ledger)
    requires Sizes(l)
  {
    && (forall i :: 0 <= i < |l.jobs| ==> Known(l, l.jobs[i]) && l.place[l.jobs[i].id] == Queued)
    && forall i, j :: 0 <= i < j < |l.jobs| ==> l.jobs[i].id != l.jobs[j].id
  }

  /** The callbacks called so far are the ones its place calls for. */
  ghost predicate EventsOk(l: Ledger, id: nat)
    requires Sizes(l) && id < |l.submitted|
  {
    var events := EventsOf(l.events, id);
    match l.place[id]
    case With(t) => t in l.holds && events == if l.holds[t].Worked? then [Executed(id)] else []
    case Queued => events == []
    case Gone(executed) => events == (if executed then [Executed(id)] else []) + CleanupOf(l.submitted[id])
  }

  /** The job is where its place says. */
  ghost predicate PlaceOk(l: Ledger, id: nat)
    requires Sizes(l) && id < |l.submitted|
  {
    match l.place[id]
    case With(t) => t in l.holds && !l.holds[t].NoJob? && !l.holds[t].Returning? && l.holds[t].job == l.submitted[id]
    case Queued => l.submitted[id] in l.jobs
    case Gone(_) => true
  }

  /** submit returned 1 for a job the queue accepted and 0 for one cleaned up unexecuted; otherwise
      its caller is still inside. */
  ghost predicate ResultOk(l: Ledger, id: nat)
    requires Sizes(l) && id < |l.submitted|
  {
    match l.result[id]
    case None =>
      var t := l.submitter[id];
      t in l.holds && (l.holds[t] == Submitting(l.submitted[id]) || l.holds[t] == Returning(l.submitted[id]))
    case Some(ok) => if ok then Passed(l, id) else l.place[id] == Gone(false)
  }

  ghost predicate LedgerInv(l: Ledger) {
    && Sizes(l) && QueueOk(l)
    && (forall t :: t in l.holds ==> HolderOk(l, t))
    && (forall id :: 0 <= id < |l.submitted| ==> PlaceOk(l, id))
    && (forall id :: 0 <= id < |l.submitted| ==> ResultOk(l, id))
    && (forall id :: 0 <= id < |l.submitted| ==> EventsOk(l, id))
    && (forall id :: |l.submitted| <= id ==> EventsOf(l.events, id) == [])
  }

  // ---------------------------------------------------------------- every entry keeps it

  lemma EnterSizes(l: Ledger, t: Thread, e: Entry)
    requires LedgerInv(l) && CanEnter(l, t, e)
    ensures Sizes(Enter(l, t, e))
  {
  }

  lemma EnterQueue(l: Ledger, t: Thread, e: Entry)
    requires LedgerInv(l) && CanEnter(l, t, e)
    ensures Sizes(Enter(l, t, e)) && QueueOk(Enter(l, t, e))
  {
    hide PlaceOk, ResultOk, EventsOk, EventsOf;
    EnterSizes(l, t, e);
    assert HolderOk(l, t);
  }

  lemma EnterHolder(l: Ledger, t: Thread, e: Entry, u: Thread)
    requires LedgerInv(l) && CanEnter(l, t, e) && u in l.holds
    ensures Sizes(Enter(l, t, e)) && HolderOk(Enter(l, t, e), u)
  {
    hide ResultOk, EventsOk, EventsOf;
    EnterSizes(l, t, e);
    assert HolderOk(l, t) && HolderOk(l, u);
    if l.holds[u].Returning? {
      assert PlaceOk(l, l.holds[u].job.id);
    }
  }

  lemma EnterPlace(l: Ledger, t: Thread, e: Entry, id: nat)
    requires LedgerInv(l) && CanEnter(l, t, e) && id < |Enter(l, t, e).submitted|
    ensures Sizes(Enter(l, t, e)) && PlaceOk(Enter(l, t, e), id)
  {
    hide EventsOk, EventsOf, ResultOk;
    EnterSizes(l, t, e);
    assert HolderOk(l, t);
    assert id < |l.submitted| ==> PlaceOk(l, id);
    if e.Store? {
      assert (l.jobs + [l.holds[t].job])[|l.jobs|] == l.holds[t].job;
    } else if e.Take? && l.place[id].Queued? {
      var i :| 0 <= i < |l.jobs| && l.jobs[i] == l.submitted[id];
      assert i > 0 ==> l.jobs[1..][i - 1] == l.jobs[i];
    }
  }

  lemma EnterResult(l: Ledger, t: Thread, e: Entry, id: nat)
    requires LedgerInv(l) && CanEnter(l, t, e) && id < |Enter(l, t, e).submitted|
    ensures Sizes(Enter(l, t, e)) && ResultOk(Enter(l, t, e), id)
  {
    hide EventsOk, EventsOf;
    EnterSizes(l, t, e);
    assert HolderOk(l, t);
    assert id < |l.submitted| ==> PlaceOk(l, id) && ResultOk(l, id);
  }

  lemma EventsOfAppend(events: seq<Event>, e: Event, id: nat)
    ensures EventsOf(events + [e], id) == EventsOf(events, id) + (if e.id == id then [e] else [])
  {
    assert (events + [e])[..|events|] == events;
  }

  lemma EventsOfCleanup(events: seq<Event>, job: Job, id: nat)
    ensures EventsOf(events + CleanupOf(job), id) == EventsOf(events, id) + (if job.id == id then CleanupOf(job) else [])
  {
    if job.hasCleanup {
      EventsOfAppend(events, Cleaned(job.id), id);
    } else {
      assert events + [] == events;
    }
  }

  lemma EnterEvents(l: Ledger, t: Thread, e: Entry, id: nat)
    requires LedgerInv(l) && CanEnter(l, t, e)
    ensures Sizes(Enter(l, t, e))
    ensures if id < |Enter(l, t, e).submitted| then EventsOk(Enter(l, t, e), id) else EventsOf(Enter(l, t, e).events, id) == []
  {
    hide EventsOf, CleanupOf, ResultOk;
    EnterSizes(l, t, e);
    assert HolderOk(l, t);
    assert id < |l.submitted| ==> PlaceOk(l, id) && EventsOk(l, id);
    if e.Execute? {
      EventsOfAppend(l.events, Executed(l.holds[t].job.id), id);
    } else if e.Finish? || e.Reject? {
      EventsOfCleanup(l.events, l.holds[t].job, id);
    }
  }

  lemma EnterInv(l: Ledger, t: Thread, e: Entry)
    requires LedgerInv(l) && CanEnter(l, t, e)
    ensures LedgerInv(Enter(l, t, e))
  {
    hide QueueOk, HolderOk, PlaceOk, ResultOk, EventsOk, Sizes, EventsOf;
    var l' := Enter(l, t, e);
    EnterQueue(l, t, e);
    forall u | u in l'.holds
      ensures HolderOk(l', u)
    {
      EnterHolder(l, t, e, u);
    }
    forall id | 0 <= id < |l'.submitted|
      ensures PlaceOk(l', id) && ResultOk(l', id)
    {
      EnterPlace(l, t, e, id);
      EnterResult(l, t, e, id);
    }
    forall id: nat
      ensures if id < |l'.submitted| then EventsOk(l', id) else EventsOf(l'.events, id) == []
    {
      EnterEvents(l, t, e, id);
    }
  }

  // ---------------------------------------------------------------- the pool's invariant

  predicate WorkerPhase(pc: Pc) {
    || pc.PopStart? || pc.PopAsleep? || pc.PopSignalled? || pc.PopSpurious? || pc.PopReturned?
    || (pc.Client? && (pc.local.Executing? || pc.local.Cleaning? || pc.local.Exited?))
  }

  predicate HasExited(p: Pool, w: Thread) {
    w in p.queue.pc && p.queue.pc[w] == QueueProtocol.Client(Exited)
  }

  /** What a thread's position says about the pool. */
  ghost predicate PhaseOk(p: Pool, t: Thread)
    requires t in p.queue.pc
  {
    var pc := p.queue.pc[t];
    && (t in p.workers <==> WorkerPhase(pc))
    && (pc == QueueProtocol.Client(Exited) ==> p.queue.closed && p.queue.jobs == [])
    && (pc.Client? && pc.local.Joining? ==>
          pc.local.next <= |p.workers| && forall i :: 0 <= i < pc.local.next ==> HasExited(p, p.workers[i]))
    && (pc.Client? && (pc.local.CheckJoin? || pc.local.Joining? || pc.local.Destroying?) ==> p.queue.closed)
    && (pc == QueueProtocol.Client(Destroying) || pc == QueueProtocol.CloseStart(Destroying) ==> !p.started)
    && (pc.CloseStart? ==> pc.resume.CheckJoin? || pc.resume.Destroying?)
  }

  /** started is cleared only after every worker has been joined. */
  ghost predicate StoppedOk(p: Pool) {
    && |p.workers| > 0
    && (forall i :: 0 <= i < |p.workers| ==> p.workers[i] in p.queue.pc)
    && (!p.started ==> forall i :: 0 <= i < |p.workers| ==> HasExited(p, p.workers[i]))
  }

  ghost predicate PoolInv(p: Pool) {
    && QueueProtocol.QueueInv(p.queue) && LedgerInv(View(p)) && StoppedOk(p)
    && forall t :: t in p.queue.pc ==> PhaseOk(p, t)
  }

  // ---------------------------------------------------------------- every step is an entry

  lemma HoldsMove(pc: map<Thread, Pc>, t: Thread, to: Pc)
    requires t in pc
    ensures t in Holds(pc) && Holds(pc)[t] == HoldOf(pc[t])
    ensures Holds(pc[t := to]) == Holds(pc)[t := HoldOf(to)]
    ensures HoldOf(to) == HoldOf(pc[t]) ==> Holds(pc[t := to]) == Holds(pc)
  {
  }

  lemma HoldsAwaken(pc: map<Thread, Pc>, woken: set<Thread>)
    ensures Holds(QueueProtocol.Awaken(pc, woken)) == Holds(pc)
  {
  }

  function SubmitEntry(pc: Pc, call: Call): Entry {
    match pc
    case PushReturned(_, ok) => if ok then Return else Nothing
    case Client(Idle) => if call.Submit? then NewJob(call.executable, call.hasCleanup) else Nothing
    case Client(Rejecting(_)) => Reject
    case _ => Nothing
  }

  lemma SubmitIsEntry(p: Pool, t: Thread, call: Call)
    requires t in p.queue.pc && ActivityOf(p.queue.pc[t]).InSubmit?
    ensures var e := SubmitEntry(p.queue.pc[t], call);
            CanEnter(View(p), t, e) && View(SubmitNext(p, t, call)) == Enter(View(p), t, e)
  {
    hide Holds, CleanupOf, SetAt;
    HoldsMove(p.queue.pc, t, SubmitNext(p, t, call).queue.pc[t]);
  }

  function WorkerEntry(pc: Pc): Entry {
    match pc
    case Client(Executing(_)) => Execute
    case Client(Cleaning(_)) => Finish
    case _ => Nothing
  }

  lemma WorkerIsEntry(p: Pool, t: Thread)
    requires t in p.queue.pc && ActivityOf(p.queue.pc[t]).InWorker?
    ensures var e := WorkerEntry(p.queue.pc[t]);
            CanEnter(View(p), t, e) && View(WorkerNext(p, t)) == Enter(View(p), t, e)
  {
    hide Holds, CleanupOf, SetAt;
    HoldsMove(p.queue.pc, t, WorkerNext(p, t).queue.pc[t]);
  }

  lemma NoCleanups()
    ensures CleanupsOf([]) == []
  {
  }

  /** Destroying an empty queue calls no cleanup. */
  lemma StopIsEntry(p: Pool, t: Thread)
    requires t in p.queue.pc && ActivityOf(p.queue.pc[t]).InStop?
    requires p.queue.pc[t] == QueueProtocol.Client(Destroying) ==> p.queue.jobs == []
    ensures View(StopNext(p, t)) == View(p) && t in View(p).holds
  {
    hide Holds, CleanupsOf;
    HoldsMove(p.queue.pc, t, StopNext(p, t).queue.pc[t]);
    NoCleanups();
    assert p.events + [] == p.events;
  }

  function QueueEntry(after: Pc): Entry {
    match after
    case PushReturned(_, true) => Store
    case PopReturned(Some(_)) => Take
    case _ => Nothing
  }

  /** The threads' holds after a step inside the queue: those before it, but for the thread itself. */
  lemma QueueHolds(p: Pool, m: Move)
    requires Enabled(p, m) && ActivityOf(p.queue.pc[m.thread]).InQueue?
    ensures var pc := QueueNext(p, m).queue.pc; Holds(pc) == Holds(p.queue.pc)[m.thread := HoldOf(pc[m.thread])]
    ensures m.thread in Holds(p.queue.pc) && Holds(p.queue.pc)[m.thread] == HoldOf(p.queue.pc[m.thread])
  {
    hide Holds, HoldOf, SetAt, QueueProtocol.Awaken, QueueProtocol.At, QueueProtocol.Signal, Push, Pop;
    var t, pc, to := m.thread, p.queue.pc, QueueNext(p, m).queue.pc[m.thread];
    HoldsMove(pc, t, to);
    HoldsAwaken(pc, m.woken);
    AwakenKeepsHold(pc, m.woken, t);
    HoldsMove(QueueProtocol.Awaken(pc, m.woken), t, to);
  }

  /** What a step inside the queue does with its job, as an entry says. */
  lemma QueueJobs(p: Pool, m: Move)
    requires Enabled(p, m) && ActivityOf(p.queue.pc[m.thread]).InQueue?
    requires p.queue.pc[m.thread].CloseStart? ==> HoldOf(QueueProtocol.Client(p.queue.pc[m.thread].resume)).NoJob?
    ensures var hold, to, jobs := HoldOf(p.queue.pc[m.thread]), QueueNext(p, m).queue.pc[m.thread], QueueNext(p, m).queue.jobs;
            if to.PushReturned? && to.ok then hold == Submitting(to.job) && jobs == p.queue.jobs + [to.job]
            else if to.PopReturned? && to.got.Some? then
              && hold.NoJob? && p.queue.jobs != [] && to.got.value == p.queue.jobs[0] && jobs == p.queue.jobs[1..]
            else HoldOf(to) == hold && jobs == p.queue.jobs
  {
    hide SetAt, QueueProtocol.Awaken, QueueProtocol.At, QueueProtocol.Signal;
  }

  lemma QueueIsEntry(p: Pool, m: Move)
    requires Enabled(p, m) && ActivityOf(p.queue.pc[m.thread]).InQueue?
    requires p.queue.pc[m.thread].CloseStart? ==> HoldOf(QueueProtocol.Client(p.queue.pc[m.thread].resume)).NoJob?
    ensures var e := QueueEntry(QueueNext(p, m).queue.pc[m.thread]);
            CanEnter(View(p), m.thread, e) && View(QueueNext(p, m)) == Enter(View(p), m.thread, e)
  {
    hide Holds, SetAt, QueueProtocol.Next, QueueProtocol.Enabled, CleanupOf;
    QueueHolds(p, m);
    QueueJobs(p, m);
    var holds, t := Holds(p.queue.pc), m.thread;
    assert holds[t := holds[t]] == holds;
  }

  lemma AwakenKeepsHold(pc: map<Thread, Pc>, woken: set<Thread>, t: Thread)
    requires t in pc
    ensures t in QueueProtocol.Awaken(pc, woken) && HoldOf(QueueProtocol.Awaken(pc, woken)[t]) == HoldOf(pc[t])
  {
  }

  /** Every step of the pool is at most one entry of the ledger. */
  lemma NextLedger(p: Pool, m: Move)
    requires Enabled(p, m) && PoolInv(p)
    ensures LedgerInv(View(Next(p, m)))
  {
    hide LedgerInv, View, Enter, CanEnter, QueueNext, SubmitNext, WorkerNext, StopNext;
    var t, pc := m.thread, p.queue.pc[m.thread];
    assert PhaseOk(p, t);
    match ActivityOf(pc)
    case InQueue =>
      QueueIsEntry(p, m);
      EnterInv(View(p), t, QueueEntry(QueueNext(p, m).queue.pc[t]));
    case InSubmit =>
      SubmitIsEntry(p, t, m.call);
      EnterInv(View(p), t, SubmitEntry(pc, m.call));
    case InWorker =>
      WorkerIsEntry(p, t);
      EnterInv(View(p), t, WorkerEntry(pc));
    case InStop =>
      StoppedIsDrained(p, t);
      StopIsEntry(p, t);
  }

  lemma StoppedIsDrained(p: Pool, t: Thread)
    requires PoolInv(p) && t in p.queue.pc
    ensures !p.started ==> p.queue.closed && p.queue.jobs == []
    ensures p.queue.pc[t] == QueueProtocol.Client(Destroying) ==> p.queue.jobs == []
  {
    hide LedgerInv, QueueProtocol.QueueInv;
    assert PhaseOk(p, t);
    if !p.started {
      assert HasExited(p, p.workers[0]);
      assert PhaseOk(p, p.workers[0]);
    }
  }

  // ---------------------------------------------------------------- every step keeps the queue's invariant

  lemma LocalIsOutside(q: Queue, t: Thread, to: Pc)
    requires QueueProtocol.QueueInv(q) && t in q.pc && !ActivityOf(q.pc[t]).InQueue?
    requires to.Client? || to.PushStart? || to.PopStart? || to.CloseStart?
    ensures QueueProtocol.QueueInv(q.(pc := q.pc[t := to]))
  {
    hide QueueProtocol.QueueInv;
    QueueProtocol.NextInv(q, t, QueueProtocol.Outside(to));
  }

  lemma NextQueue(p: Pool, m: Move)
    requires Enabled(p, m) && PoolInv(p)
    ensures QueueProtocol.QueueInv(Next(p, m).queue)
  {
    hide LedgerInv, View, QueueProtocol.QueueInv, QueueProtocol.Next, QueueProtocol.Enabled, PhaseOk, StoppedOk, ActivityOf;
    hide QueueNext, SubmitNext, WorkerNext, StopNext;
    var t, pc := m.thread, p.queue.pc[m.thread];
    if ActivityOf(pc).InQueue? {
      QueueProtocol.NextInv(p.queue, t, QueueStep(pc, m));
    } else {
      LocalIsOutside(p.queue, t, Next(p, m).queue.pc[t]);
    }
  }

  // ---------------------------------------------------------------- every step keeps the phases

  /** What a step leaves alone. */
  lemma NextOthers(p: Pool, m: Move, u: Thread)
    requires Enabled(p, m) && u in p.queue.pc && u != m.thread
    ensures u in Next(p, m).queue.pc
    ensures var pc := Next(p, m).queue.pc[u]; pc == p.queue.pc[u] || pc == QueueProtocol.Awakened(p.queue.pc[u])
  {
    hide QueueNext, SubmitNext, WorkerNext, StopNext, QueueProtocol.Next, QueueProtocol.Enabled, ActivityOf;
    hide QueueProtocol.Awakened;
    if ActivityOf(p.queue.pc[m.thread]).InQueue? {
      QueueProtocol.NextOthers(p.queue, m.thread, QueueStep(p.queue.pc[m.thread], m));
    }
  }

  lemma NextShared(p: Pool, m: Move)
    requires Enabled(p, m)
    ensures Next(p, m).workers == p.workers && (!p.started ==> !Next(p, m).started)
    ensures Next(p, m).queue.pc.Keys == p.queue.pc.Keys
    ensures p.queue.closed ==> Next(p, m).queue.closed
    ensures p.queue.closed && p.queue.jobs == [] ==> Next(p, m).queue.jobs == []
  {
    hide QueueNext, SubmitNext, WorkerNext, StopNext, QueueProtocol.Next, QueueProtocol.Enabled, ActivityOf;
    if ActivityOf(p.queue.pc[m.thread]).InQueue? {
      var step := QueueStep(p.queue.pc[m.thread], m);
      QueueProtocol.NextOthers(p.queue, m.thread, step);
      if p.queue.closed {
        QueueProtocol.DrainedStays(p.queue, m.thread, step);
      }
    }
  }

  lemma ExitedStays(p: Pool, m: Move, w: Thread)
    requires Enabled(p, m) && HasExited(p, w)
    ensures HasExited(Next(p, m), w)
  {
    hide Next, QueueProtocol.Enabled;
    if w != m.thread {
      NextOthers(p, m, w);
    }
  }

  lemma NextPhaseOther(p: Pool, m: Move, u: Thread)
    requires Enabled(p, m) && PoolInv(p) && u in p.queue.pc && u != m.thread
    ensures u in Next(p, m).queue.pc && PhaseOk(Next(p, m), u)
  {
    hide Next, LedgerInv, QueueProtocol.QueueInv, QueueProtocol.Enabled, Enabled;
    NextShared(p, m);
    NextOthers(p, m, u);
    assert PhaseOk(p, u);
    forall w | HasExited(p, w)
      ensures HasExited(Next(p, m), w)
    {
      ExitedStays(p, m, w);
    }
  }

  lemma QueuePhase(p: Pool, m: Move)
    requires Enabled(p, m) && PoolInv(p) && ActivityOf(p.queue.pc[m.thread]).InQueue?
    ensures PhaseOk(QueueNext(p, m), m.thread)
  {
    hide LedgerInv, View, SetAt, QueueProtocol.Awaken, QueueProtocol.At, QueueProtocol.Signal;
    hide QueueProtocol.QueueInv, HasExited;
    assert PhaseOk(p, m.thread);
  }

  /** A position that says nothing about the pool. */
  predicate Plain(pc: Pc) {
    && !WorkerPhase(pc)
    && (pc.Client? ==> !pc.local.CheckJoin? && !pc.local.Joining? && !pc.local.Destroying?)
    && (pc.CloseStart? ==> pc.resume.CheckJoin?)
  }

  lemma SubmitTarget(p: Pool, t: Thread, call: Call)
    requires t in p.queue.pc && ActivityOf(p.queue.pc[t]).InSubmit?
    ensures Plain(p.queue.pc[t]) && Plain(SubmitNext(p, t, call).queue.pc[t])
  {
    hide SetAt, CleanupOf;
  }

  lemma SubmitPhase(p: Pool, t: Thread, call: Call)
    requires PoolInv(p) && t in p.queue.pc && ActivityOf(p.queue.pc[t]).InSubmit?
    ensures PhaseOk(SubmitNext(p, t, call), t)
  {
    hide LedgerInv, View, SubmitNext, ActivityOf, QueueProtocol.QueueInv, HasExited, StoppedOk;
    SubmitTarget(p, t, call);
    assert PhaseOk(p, t);
  }

  lemma WorkerPhaseKept(p: Pool, t: Thread)
    requires PoolInv(p) && t in p.queue.pc && ActivityOf(p.queue.pc[t]).InWorker?
    ensures PhaseOk(WorkerNext(p, t), t)
  {
    hide LedgerInv, View, SetAt, CleanupOf, HasExited, QueueProtocol.Fifo, QueueProtocol.ConsumersCalled;
    hide QueueProtocol.ProducersCalled;
    assert PhaseOk(p, t);
  }

  lemma StopPhase(p: Pool, m: Move)
    requires Enabled(p, m) && PoolInv(p) && ActivityOf(p.queue.pc[m.thread]).InStop?
    ensures PhaseOk(StopNext(p, m.thread), m.thread) && StoppedOk(StopNext(p, m.thread))
  {
    hide LedgerInv, View, CleanupsOf, QueueProtocol.QueueInv, QueueProtocol.Enabled;
    var t, p' := m.thread, StopNext(p, m.thread);
    assert PhaseOk(p, t);
    forall w | HasExited(p, w)
      ensures HasExited(p', w)
    {
    }
  }

  lemma NextPhaseOwn(p: Pool, m: Move)
    requires Enabled(p, m) && PoolInv(p)
    ensures m.thread in Next(p, m).queue.pc && PhaseOk(Next(p, m), m.thread)
  {
    hide QueueNext, SubmitNext, WorkerNext, StopNext, PoolInv, QueueProtocol.Enabled, PhaseOk, View;
    match ActivityOf(p.queue.pc[m.thread])
    case InQueue => QueuePhase(p, m);
    case InSubmit => SubmitPhase(p, m.thread, m.call);
    case InWorker => WorkerPhaseKept(p, m.thread);
    case InStop => StopPhase(p, m);
  }

  lemma NextStopped(p: Pool, m: Move)
    requires Enabled(p, m) && PoolInv(p)
    ensures StoppedOk(Next(p, m))
  {
    hide QueueNext, SubmitNext, WorkerNext, StopNext, Enabled, PhaseOk, View, LedgerInv, QueueProtocol.QueueInv, HasExited;
    NextShared(p, m);
    forall w | HasExited(p, w)
      ensures HasExited(Next(p, m), w)
    {
      ExitedStays(p, m, w);
    }
    if ActivityOf(p.queue.pc[m.thread]).InStop? {
      StopPhase(p, m);
    }
  }

  lemma NextInv(p: Pool, m: Move)
    requires Enabled(p, m) && PoolInv(p)
    ensures PoolInv(Next(p, m))
  {
    hide Next, PhaseOk, StoppedOk, LedgerInv, View, QueueProtocol.QueueInv;
    NextQueue(p, m);
    NextLedger(p, m);
    NextStopped(p, m);
    NextPhaseOwn(p, m);
    NextShared(p, m);
    forall u | u in Next(p, m).queue.pc
      ensures PhaseOk(Next(p, m), u)
    {
      if u != m.thread {
        NextPhaseOther(p, m, u);
      }
    }
  }

  // ---------------------------------------------------------------- runs

  ghost predicate IsRun(states: seq<Pool>, moves: seq<Move>) {
    && |states| == |moves| + 1
    && forall i :: 0 <= i < |moves| ==> Enabled(states[i], moves[i]) && states[i + 1] == Next(states[i], moves[i])
  }

  lemma InitInv(p: Pool)
    requires Init(p)
    ensures PoolInv(p)
  {
    hide QueueProtocol.QueueInv, HasExited;
    QueueProtocol.InitInv(p.queue);
  }

  lemma {:induction false} RunInv(states: seq<Pool>, moves: seq<Move>, n: nat)
    requires IsRun(states, moves) && Init(states[0]) && n < |states|
    ensures PoolInv(states[n])
  {
    hide PoolInv, Next, Enabled;
    if n == 0 {
      InitInv(states[0]);
    } else {
      RunInv(states, moves, n - 1);
      NextInv(states[n - 1], moves[n - 1]);
    }
  }

  /** The callbacks a job gets in its life. */
  function Life(job: Job, accepted: bool): seq<Event> {
    (if accepted then [Executed(job.id)] else []) + (if job.hasCleanup then [Cleaned(job.id)] else [])
  }

  /** At any moment of any run the callbacks called for a job are a beginning of one of its two
      possible lives; once submit has returned, of the one the return value promises. */
  lemma AtMostOnce(states: seq<Pool>, moves: seq<Move>, n: nat, id: nat)
    requires IsRun(states, moves) && Init(states[0]) && n < |states| && id < |states[n].submitted|
    ensures |states[n].result| == |states[n].submitted|
    ensures exists accepted ::
      && EventsOf(states[n].events, id) <= Life(states[n].submitted[id], accepted)
      && states[n].result[id] in {None, Some(accepted)}
  {
    RunInv(states, moves, n);
    hide IsRun, Init, EventsOf, HolderOk, QueueProtocol.QueueInv;
    var l := View(states[n]);
    assert PlaceOk(l, id) && EventsOk(l, id) && ResultOk(l, id);
    var accepted := l.place[id] != Gone(false) && l.result[id] != Some(false);
    assert EventsOf(states[n].events, id) <= Life(states[n].submitted[id], accepted);
  }

  /** Nobody is inside thread_pool_submit. */
  ghost predicate NoSubmitInside(p: Pool) {
    forall t :: t in p.queue.pc ==> !HoldOf(p.queue.pc[t]).Submitting? && !HoldOf(p.queue.pc[t]).Returning?
  }

  /** Exactly once.  When stop has joined the workers and nobody is inside submit, every job submitted
      so far has had its whole life: executed once and then cleaned up once if submit returned 1,
      and only cleaned up once if it returned 0. */
  lemma ExactlyOnce(states: seq<Pool>, moves: seq<Move>, n: nat, id: nat)
    requires IsRun(states, moves) && Init(states[0]) && n < |states| && id < |states[n].submitted|
    requires !states[n].started && NoSubmitInside(states[n])
    ensures |states[n].result| == |states[n].submitted| && states[n].result[id].Some?
    ensures EventsOf(states[n].events, id) == Life(states[n].submitted[id], states[n].result[id].value)
  {
    RunInv(states, moves, n);
    AfterStopDone(states[n], id);
  }

  lemma AfterStopDone(p: Pool, id: nat)
    requires PoolInv(p) && id < |p.submitted| && !p.started && NoSubmitInside(p)
    ensures |p.result| == |p.submitted| && p.result[id].Some?
    ensures EventsOf(p.events, id) == Life(p.submitted[id], p.result[id].value)
  {
    hide EventsOf, QueueProtocol.QueueInv;
    var l := View(p);
    assert PlaceOk(l, id) && EventsOk(l, id) && ResultOk(l, id);
    StoppedIsDrained(p, p.workers[0]);
  }

  // ---------------------------------------------------------------- stop can always finish

  /** How far a worker is from its next pop, or from its end. */
  function WorkRank(pc: Pc): nat {
    match pc
    case Client(Exited) => 0
    case PopReturned(got) => if got.Some? then 5 else 1
    case Client(Cleaning(_)) => 3
    case Client(Executing(_)) => 4
    case PopAsleep => 6
    case _ => 2
  }

  /** What the steps of the workers keep for a thread j that is not one of them. */
  ghost predicate WindsUp(p: Pool, later: Pool, j: Thread)
    requires j in p.queue.pc
  {
    && PoolInv(later) && later.queue.closed && later.workers == p.workers && later.started == p.started
    && j in later.queue.pc && later.queue.pc[j] == p.queue.pc[j]
    && forall u :: HasExited(p, u) ==> HasExited(later, u)
  }

  /** In a closed queue no worker sleeps, and each of its steps leads towards its end. */
  lemma WorkerDescends(p: Pool, m: Move)
    requires Enabled(p, m) && p.queue.closed && WorkerPhase(p.queue.pc[m.thread])
    requires !p.queue.pc[m.thread].PopAsleep?
    ensures m.thread in Next(p, m).queue.pc
    ensures var p' := Next(p, m);
            var rank, rank' := WorkRank(p.queue.pc[m.thread]), WorkRank(p'.queue.pc[m.thread]);
            |p'.queue.jobs| < |p.queue.jobs| || (|p'.queue.jobs| == |p.queue.jobs| && rank' < rank)
  {
    hide SetAt, CleanupOf, QueueProtocol.Awaken, QueueProtocol.At, QueueProtocol.Signal;
  }

  lemma NobodySleeps(p: Pool, w: Thread)
    requires PoolInv(p) && p.queue.closed && w in p.queue.pc
    ensures !p.queue.pc[w].PopAsleep?
  {
    hide LedgerInv, View;
    assert w in QueueProtocol.At(p.queue.pc, QueueProtocol.ConsumersAsleep) <==> p.queue.pc[w].PopAsleep?;
  }

  lemma WorkerStep(p: Pool, w: Thread, j: Thread) returns (m: Move)
    requires PoolInv(p) && p.queue.closed && w in p.workers && w in p.queue.pc && !HasExited(p, w)
    requires j in p.queue.pc && p.queue.pc[j].Client? && j !in p.workers
    ensures m.thread == w && Enabled(p, m) && WindsUp(p, Next(p, m), j)
    ensures var p' := Next(p, m);
            && w in p'.queue.pc
            && (|p'.queue.jobs| < |p.queue.jobs| ||
                (|p'.queue.jobs| == |p.queue.jobs| && WorkRank(p'.queue.pc[w]) < WorkRank(p.queue.pc[w])))
  {
    m := Move(w, Stop, QueueProtocol.At(p.queue.pc, QueueProtocol.ProducersAsleep));
    NobodySleeps(p, w);
    WorkerIsEnabled(p, m);
    hide LedgerInv, View, QueueProtocol.QueueInv, QueueProtocol.Enabled, QueueProtocol.Next, QueueNext, WorkerNext;
    hide WorkRank;
    NextInv(p, m);
    NextShared(p, m);
    NextOthers(p, m, j);
    WorkerDescends(p, m);
    forall u | HasExited(p, u)
      ensures HasExited(Next(p, m), u)
    {
      ExitedStays(p, m, u);
    }
  }

  lemma WorkerIsEnabled(p: Pool, m: Move)
    requires PoolInv(p) && m.thread in p.workers && m.thread in p.queue.pc && !HasExited(p, m.thread)
    requires m.woken == QueueProtocol.At(p.queue.pc, QueueProtocol.ProducersAsleep)
    ensures Enabled(p, m) && WorkerPhase(p.queue.pc[m.thread])
    ensures ActivityOf(p.queue.pc[m.thread]).InQueue? || ActivityOf(p.queue.pc[m.thread]).InWorker?
  {
    hide LedgerInv, View, QueueProtocol.QueueInv;
    assert PhaseOk(p, m.thread);
  }

  lemma RunPrepend(p: Pool, m: Move, states: seq<Pool>, moves: seq<Move>)
    requires IsRun(states, moves) && Enabled(p, m) && states[0] == Next(p, m)
    ensures IsRun([p] + states, [m] + moves)
  {
    hide Next, Enabled;
  }

  lemma RunJoin(states: seq<Pool>, moves: seq<Move>, more: seq<Pool>, turns: seq<Move>)
    requires IsRun(states, moves) && IsRun(more, turns) && more[0] == states[|moves|]
    ensures IsRun(states + more[1..], moves + turns) && (states + more[1..])[|moves + turns|] == more[|turns|]
  {
    hide Next, Enabled;
    var all, both := states + more[1..], moves + turns;
    forall i | 0 <= i < |both|
      ensures Enabled(all[i], both[i]) && all[i + 1] == Next(all[i], both[i])
    {
      if i >= |moves| {
        assert all[i] == more[i - |moves|] && both[i] == turns[i - |moves|];
      }
    }
  }

  lemma {:induction false} WorkerCanExit(p: Pool, w: Thread, j: Thread) returns (states: seq<Pool>, moves: seq<Move>)
    requires PoolInv(p) && p.queue.closed && w in p.workers && w in p.queue.pc
    requires j in p.queue.pc && p.queue.pc[j].Client? && j !in p.workers
    ensures IsRun(states, moves) && states[0] == p
    ensures WindsUp(p, states[|moves|], j) && HasExited(states[|moves|], w)
    decreases |p.queue.jobs|, WorkRank(p.queue.pc[w])
  {
    hide PoolInv, Next, Enabled, WorkRank;
    if HasExited(p, w) {
      states, moves := [p], [];
    } else {
      var m := WorkerStep(p, w, j);
      states, moves := WorkerCanExit(Next(p, m), w, j);
      RunPrepend(p, m, states, moves);
      states, moves := [p] + states, [m] + moves;
    }
  }

  ghost predicate FirstExited(p: Pool, k: nat)
    requires k <= |p.workers|
  {
    forall i :: 0 <= i < k ==> HasExited(p, p.workers[i])
  }

  lemma {:induction false} WorkersCanExit(p: Pool, k: nat, j: Thread) returns (states: seq<Pool>, moves: seq<Move>)
    requires PoolInv(p) && p.queue.closed && k <= |p.workers|
    requires j in p.queue.pc && p.queue.pc[j].Client? && j !in p.workers
    ensures IsRun(states, moves) && states[0] == p
    ensures WindsUp(p, states[|moves|], j) && FirstExited(states[|moves|], k)
  {
    hide PoolInv, Next, Enabled;
    if k == 0 {
      states, moves := [p], [];
    } else {
      states, moves := WorkersCanExit(p, k - 1, j);
      var q := states[|moves|];
      WorkersAreThreads(q);
      var more, turns := WorkerCanExit(q, p.workers[k - 1], j);
      RunJoin(states, moves, more, turns);
      states, moves := states + more[1..], moves + turns;
    }
  }

  lemma WorkersAreThreads(p: Pool)
    requires PoolInv(p)
    ensures forall i :: 0 <= i < |p.workers| ==> p.workers[i] in p.queue.pc
  {
    hide LedgerInv, View, QueueProtocol.QueueInv, PhaseOk;
  }

  /** Once the workers have exited, the joins go through and started is cleared. */
  lemma {:induction false} JoinsGoThrough(p: Pool, j: Thread) returns (states: seq<Pool>, moves: seq<Move>)
    requires PoolInv(p) && FirstExited(p, |p.workers|)
    requires j in p.queue.pc && p.queue.pc[j].Client? && p.queue.pc[j].local.Joining?
    ensures IsRun(states, moves) && states[0] == p
    ensures var last := states[|moves|]; PoolInv(last) && !last.started
    decreases |p.workers| - p.queue.pc[j].local.next
  {
    JoinIsEnabled(p, j);
    var m := Move(j, Stop, {});
    JoinStep(p, j);
    var q := Next(p, m);
    hide PoolInv, Next, Enabled;
    NextInv(p, m);
    if q.started {
      states, moves := JoinsGoThrough(q, j);
    } else {
      states, moves := [q], [];
    }
    RunPrepend(p, m, states, moves);
    states, moves := [p] + states, [m] + moves;
  }

  lemma JoinIsEnabled(p: Pool, j: Thread)
    requires FirstExited(p, |p.workers|)
    requires j in p.queue.pc && p.queue.pc[j].Client? && p.queue.pc[j].local.Joining?
    ensures Enabled(p, Move(j, Stop, {}))
  {
    var k := p.queue.pc[j].local.next;
    assert k < |p.workers| ==> HasExited(p, p.workers[k]);
  }

  lemma JoinStep(p: Pool, j: Thread)
    requires PoolInv(p) && FirstExited(p, |p.workers|)
    requires j in p.queue.pc && p.queue.pc[j].Client? && p.queue.pc[j].local.Joining?
    requires Enabled(p, Move(j, Stop, {}))
    ensures var q := Next(p, Move(j, Stop, {}));
            && q.workers == p.workers && FirstExited(q, |q.workers|)
            && (q.started ==>
                  && j in q.queue.pc && q.queue.pc[j].Client? && q.queue.pc[j].local.Joining?
                  && p.queue.pc[j].local.next < q.queue.pc[j].local.next <= |p.workers|)
  {
    hide LedgerInv, View, QueueProtocol.QueueInv, QueueProtocol.Enabled;
    assert PhaseOk(p, j);
    var m := Move(j, Stop, {});
    forall i | 0 <= i < |p.workers|
      ensures HasExited(Next(p, m), p.workers[i])
    {
      ExitedStays(p, m, p.workers[i]);
    }
  }

  /** A thread inside thread_pool_stop, or inside it on behalf of thread_pool_destroy. */
  predicate InStopCall(pc: Pc) {
    || (pc.Client? && (pc.local.CheckJoin? || pc.local.Joining?))
    || (pc.CloseStart? && pc.resume.CheckJoin?)
  }

  function StopStage(pc: Pc): nat {
    if pc.CloseStart? then 2 else if pc.Client? && pc.local.CheckJoin? then 1 else 0
  }

  /** The two steps of stop before its joins. */
  lemma StopBegins(p: Pool, j: Thread) returns (m: Move)
    requires PoolInv(p) && j in p.queue.pc && InStopCall(p.queue.pc[j]) && StopStage(p.queue.pc[j]) > 0 && p.started
    ensures Enabled(p, m) && j in Next(p, m).queue.pc
    ensures InStopCall(Next(p, m).queue.pc[j]) && StopStage(Next(p, m).queue.pc[j]) < StopStage(p.queue.pc[j])
  {
    hide LedgerInv, View, QueueProtocol.QueueInv, QueueProtocol.At;
    var consumers := QueueProtocol.At(p.queue.pc, QueueProtocol.ConsumersAsleep);
    var producers := QueueProtocol.At(p.queue.pc, QueueProtocol.ProducersAsleep);
    m := Move(j, Stop, consumers + producers);
  }

  lemma NoWorkerStops(p: Pool, j: Thread)
    requires PoolInv(p) && j in p.queue.pc && InStopCall(p.queue.pc[j])
    ensures j !in p.workers && (p.queue.pc[j].Client? ==> p.queue.closed)
    ensures !p.started ==> FirstExited(p, |p.workers|)
  {
    hide LedgerInv, View, QueueProtocol.QueueInv;
    assert PhaseOk(p, j);
  }

  lemma {:induction false} StopFinishes(p: Pool, j: Thread) returns (states: seq<Pool>, moves: seq<Move>)
    requires PoolInv(p) && j in p.queue.pc && InStopCall(p.queue.pc[j])
    ensures IsRun(states, moves) && states[0] == p
    ensures var last := states[|moves|]; PoolInv(last) && !last.started
    decreases StopStage(p.queue.pc[j])
  {
    hide PoolInv, Next, Enabled;
    NoWorkerStops(p, j);
    if !p.started {
      states, moves := [p], [];
    } else if StopStage(p.queue.pc[j]) > 0 {
      var m := StopBegins(p, j);
      NextInv(p, m);
      states, moves := StopFinishes(Next(p, m), j);
      RunPrepend(p, m, states, moves);
      states, moves := [p] + states, [m] + moves;
    } else {
      states, moves := WorkersCanExit(p, |p.workers|, j);
      var more, turns := JoinsGoThrough(states[|moves|], j);
      RunJoin(states, moves, more, turns);
      states, moves := states + more[1..], moves + turns;
    }
  }

  /** Stop never deadlocks: from every state of every run in which a thread is inside stop there is a
      continuation after which every worker has exited, the queue is drained and started is false. */
  lemma StopCanFinish(states: seq<Pool>, moves: seq<Move>, n: nat, j: Thread) returns (more: seq<Pool>, turns: seq<Move>)
    requires IsRun(states, moves) && Init(states[0]) && n < |states|
    requires j in states[n].queue.pc && InStopCall(states[n].queue.pc[j])
    ensures IsRun(more, turns) && more[0] == states[n]
    ensures var last := more[|turns|];
            && !last.started && last.queue.closed && last.queue.jobs == []
            && FirstExited(last, |last.workers|)
  {
    RunInv(states, moves, n);
    hide Next, Enabled, Init;
    more, turns := StopFinishes(states[n], j);
    StoppedIsDone(more[|turns|]);
  }

  lemma StoppedIsDone(p: Pool)
    requires PoolInv(p) && !p.started
    ensures p.queue.closed && p.queue.jobs == [] && FirstExited(p, |p.workers|)
  {
    StoppedIsDrained(p, p.workers[0]);
  }
}

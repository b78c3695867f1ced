/** What submitting to a running pool promises: src/server/pool/thread_pool.c with job_queue.c.

  A job is refused only for want of an execute callback or because of a stop, and as long as the queue is
  open every submitted job can be executed.
 */
module PoolProgress {
  import opened Common
  import opened JobQueue
  import QueueProtocol
  import opened ThreadPool

  // ---------------------------------------------------------------- why a job is refused

  /** A job on its way into the queue has an execute callback; one about to be refused has none, or the
      queue is closed. */
  ghost predicate SubmitOk(p: Pool, t: Thread)
    requires t in p.queue.pc
  {
    var pc := p.queue.pc[t];
    && (QueueProtocol.InPush(pc) || (pc.PushReturned? && pc.ok) ==> pc.job.executable)
    && (pc.Client? && pc.local.Rejecting? ==> !pc.local.job.executable || p.queue.closed)
  }

  /** A refused job has no execute callback, or the queue is closed; an accepted one has a callback. */
  ghost predicate ResultsOk(p: Pool) {
    && |p.result| == |p.submitted|
    && forall id :: 0 <= id < |p.result| ==>
         && (p.result[id] == Some(false) ==> !p.submitted[id].executable || p.queue.closed)
         && (p.result[id] == Some(true) ==> p.submitted[id].executable)
  }

  ghost predicate RefusalInv(p: Pool) {
    ResultsOk(p) && forall t :: t in p.queue.pc ==> SubmitOk(p, t)
  }

  /** The queue of a pool that is not started is closed. */
  lemma NotStartedIsClosed(p: Pool)
    requires PoolInv(p) && !p.started
    ensures p.queue.closed
  {
    hide LedgerInv, QueueProtocol.QueueInv, PhaseOk;
    StoppedIsDrained(p, p.workers[0]);
  }

  lemma ReturnedRefused(p: Pool, t: Thread)
    requires PoolInv(p) && t in p.queue.pc && p.queue.pc[t].PushReturned? && !p.queue.pc[t].ok
    ensures p.queue.closed || !p.queue.pc[t].job.executable
  {
    hide LedgerInv, PhaseOk, StoppedOk;
  }

  lemma QueueSubmitOk(p: Pool, m: Move)
    requires Enabled(p, m) && ActivityOf(p.queue.pc[m.thread]).InQueue? && SubmitOk(p, m.thread) && PhaseOk(p, m.thread)
    ensures SubmitOk(QueueNext(p, m), m.thread)
  {
    hide SetAt, QueueProtocol.Awaken, QueueProtocol.At, QueueProtocol.Signal, HasExited;
  }

  lemma SubmitSubmitOk(p: Pool, t: Thread, call: Call)
    requires t in p.queue.pc && ActivityOf(p.queue.pc[t]).InSubmit? && SubmitOk(p, t)
    requires !p.started ==> p.queue.closed
    requires p.queue.pc[t].PushReturned? && !p.queue.pc[t].ok ==> p.queue.closed || !p.queue.pc[t].job.executable
    ensures SubmitOk(SubmitNext(p, t, call), t)
  {
    hide SetAt, CleanupOf;
  }

  lemma WorkerSubmitOk(p: Pool, t: Thread)
    requires t in p.queue.pc && ActivityOf(p.queue.pc[t]).InWorker?
    ensures SubmitOk(WorkerNext(p, t), t)
  {
    hide SetAt, CleanupOf;
  }

  lemma StopSubmitOk(p: Pool, t: Thread)
    requires t in p.queue.pc && ActivityOf(p.queue.pc[t]).InStop?
    ensures SubmitOk(StopNext(p, t), t)
  {
    hide SetAt, CleanupsOf;
  }

  lemma OwnSubmitOk(p: Pool, m: Move)
    requires Enabled(p, m) && PoolInv(p) && SubmitOk(p, m.thread)
    ensures m.thread in Next(p, m).queue.pc && SubmitOk(Next(p, m), m.thread)
  {
    hide LedgerInv, QueueProtocol.QueueInv, PhaseOk, StoppedOk, SubmitOk, ActivityOf, QueueProtocol.Enabled;
    hide QueueNext, SubmitNext, WorkerNext, StopNext, View;
    var t, pc := m.thread, p.queue.pc[m.thread];
    if !p.started {
      NotStartedIsClosed(p);
    }
    if pc.PushReturned? && !pc.ok {
      ReturnedRefused(p, t);
    }
    match ActivityOf(pc)
    case InQueue => QueueSubmitOk(p, m);
    case InSubmit => SubmitSubmitOk(p, t, m.call);
    case InWorker => WorkerSubmitOk(p, t);
    case InStop => StopSubmitOk(p, t);
  }

  lemma OtherSubmitOk(p: Pool, m: Move, u: Thread)
    requires Enabled(p, m) && u in p.queue.pc && u != m.thread && SubmitOk(p, u)
    ensures u in Next(p, m).queue.pc && SubmitOk(Next(p, m), u)
  {
    hide Next, Enabled;
    NextOthers(p, m, u);
    NextShared(p, m);
  }

  /** What a step does to the records of the submitted jobs. */
  lemma NextRecords(p: Pool, m: Move)
    requires Enabled(p, m) && |p.result| == |p.submitted|
    ensures var p', pc := Next(p, m), p.queue.pc[m.thread];
      && p.submitted <= p'.submitted && |p'.result| == |p'.submitted|
      && (forall id :: |p.result| <= id < |p'.result| ==> p'.result[id].None?)
      && forall id :: 0 <= id < |p.result| ==>
           || p'.result[id] == p.result[id]
           || (pc.Client? && pc.local.Rejecting? && pc.local.job.id == id && p'.result[id] == Some(false))
           || (pc.PushReturned? && pc.ok && pc.job.id == id && p'.result[id] == Some(true))
  {
    hide QueueProtocol.Next, QueueProtocol.Enabled, CleanupOf, CleanupsOf;
  }

  lemma HeldIsKnown(p: Pool, t: Thread)
    requires PoolInv(p) && t in p.queue.pc && (HoldOf(p.queue.pc[t]).Submitting? || HoldOf(p.queue.pc[t]).Returning?)
    ensures var job := HoldOf(p.queue.pc[t]).job;
            && job.id < |p.submitted| == |p.place| == |p.result| && p.submitted[job.id] == job && p.result[job.id].None?
  {
    hide QueueProtocol.QueueInv, PhaseOk, StoppedOk, EventsOk, EventsOf, PlaceOk, ResultOk, QueueOk;
    assert HolderOk(View(p), t);
  }

  lemma NextResults(p: Pool, m: Move)
    requires Enabled(p, m) && PoolInv(p) && RefusalInv(p)
    ensures ResultsOk(Next(p, m))
  {
    hide PoolInv, Next, QueueProtocol.Enabled;
    var t, pc := m.thread, p.queue.pc[m.thread];
    if (pc.Client? && pc.local.Rejecting?) || (pc.PushReturned? && pc.ok) {
      HeldIsKnown(p, t);
    }
    NextRecords(p, m);
    NextShared(p, m);
    assert SubmitOk(p, t);
  }

  lemma NextRefusal(p: Pool, m: Move)
    requires Enabled(p, m) && PoolInv(p) && RefusalInv(p)
    ensures RefusalInv(Next(p, m))
  {
    hide PoolInv, Next, QueueProtocol.Enabled, SubmitOk, ResultsOk;
    NextResults(p, m);
    NextShared(p, m);
    OwnSubmitOk(p, m);
    forall u | u in p.queue.pc && u != m.thread
      ensures u in Next(p, m).queue.pc && SubmitOk(Next(p, m), u)
    {
      OtherSubmitOk(p, m, u);
    }
  }

  lemma {:induction false} RunRefusal(states: seq<Pool>, moves: seq<Move>, n: nat)
    requires IsRun(states, moves) && Init(states[0]) && n < |states|
    ensures RefusalInv(states[n])
  {
    hide PoolInv, Next, Enabled;
    if n > 0 {
      hide RefusalInv;
      RunRefusal(states, moves, n - 1);
      RunInv(states, moves, n - 1);
      NextRefusal(states[n - 1], moves[n - 1]);
    }
  }

  /** Submit returns 0 only for a job without an execute callback or because the queue has been closed; a
      pool that is not started has its queue closed. */
  lemma RefusedForAReason(states: seq<Pool>, moves: seq<Move>, n: nat, id: nat)
    requires IsRun(states, moves) && Init(states[0]) && n < |states| && id < |states[n].submitted|
    ensures |states[n].result| == |states[n].submitted|
    ensures states[n].result[id] == Some(false) ==> !states[n].submitted[id].executable || states[n].queue.closed
    ensures states[n].result[id] == Some(true) ==> states[n].submitted[id].executable
    ensures !states[n].started ==> states[n].queue.closed
  {
    hide Next, Enabled, PoolInv;
    RunRefusal(states, moves, n);
    RunInv(states, moves, n);
    if !states[n].started {
      NotStartedIsClosed(states[n]);
    }
  }

  // ---------------------------------------------------------------- a running pool

  ghost predicate Running(p: Pool) {
    PoolInv(p) && RefusalInv(p) && p.started && !p.queue.closed
  }

  /** A step that is neither a wake-up for no reason nor a new call of an idle thread. */
  predicate Prompted(p: Pool, m: Move) {
    && m.thread in p.queue.pc
    && var pc := p.queue.pc[m.thread];
       !pc.PopAsleep? && !pc.PushAsleep? && pc != QueueProtocol.Client(Idle)
  }

  /** A position inside submit or in the worker's loop. */
  predicate Serving(pc: Pc) {
    !pc.CloseStart? && !ActivityOf(pc).InStop?
  }

  lemma StaysOpen(p: Pool, m: Move)
    requires Enabled(p, m) && Serving(p.queue.pc[m.thread])
    ensures Next(p, m).queue.closed == p.queue.closed && Next(p, m).started == p.started
  {
    hide QueueProtocol.Awaken, QueueProtocol.At, QueueProtocol.Signal, SetAt, CleanupOf, SubmitNext, WorkerNext, StopNext;
  }

  lemma StaysRunning(p: Pool, m: Move)
    requires Enabled(p, m) && Running(p) && Serving(p.queue.pc[m.thread])
    ensures Running(Next(p, m))
  {
    hide PoolInv, RefusalInv, Next, Enabled, Serving;
    StaysOpen(p, m);
    NextInv(p, m);
    NextRefusal(p, m);
  }

  // ---------------------------------------------------------------- a worker takes the next job

  /** A thread after a pop that signals every sleeping producer. */
  function Called(pc: Pc): Pc {
    if pc.PushAsleep? then QueueProtocol.PushSignalled(pc.job) else pc
  }

  ghost predicate OthersCalled(p: Pool, p': Pool, t: Thread) {
    forall u :: u in p.queue.pc && u != t ==> u in p'.queue.pc && p'.queue.pc[u] == Called(p.queue.pc[u])
  }

  ghost predicate OthersSame(p: Pool, p': Pool, t: Thread) {
    forall u :: u in p.queue.pc && u != t ==> u in p'.queue.pc && p'.queue.pc[u] == p.queue.pc[u]
  }

  /** The first job has been taken and every sleeping producer signalled. */
  ghost predicate JobTaken(p: Pool, p': Pool, t: Thread) {
    |p'.queue.jobs| == |p.queue.jobs| - 1 && OthersCalled(p, p', t)
  }

  function FirstRank(p: Pool): nat {
    if |p.workers| > 0 && p.workers[0] in p.queue.pc then WorkRank(p.queue.pc[p.workers[0]]) else 0
  }

  /** The first worker has come nearer to its next pop. */
  ghost predicate WorkDone(p: Pool, p': Pool, t: Thread) {
    && p'.queue.jobs == p.queue.jobs && OthersSame(p, p', t) && FirstRank(p') < FirstRank(p)
    && |p'.place| == |p.place|
    && forall id :: 0 <= id < |p.place| && p.place[id].Queued? ==> p'.place[id].Queued?
  }

  lemma PopTakes(p: Pool, m: Move)
    requires Enabled(p, m) && QueueProtocol.InPopSection(p.queue.pc[m.thread]) && p.queue.jobs != []
    requires m.woken == QueueProtocol.At(p.queue.pc, QueueProtocol.ProducersAsleep)
    ensures JobTaken(p, Next(p, m), m.thread) && Next(p, m).result == p.result
  {
    hide SetAt;
  }

  /** The worker has made a step with its job, which is where it was unless it is done. */
  ghost predicate JobMoved(p: Pool, p': Pool, w: Thread, id: nat) {
    && p'.queue.jobs == p.queue.jobs && p'.result == p.result && p'.workers == p.workers
    && OthersSame(p, p', w) && w in p.queue.pc && w in p'.queue.pc
    && WorkRank(p'.queue.pc[w]) < WorkRank(p.queue.pc[w])
    && |p'.place| == |p.place| && id < |p.place| && p.place[id] == With(w)
    && (p'.place == p.place || p'.place == p.place[id := Gone(true)])
  }

  lemma WorkerWorks(p: Pool, w: Thread)
    requires PoolInv(p) && w in p.queue.pc && (HoldOf(p.queue.pc[w]).Working? || HoldOf(p.queue.pc[w]).Worked?)
    ensures Enabled(p, Move(w, Stop, {})) && Serving(p.queue.pc[w])
    ensures JobMoved(p, Next(p, Move(w, Stop, {})), w, HoldOf(p.queue.pc[w]).job.id)
  {
    hide QueueProtocol.QueueInv, PhaseOk, StoppedOk, EventsOk, EventsOf, PlaceOk, ResultOk, QueueOk, CleanupOf;
    assert HolderOk(View(p), w);
  }

  lemma FirstWorker(p: Pool)
    requires Running(p)
    ensures |p.workers| > 0 && p.workers[0] in p.queue.pc && WorkerPhase(p.queue.pc[p.workers[0]])
    ensures var pc := p.queue.pc[p.workers[0]];
            QueueProtocol.InPop(pc) || HoldOf(pc).Working? || HoldOf(pc).Worked?
  {
    hide LedgerInv, RefusalInv, QueueProtocol.Fifo, QueueProtocol.ConsumersCalled, QueueProtocol.ProducersCalled;
    assert PhaseOk(p, p.workers[0]);
  }

  /** Never do all workers sleep while a job is queued. */
  lemma ReadyConsumer(p: Pool, w: Thread) returns (u: Thread)
    requires PoolInv(p) && p.queue.jobs != [] && w in p.queue.pc && QueueProtocol.InPop(p.queue.pc[w])
    ensures u in p.queue.pc && QueueProtocol.InPopSection(p.queue.pc[u])
  {
    hide LedgerInv, PhaseOk, StoppedOk;
    u := w;
    if p.queue.pc[w].PopAsleep? {
      assert w in QueueProtocol.At(p.queue.pc, QueueProtocol.ConsumersAsleep);
      assert QueueProtocol.At(p.queue.pc, QueueProtocol.ConsumersSignalled) != {};
      u :| u in QueueProtocol.At(p.queue.pc, QueueProtocol.ConsumersSignalled);
    }
  }

  lemma PopIsEnabled(p: Pool, u: Thread)
    requires u in p.queue.pc && QueueProtocol.InPopSection(p.queue.pc[u])
    ensures Enabled(p, Move(u, Stop, QueueProtocol.At(p.queue.pc, QueueProtocol.ProducersAsleep)))
    ensures Serving(p.queue.pc[u]) && WorkerPhase(p.queue.pc[u])
  {
  }

  /** While a job is queued, some worker takes the first one or comes nearer to doing so. */
  lemma WorkerTurn(p: Pool) returns (m: Move)
    requires Running(p) && p.queue.jobs != []
    ensures Enabled(p, m) && Prompted(p, m) && Running(Next(p, m)) && Next(p, m).result == p.result
    ensures WorkerPhase(p.queue.pc[m.thread])
    ensures JobTaken(p, Next(p, m), m.thread) || WorkDone(p, Next(p, m), m.thread)
  {
    hide PoolInv, RefusalInv, Next, Enabled, WorkRank, JobTaken, OthersSame;
    FirstWorker(p);
    var w := p.workers[0];
    if QueueProtocol.InPop(p.queue.pc[w]) {
      var u := ReadyConsumer(p, w);
      m := Move(u, Stop, QueueProtocol.At(p.queue.pc, QueueProtocol.ProducersAsleep));
      PopIsEnabled(p, u);
      PopTakes(p, m);
    } else {
      m := Move(w, Stop, {});
      WorkerWorks(p, w);
    }
    StaysRunning(p, m);
  }

  // ---------------------------------------------------------------- an accepted job is executed

  /** How far the job is from its end: the rank of the worker that has it, or of the first one. */
  function JobRank(p: Pool, id: nat): nat
    requires id < |p.place|
  {
    match p.place[id]
    case Gone(_) => 0
    case Queued => FirstRank(p)
    case With(w) => if w in p.queue.pc then WorkRank(p.queue.pc[w]) else 0
  }

  /** A job that submit has accepted is in the queue, with a worker, or done. */
  lemma AcceptedPlace(p: Pool, id: nat)
    requires PoolInv(p) && id < |p.result| && p.result[id] == Some(true)
    ensures id < |p.place| && id < |p.submitted|
    ensures p.place[id].Queued? ==> p.queue.jobs != []
    ensures p.place[id].Gone? ==> p.place[id].executed && EventsOf(p.events, id) == [Executed(id)] + CleanupOf(p.submitted[id])
    ensures p.place[id].With? ==>
      var w := p.place[id].thread;
      w in p.queue.pc && (HoldOf(p.queue.pc[w]).Working? || HoldOf(p.queue.pc[w]).Worked?)
      && HoldOf(p.queue.pc[w]).job.id == id
  {
    hide QueueProtocol.QueueInv, PhaseOk, StoppedOk, EventsOf, QueueOk, CleanupOf;
    var l := View(p);
    assert PlaceOk(l, id) && ResultOk(l, id) && EventsOk(l, id);
  }

  lemma JobTurn(p: Pool, id: nat) returns (m: Move)
    requires Running(p) && id < |p.result| && p.result[id] == Some(true) && id < |p.place| && !p.place[id].Gone?
    ensures Enabled(p, m) && Prompted(p, m) && Running(Next(p, m)) && Next(p, m).result == p.result
    ensures |Next(p, m).place| > id
    ensures var p' := Next(p, m);
            |p'.queue.jobs| < |p.queue.jobs| || (p'.queue.jobs == p.queue.jobs && JobRank(p', id) < JobRank(p, id))
  {
    hide PoolInv, RefusalInv, Next, Enabled, WorkRank, FirstRank, EventsOf, CleanupOf;
    AcceptedPlace(p, id);
    if p.place[id].Queued? {
      m := WorkerTurn(p);
    } else {
      m := Move(p.place[id].thread, Stop, {});
      WorkerWorks(p, m.thread);
      StaysRunning(p, m);
    }
    AcceptedPlace(Next(p, m), id);
  }

  ghost predicate PromptedRun(states: seq<Pool>, moves: seq<Move>) {
    IsRun(states, moves) && forall i :: 0 <= i < |moves| ==> Prompted(states[i], moves[i])
  }

  lemma PromptedPrepend(p: Pool, m: Move, states: seq<Pool>, moves: seq<Move>)
    requires PromptedRun(states, moves) && Enabled(p, m) && Prompted(p, m) && states[0] == Next(p, m)
    ensures PromptedRun([p] + states, [m] + moves)
  {
    hide Next, Enabled, Prompted;
    RunPrepend(p, m, states, moves);
  }

  lemma PromptedJoin(states: seq<Pool>, moves: seq<Move>, more: seq<Pool>, turns: seq<Move>)
    requires PromptedRun(states, moves) && PromptedRun(more, turns) && more[0] == states[|moves|]
    ensures PromptedRun(states + more[1..], moves + turns) && (states + more[1..])[|moves + turns|] == more[|turns|]
  {
    hide Next, Enabled, Prompted, IsRun;
    RunSizes(states, moves);
    RunSizes(more, turns);
    RunJoin(states, moves, more, turns);
    var all, both := states + more[1..], moves + turns;
    forall i | 0 <= i < |both|
      ensures Prompted(all[i], both[i])
    {
      if i >= |moves| {
        assert all[i] == more[i - |moves|] && both[i] == turns[i - |moves|];
      }
    }
  }

  lemma RunSizes(states: seq<Pool>, moves: seq<Move>)
    requires IsRun(states, moves)
    ensures |states| == |moves| + 1
  {
  }

  lemma {:induction false} JobCanFinish(p: Pool, id: nat) returns (states: seq<Pool>, moves: seq<Move>)
    requires Running(p) && id < |p.result| && p.result[id] == Some(true) && id < |p.place|
    ensures PromptedRun(states, moves) && states[0] == p
    ensures var last := states[|moves|];
            Running(last) && last.result == p.result && id < |last.place| && last.place[id].Gone?
    decreases |p.queue.jobs|, JobRank(p, id)
  {
    hide PoolInv, RefusalInv, Next, Enabled, JobRank, Prompted;
    if p.place[id].Gone? {
      states, moves := [p], [];
    } else {
      var m := JobTurn(p, id);
      states, moves := JobCanFinish(Next(p, m), id);
      PromptedPrepend(p, m, states, moves);
      states, moves := [p] + states, [m] + moves;
    }
  }

  // ---------------------------------------------------------------- submit returns

  /** Inside thread_pool_submit with this job. */
  predicate Submits(pc: Pc, job: Job) {
    HoldOf(pc) == Submitting(job) || HoldOf(pc) == Returning(job)
  }

  /** The stages of a submit that is not refused. */
  function SubmitStage(pc: Pc): nat {
    match pc
    case Client(CheckStarted(_)) => 4
    case PushAsleep(_) => 3
    case PushReturned(_, _) => 1
    case _ => 2
  }

  /** Whether the thread needs others to move first: to have a job to take, or to make room. */
  function Blocked(p: Pool, j: Thread): nat
    requires j in p.queue.pc
  {
    if p.queue.pc[j].PushAsleep? then (if p.queue.jobs == [] then 1 else 0)
    else if |p.queue.jobs| == p.queue.capacity then 1
    else 0
  }

  /** In an open queue no executable job is on its way to be refused. */
  lemma NotRefused(p: Pool, j: Thread, job: Job)
    requires Running(p) && j in p.queue.pc && Submits(p.queue.pc[j], job) && job.executable
    ensures var pc := p.queue.pc[j];
            || pc == QueueProtocol.Client(CheckStarted(job)) || pc == QueueProtocol.PushAsleep(job)
            || (QueueProtocol.InPushSection(pc) && pc.job == job) || pc == QueueProtocol.PushReturned(job, true)
    ensures j !in p.workers
  {
    hide LedgerInv, QueueProtocol.Fifo, QueueProtocol.ConsumersCalled, QueueProtocol.ProducersCalled, StoppedOk, ResultsOk;
    assert SubmitOk(p, j) && PhaseOk(p, j);
  }

  /** The thread's own steps when nothing is in its way. */
  lemma OwnTurn(p: Pool, j: Thread, job: Job) returns (m: Move)
    requires Running(p) && j in p.queue.pc && Submits(p.queue.pc[j], job) && job.executable
    requires !p.queue.pc[j].PushAsleep? && (QueueProtocol.InPushSection(p.queue.pc[j]) ==> |p.queue.jobs| < p.queue.capacity)
    requires job.id < |p.result|
    ensures Enabled(p, m) && Prompted(p, m) && Serving(p.queue.pc[m.thread])
    ensures var p' := Next(p, m);
      && j in p'.queue.pc
      && if p.queue.pc[j].PushReturned? then p'.result == p.result[job.id := Some(true)]
         else Submits(p'.queue.pc[j], job) && SubmitStage(p'.queue.pc[j]) < SubmitStage(p.queue.pc[j]) && p'.result == p.result
  {
    NotRefused(p, j, job);
    m := Move(j, Stop, QueueProtocol.At(p.queue.pc, QueueProtocol.ConsumersAsleep));
    hide PoolInv, RefusalInv, QueueProtocol.At, QueueProtocol.Awaken;
  }

  /** A sleeping producer and an empty queue: a signalled producer stores its job. */
  lemma OtherProducerTurn(p: Pool, j: Thread) returns (m: Move)
    requires Running(p) && j in p.queue.pc && p.queue.pc[j].PushAsleep? && p.queue.jobs == []
    ensures Enabled(p, m) && Prompted(p, m) && Serving(p.queue.pc[m.thread]) && Next(p, m).result == p.result
    ensures Next(p, m).queue.jobs != [] && j in Next(p, m).queue.pc && Next(p, m).queue.pc[j] == p.queue.pc[j]
  {
    hide LedgerInv, PhaseOk, StoppedOk, RefusalInv, QueueProtocol.ConsumersCalled, QueueProtocol.ReturnsRight;
    assert j in QueueProtocol.At(p.queue.pc, QueueProtocol.ProducersAsleep);
    assert QueueProtocol.At(p.queue.pc, QueueProtocol.ProducersSignalled) != {};
    var u :| u in QueueProtocol.At(p.queue.pc, QueueProtocol.ProducersSignalled);
    m := Move(u, Stop, QueueProtocol.At(p.queue.pc, QueueProtocol.ConsumersAsleep));
  }

  lemma HasCapacity(p: Pool)
    requires PoolInv(p)
    ensures 0 < p.queue.capacity && |p.queue.jobs| <= p.queue.capacity
  {
    hide LedgerInv, PhaseOk, StoppedOk;
  }

  lemma CapacityStays(p: Pool, m: Move)
    requires Enabled(p, m)
    ensures Next(p, m).queue.capacity == p.queue.capacity
  {
    hide QueueProtocol.Awaken, QueueProtocol.At, QueueProtocol.Signal, SubmitNext, WorkerNext, StopNext;
  }

  /** Submit comes nearer to its return with every step of the schedule. */
  lemma SubmitTurn(p: Pool, j: Thread, job: Job) returns (m: Move)
    requires Running(p) && j in p.queue.pc && Submits(p.queue.pc[j], job) && job.executable
    ensures Enabled(p, m) && Prompted(p, m) && Running(Next(p, m)) && j in Next(p, m).queue.pc
    ensures job.id < |p.result|
    ensures var p' := Next(p, m);
      || p'.result == p.result[job.id := Some(true)]
      || (Submits(p'.queue.pc[j], job) && Nearer(p, p', j))
  {
    hide PoolInv, RefusalInv, Next, Enabled, Prompted, Serving, FirstRank;
    HeldIsKnown(p, j);
    HasCapacity(p);
    NotRefused(p, j, job);
    var pc := p.queue.pc[j];
    if pc.PushAsleep? && p.queue.jobs == [] {
      m := OtherProducerTurn(p, j);
      StaysRunning(p, m);
    } else if pc.PushAsleep? || (QueueProtocol.InPushSection(pc) && |p.queue.jobs| == p.queue.capacity) {
      m := WorkerTurn(p);
      CapacityStays(p, m);
    } else {
      m := OwnTurn(p, j, job);
      StaysRunning(p, m);
    }
  }

  ghost predicate Nearer(p: Pool, p': Pool, j: Thread)
    requires j in p.queue.pc && j in p'.queue.pc
  {
    var stage, stage' := SubmitStage(p.queue.pc[j]), SubmitStage(p'.queue.pc[j]);
    || stage' < stage
    || (stage' == stage && Blocked(p', j) < Blocked(p, j))
    || (stage' == stage && Blocked(p', j) == Blocked(p, j) && FirstRank(p') < FirstRank(p))
  }

  lemma {:induction false} SubmitCanReturn(p: Pool, j: Thread, job: Job) returns (states: seq<Pool>, moves: seq<Move>)
    requires Running(p) && j in p.queue.pc && Submits(p.queue.pc[j], job) && job.executable
    ensures PromptedRun(states, moves) && states[0] == p
    ensures var last := states[|moves|]; Running(last) && job.id < |last.result| && last.result[job.id] == Some(true)
    decreases SubmitStage(p.queue.pc[j]), Blocked(p, j), FirstRank(p)
  {
    hide PoolInv, RefusalInv, Next, Enabled, Prompted, SubmitStage, Blocked, FirstRank, Submits;
    var m := SubmitTurn(p, j, job);
    var p' := Next(p, m);
    if p'.result == p.result[job.id := Some(true)] {
      states, moves := [p'], [];
    } else {
      states, moves := SubmitCanReturn(p', j, job);
    }
    PromptedPrepend(p, m, states, moves);
    states, moves := [p] + states, [m] + moves;
  }

  lemma {:induction false} RunSubmitted(states: seq<Pool>, moves: seq<Move>, n: nat)
    requires IsRun(states, moves) && n < |states|
    ensures states[0].submitted <= states[n].submitted
  {
    hide Next, Enabled;
    if n > 0 {
      RunSubmitted(states, moves, n - 1);
      NextSubmitted(states[n - 1], moves[n - 1]);
    }
  }

  lemma NextSubmitted(p: Pool, m: Move)
    requires Enabled(p, m)
    ensures p.submitted <= Next(p, m).submitted
  {
    hide QueueProtocol.Next, QueueProtocol.Enabled, CleanupOf, CleanupsOf;
  }

  /** Submitting to a running pool works: from every state of every run in which the pool is started, its
      queue open and a thread inside submit with a job that has an execute callback, there is a
      continuation, without wake-ups for no reason and without new calls, after which the job has been
      executed once and then cleaned up once if it has a cleanup callback, and submit has returned 1. */
  lemma SubmittedCanRun(states: seq<Pool>, moves: seq<Move>, n: nat, j: Thread, job: Job)
    returns (more: seq<Pool>, turns: seq<Move>)
    requires IsRun(states, moves) && Init(states[0]) && n < |states|
    requires states[n].started && !states[n].queue.closed
    requires j in states[n].queue.pc && Submits(states[n].queue.pc[j], job) && job.executable
    ensures PromptedRun(more, turns) && more[0] == states[n]
    ensures var last := more[|turns|];
      && last.started && !last.queue.closed
      && job.id < |last.result| && last.result[job.id] == Some(true)
      && EventsOf(last.events, job.id) == if job.hasCleanup then [Executed(job.id), Cleaned(job.id)] else [Executed(job.id)]
  {
    hide PoolInv, RefusalInv, Next, Enabled, Prompted, EventsOf, Init, Submits;
    RunInv(states, moves, n);
    RunRefusal(states, moves, n);
    HeldJob(states[n], j, job);
    more, turns := SubmitCanReturn(states[n], j, job);
    var mid := more[|turns|];
    AcceptedPlace(mid, job.id);
    var s2, t2 := JobCanFinish(mid, job.id);
    AcceptedPlace(s2[|t2|], job.id);
    PromptedJoin(more, turns, s2, t2);
    more, turns := more + s2[1..], turns + t2;
    RunSubmitted(more, turns, |turns|);
    assert more[|turns|].submitted[job.id] == states[n].submitted[job.id];
  }

  lemma HeldJob(p: Pool, j: Thread, job: Job)
    requires PoolInv(p) && j in p.queue.pc && Submits(p.queue.pc[j], job)
    ensures job.id < |p.submitted| && p.submitted[job.id] == job
  {
    hide PoolInv;
    HeldIsKnown(p, j);
  }
}

/** How threads share the queue of src/server/pool/job_queue.c.

  A step is one mutex section of one thread, a wake-up without a signal, or something a thread
  does outside the queue.  `L` is whatever the clients keep track of between their calls.
 */
module QueueProtocol {
  import opened Common
  import opened JobQueue

  /** Where a thread is.  Asleep: in pthread_cond_wait and not signalled.  Signalled: woken by a signal or
      broadcast.  Spurious: woken for no reason.  Both take the mutex and test again. */
  datatype Pc<L> =
    | Client(local: L)
    | PushStart(job: Job) | PushAsleep(job: Job) | PushSignalled(job: Job) | PushSpurious(job: Job)
    | PushReturned(job: Job, ok: bool)
    | PopStart | PopAsleep | PopSignalled | PopSpurious | PopReturned(got: Option<Job>)
    | CloseStart(resume: L)

  type Pcs<L> = map<Thread, Pc<L>>

  /** The queue, the threads, and the jobs accepted and taken so far in order. */
  datatype Queue<L> = Queue(capacity: nat, jobs: seq<Job>, closed: bool, pc: Pcs<L>, accepted: seq<Job>, taken: seq<Job>)

  datatype Zone = ConsumersAsleep | ConsumersSignalled | ProducersAsleep | ProducersSignalled

  predicate In<L>(p: Pc<L>, z: Zone) {
    match z
    case ConsumersAsleep => p.PopAsleep?
    case ConsumersSignalled => p.PopSignalled?
    case ProducersAsleep => p.PushAsleep?
    case ProducersSignalled => p.PushSignalled?
  }

  function At<L>(pc: Pcs<L>, z: Zone): set<Thread> {
    set t | t in pc && In(pc[t], z)
  }

  // ---------------------------------------------------------------- steps

  function Awakened<L>(p: Pc<L>): Pc<L> {
    match p
    case PopAsleep => PopSignalled
    case PushAsleep(job) => PushSignalled(job)
    case _ => p
  }

  function Awaken<L>(pc: Pcs<L>, woken: set<Thread>): Pcs<L> {
    map u | u in pc :: if u in woken then Awakened(pc[u]) else pc[u]
  }

  /** pthread_cond_signal wakes at least one sleeper if there is one. */
  predicate Signal(sleepers: set<Thread>, woken: set<Thread>) {
    woken <= sleepers && (sleepers != {} ==> woken != {})
  }

  function PushSection<L>(q: Queue<L>, t: Thread, job: Job, woken: set<Thread>): Queue<L> {
    match Push(q.capacity, q.jobs, q.closed)
    case PushSleeps => q.(pc := q.pc[t := PushAsleep(job)])
    case Refused => q.(pc := q.pc[t := PushReturned(job, false)])
    case Stored =>
      q.(jobs := q.jobs + [job], accepted := q.accepted + [job],
         pc := Awaken(q.pc, woken)[t := PushReturned(job, true)])
  }

  function PopSection<L>(q: Queue<L>, t: Thread, woken: set<Thread>): Queue<L> {
    match Pop(q.jobs, q.closed)
    case PopSleeps => q.(pc := q.pc[t := PopAsleep])
    case Drained => q.(pc := q.pc[t := PopReturned(None)])
    case Took(job) =>
      q.(jobs := q.jobs[1..], taken := q.taken + [job],
         pc := Awaken(q.pc, woken)[t := PopReturned(Some(job))])
  }

  datatype Step<L> =
    | Outside(to: Pc<L>)
    | Section(woken: set<Thread>)
    | SpuriousWake

  predicate Enabled<L>(q: Queue<L>, t: Thread, step: Step<L>) {
    && t in q.pc
    && match step
       case Outside(to) =>
         && (q.pc[t].Client? || q.pc[t].PushReturned? || q.pc[t].PopReturned?)
         && (to.Client? || to.PushStart? || to.PopStart? || to.CloseStart?)
       case SpuriousWake => q.pc[t].PopAsleep? || q.pc[t].PushAsleep?
       case Section(woken) =>
         match q.pc[t]
         case PushStart(_) => Signal(At(q.pc, ConsumersAsleep), woken)
         case PushSignalled(_) => Signal(At(q.pc, ConsumersAsleep), woken)
         case PushSpurious(_) => Signal(At(q.pc, ConsumersAsleep), woken)
         case PopStart => Signal(At(q.pc, ProducersAsleep), woken)
         case PopSignalled => Signal(At(q.pc, ProducersAsleep), woken)
         case PopSpurious => Signal(At(q.pc, ProducersAsleep), woken)
         case CloseStart(_) => woken == At(q.pc, ConsumersAsleep) + At(q.pc, ProducersAsleep)
         case _ => false
  }

  function Next<L>(q: Queue<L>, t: Thread, step: Step<L>): Queue<L>
    requires Enabled(q, t, step)
  {
    match step
    case Outside(to) => q.(pc := q.pc[t := to])
    case SpuriousWake => q.(pc := q.pc[t := if q.pc[t].PopAsleep? then PopSpurious else PushSpurious(q.pc[t].job)])
    case Section(woken) =>
      match q.pc[t]
      case PushStart(job) =>
        if !job.executable then q.(pc := q.pc[t := PushReturned(job, false)]) else PushSection(q, t, job, woken)
      case PushSignalled(job) => PushSection(q, t, job, woken)
      case PushSpurious(job) => PushSection(q, t, job, woken)
      case PopStart => PopSection(q, t, woken)
      case PopSignalled => PopSection(q, t, woken)
      case PopSpurious => PopSection(q, t, woken)
      case CloseStart(resume) => q.(closed := true, pc := Awaken(q.pc, woken)[t := Client(resume)])
  }

  // ---------------------------------------------------------------- the invariant

  /** The queue is a stretch of the accepted jobs: the ones after those taken. */
  ghost predicate Fifo<L>(q: Queue<L>) {
    0 < q.capacity && |q.jobs| <= q.capacity && q.accepted == q.taken + q.jobs
  }

  /** If a consumer sleeps unsignalled, the queue is open and has no more jobs than signalled consumers. */
  ghost predicate ConsumersCalled<L>(q: Queue<L>) {
    At(q.pc, ConsumersAsleep) != {} ==> !q.closed && |q.jobs| <= |At(q.pc, ConsumersSignalled)|
  }

  /** If a producer sleeps unsignalled, the queue is open and has no more free slots than signalled producers. */
  ghost predicate ProducersCalled<L>(q: Queue<L>) {
    At(q.pc, ProducersAsleep) != {} ==> !q.closed && q.capacity - |q.jobs| <= |At(q.pc, ProducersSignalled)|
  }

  /** pop returned 0 only on a closed and empty queue, push returned 0 only on a closed one or for a
      job that cannot be executed. */
  ghost predicate ReturnsRight<L>(q: Queue<L>) {
    forall t :: t in q.pc ==>
      && (q.pc[t] == PopReturned(None) ==> q.closed && q.jobs == [])
      && (q.pc[t].PushReturned? && !q.pc[t].ok ==> q.closed || !q.pc[t].job.executable)
  }

  ghost predicate QueueInv<L>(q: Queue<L>) {
    Fifo(q) && ConsumersCalled(q) && ProducersCalled(q) && ReturnsRight(q)
  }

  // ---------------------------------------------------------------- counting

  lemma AtMove<L>(pc: Pcs<L>, t: Thread, to: Pc<L>, z: Zone)
    requires t in pc
    ensures At(pc[t := to], z) == (if In(to, z) then At(pc, z) + {t} else At(pc, z) - {t})
    ensures t in At(pc, z) <==> In(pc[t], z)
  {
  }

  /** Waking threads of one kind moves them from asleep to awake. */
  lemma AtAwaken<L>(pc: Pcs<L>, woken: set<Thread>)
    requires woken <= At(pc, ConsumersAsleep) + At(pc, ProducersAsleep)
    ensures At(Awaken(pc, woken), ConsumersAsleep) == At(pc, ConsumersAsleep) - woken
    ensures At(Awaken(pc, woken), ProducersAsleep) == At(pc, ProducersAsleep) - woken
    ensures At(Awaken(pc, woken), ConsumersSignalled) == At(pc, ConsumersSignalled) + woken * At(pc, ConsumersAsleep)
    ensures At(Awaken(pc, woken), ProducersSignalled) == At(pc, ProducersSignalled) + woken * At(pc, ProducersAsleep)
  {
  }

  lemma AsleepIsNotAwake<L>(pc: Pcs<L>)
    ensures At(pc, ConsumersAsleep) !! At(pc, ConsumersSignalled)
    ensures At(pc, ProducersAsleep) !! At(pc, ProducersSignalled)
    ensures At(pc, ConsumersAsleep) !! At(pc, ProducersAsleep)
  {
  }

  /** Moving one thread: how many of each kind there are afterwards. */
  lemma MoveCounts<L>(pc: Pcs<L>, t: Thread, to: Pc<L>, z: Zone)
    requires t in pc
    ensures |At(pc[t := to], z)| == |At(pc, z)| - (if In(pc[t], z) then 1 else 0) + (if In(to, z) then 1 else 0)
    ensures In(pc[t], z) ==> |At(pc, z)| > 0
    ensures At(pc, z) != {} && !In(pc[t], z) ==> At(pc[t := to], z) != {}
    ensures At(pc[t := to], z) != {} && !In(to, z) ==> At(pc, z) != {}
  {
    AtMove(pc, t, to, z);
    if u :| u in At(pc, z) && !In(pc[t], z) {
      assert u in At(pc[t := to], z);
    }
  }

  /** A signal to consumers wakes at least one, if one sleeps. */
  lemma SignalConsumers<L>(pc: Pcs<L>, woken: set<Thread>)
    requires Signal(At(pc, ConsumersAsleep), woken)
    ensures At(pc, ConsumersAsleep) != {} ==> |At(Awaken(pc, woken), ConsumersSignalled)| > |At(pc, ConsumersSignalled)|
    ensures At(Awaken(pc, woken), ConsumersAsleep) != {} ==> At(pc, ConsumersAsleep) != {}
    ensures At(Awaken(pc, woken), ProducersAsleep) == At(pc, ProducersAsleep)
    ensures At(Awaken(pc, woken), ProducersSignalled) == At(pc, ProducersSignalled)
  {
    AtAwaken(pc, woken);
    AsleepIsNotAwake(pc);
    if At(pc, ConsumersAsleep) != {} {
      var u :| u in woken;
      SubsetCount(At(pc, ConsumersSignalled) + {u}, At(Awaken(pc, woken), ConsumersSignalled));
    }
  }

  lemma SignalProducers<L>(pc: Pcs<L>, woken: set<Thread>)
    requires Signal(At(pc, ProducersAsleep), woken)
    ensures At(pc, ProducersAsleep) != {} ==> |At(Awaken(pc, woken), ProducersSignalled)| > |At(pc, ProducersSignalled)|
    ensures At(Awaken(pc, woken), ProducersAsleep) != {} ==> At(pc, ProducersAsleep) != {}
    ensures At(Awaken(pc, woken), ConsumersAsleep) == At(pc, ConsumersAsleep)
    ensures At(Awaken(pc, woken), ConsumersSignalled) == At(pc, ConsumersSignalled)
  {
    AtAwaken(pc, woken);
    AsleepIsNotAwake(pc);
    if At(pc, ProducersAsleep) != {} {
      var u :| u in woken;
      SubsetCount(At(pc, ProducersSignalled) + {u}, At(Awaken(pc, woken), ProducersSignalled));
    }
  }

  // ---------------------------------------------------------------- every step keeps it

  lemma NextFifo<L>(q: Queue<L>, t: Thread, step: Step<L>)
    requires Enabled(q, t, step) && Fifo(q)
    ensures Fifo(Next(q, t, step))
  {
    if q.jobs != [] {
      assert q.taken + [q.jobs[0]] + q.jobs[1..] == q.taken + q.jobs;
    }
    if step.Section? && (InPushSection(q.pc[t])) {
      assert q.taken + (q.jobs + [q.pc[t].job]) == q.taken + q.jobs + [q.pc[t].job];
    }
  }

  lemma NextReturns<L>(q: Queue<L>, t: Thread, step: Step<L>)
    requires Enabled(q, t, step) && ReturnsRight(q)
    ensures ReturnsRight(Next(q, t, step))
  {
  }

  predicate InPushSection<L>(p: Pc<L>) {
    p.PushStart? || p.PushSignalled? || p.PushSpurious?
  }

  predicate InPopSection<L>(p: Pc<L>) {
    p.PopStart? || p.PopSignalled? || p.PopSpurious?
  }

  /** A mutex section of push: a stored job calls a consumer. */
  lemma PushCallsConsumers<L>(q: Queue<L>, t: Thread, job: Job, woken: set<Thread>)
    requires t in q.pc && InPushSection(q.pc[t]) && Signal(At(q.pc, ConsumersAsleep), woken) && ConsumersCalled(q)
    ensures ConsumersCalled(PushSection(q, t, job, woken))
  {
    hide At;
    var to := PushSection(q, t, job, woken).pc[t];
    SignalConsumers(q.pc, woken);
    MoveCounts(q.pc, t, to, ConsumersAsleep);
    MoveCounts(q.pc, t, to, ConsumersSignalled);
    MoveCounts(Awaken(q.pc, woken), t, to, ConsumersAsleep);
    MoveCounts(Awaken(q.pc, woken), t, to, ConsumersSignalled);
  }

  lemma PushCallsProducers<L>(q: Queue<L>, t: Thread, job: Job, woken: set<Thread>)
    requires t in q.pc && InPushSection(q.pc[t]) && Signal(At(q.pc, ConsumersAsleep), woken) && ProducersCalled(q)
    ensures ProducersCalled(PushSection(q, t, job, woken))
  {
    hide At;
    var to := PushSection(q, t, job, woken).pc[t];
    SignalConsumers(q.pc, woken);
    MoveCounts(q.pc, t, to, ProducersAsleep);
    MoveCounts(q.pc, t, to, ProducersSignalled);
    MoveCounts(Awaken(q.pc, woken), t, to, ProducersAsleep);
    MoveCounts(Awaken(q.pc, woken), t, to, ProducersSignalled);
  }

  /** A mutex section of pop: a taken job calls a producer. */
  lemma PopCallsConsumers<L>(q: Queue<L>, t: Thread, woken: set<Thread>)
    requires t in q.pc && InPopSection(q.pc[t]) && Signal(At(q.pc, ProducersAsleep), woken) && ConsumersCalled(q)
    ensures ConsumersCalled(PopSection(q, t, woken))
  {
    hide At;
    var to := PopSection(q, t, woken).pc[t];
    SignalProducers(q.pc, woken);
    MoveCounts(q.pc, t, to, ConsumersAsleep);
    MoveCounts(q.pc, t, to, ConsumersSignalled);
    MoveCounts(Awaken(q.pc, woken), t, to, ConsumersAsleep);
    MoveCounts(Awaken(q.pc, woken), t, to, ConsumersSignalled);
  }

  lemma PopCallsProducers<L>(q: Queue<L>, t: Thread, woken: set<Thread>)
    requires t in q.pc && InPopSection(q.pc[t]) && Signal(At(q.pc, ProducersAsleep), woken) && ProducersCalled(q)
    ensures ProducersCalled(PopSection(q, t, woken))
  {
    hide At;
    var to := PopSection(q, t, woken).pc[t];
    SignalProducers(q.pc, woken);
    MoveCounts(q.pc, t, to, ProducersAsleep);
    MoveCounts(q.pc, t, to, ProducersSignalled);
    MoveCounts(Awaken(q.pc, woken), t, to, ProducersAsleep);
    MoveCounts(Awaken(q.pc, woken), t, to, ProducersSignalled);
  }

  /** A step that neither starts nor ends in a sleep or a signalled wake-up, but for leaving a sleep. */
  lemma MoveKeepsCalled<L>(q: Queue<L>, t: Thread, to: Pc<L>)
    requires t in q.pc && ConsumersCalled(q) && ProducersCalled(q)
    requires !In(to, ConsumersAsleep) && !In(to, ConsumersSignalled) && !In(to, ProducersAsleep) && !In(to, ProducersSignalled)
    requires !q.pc[t].PopSignalled? && !q.pc[t].PushSignalled?
    ensures ConsumersCalled(q.(pc := q.pc[t := to])) && ProducersCalled(q.(pc := q.pc[t := to]))
  {
    hide At;
    MoveCounts(q.pc, t, to, ConsumersAsleep);
    MoveCounts(q.pc, t, to, ConsumersSignalled);
    MoveCounts(q.pc, t, to, ProducersAsleep);
    MoveCounts(q.pc, t, to, ProducersSignalled);
  }

  lemma NextCalled<L>(q: Queue<L>, t: Thread, step: Step<L>)
    requires Enabled(q, t, step) && ConsumersCalled(q) && ProducersCalled(q)
    ensures ConsumersCalled(Next(q, t, step)) && ProducersCalled(Next(q, t, step))
  {
    var to := Next(q, t, step).pc[t];
    if step.Section? && q.pc[t].CloseStart? {
      CloseCounts(q.pc, t, step.woken, to);
    } else {
      hide At, Signal, PushSection, PopSection, ConsumersCalled, ProducersCalled, Awaken;
      if step.Section? && InPushSection(q.pc[t]) && !(q.pc[t].PushStart? && !q.pc[t].job.executable) {
        PushCallsConsumers(q, t, q.pc[t].job, step.woken);
        PushCallsProducers(q, t, q.pc[t].job, step.woken);
      } else if step.Section? && InPopSection(q.pc[t]) {
        PopCallsConsumers(q, t, step.woken);
        PopCallsProducers(q, t, step.woken);
      } else {
        MoveKeepsCalled(q, t, to);
      }
    }
  }

  /** A broadcast to both sides leaves nobody asleep. */
  lemma CloseCounts<L>(pc: Pcs<L>, t: Thread, woken: set<Thread>, to: Pc<L>)
    requires t in pc && to.Client? && woken == At(pc, ConsumersAsleep) + At(pc, ProducersAsleep)
    ensures At(Awaken(pc, woken)[t := to], ConsumersAsleep) == {}
    ensures At(Awaken(pc, woken)[t := to], ProducersAsleep) == {}
  {
    AtAwaken(pc, woken);
  }

  lemma NextInv<L>(q: Queue<L>, t: Thread, step: Step<L>)
    requires Enabled(q, t, step) && QueueInv(q)
    ensures QueueInv(Next(q, t, step))
  {
    hide Fifo, ConsumersCalled, ProducersCalled, ReturnsRight, Next;
    NextFifo(q, t, step);
    NextCalled(q, t, step);
    NextReturns(q, t, step);
  }

  /** What a step leaves alone: the other threads, but for their waking. */
  lemma NextOthers<L>(q: Queue<L>, t: Thread, step: Step<L>)
    requires Enabled(q, t, step)
    ensures Next(q, t, step).pc.Keys == q.pc.Keys
    ensures forall u :: u in q.pc && u != t ==>
              Next(q, t, step).pc[u] == q.pc[u] || Next(q, t, step).pc[u] == Awakened(q.pc[u])
  {
    hide At, Signal, Push, Pop, Awakened;
  }

  /** Once closed and empty, always closed and empty. */
  lemma DrainedStays<L>(q: Queue<L>, t: Thread, step: Step<L>)
    requires Enabled(q, t, step) && q.closed
    ensures Next(q, t, step).closed && (q.jobs == [] ==> Next(q, t, step).jobs == [])
  {
    hide At, Signal;
  }

  // ---------------------------------------------------------------- runs

  datatype Move<L> = Move(thread: Thread, step: Step<L>)

  /** An open empty queue; threads may be about to call it. */
  ghost predicate Init<L>(q: Queue<L>) {
    && q.capacity > 0 && q.jobs == [] && q.accepted == [] && q.taken == [] && !q.closed
    && forall t :: t in q.pc ==> q.pc[t].Client? || q.pc[t].PushStart? || q.pc[t].PopStart? || q.pc[t].CloseStart?
  }

  ghost predicate IsRun<L>(states: seq<Queue<L>>, moves: seq<Move<L>>) {
    && |states| == |moves| + 1
    && forall i :: 0 <= i < |moves| ==>
         && Enabled(states[i], moves[i].thread, moves[i].step)
         && states[i + 1] == Next(states[i], moves[i].thread, moves[i].step)
  }

  lemma InitInv<L>(q: Queue<L>)
    requires Init(q)
    ensures QueueInv(q)
  {
    assert At(q.pc, ConsumersAsleep) == {} && At(q.pc, ProducersAsleep) == {};
  }

  /** No lost wake-up, FIFO and right returns hold in every state of every run. */
  lemma {:induction false} RunInv<L>(states: seq<Queue<L>>, moves: seq<Move<L>>, n: nat)
    requires IsRun(states, moves) && Init(states[0]) && n < |states|
    ensures QueueInv(states[n])
  {
    hide QueueInv, Next, Enabled;
    if n == 0 {
      InitInv(states[0]);
    } else {
      RunInv(states, moves, n - 1);
      NextInv(states[n - 1], moves[n - 1].thread, moves[n - 1].step);
    }
  }

  predicate InPop<L>(p: Pc<L>) {
    p.PopStart? || p.PopAsleep? || p.PopSignalled? || p.PopSpurious?
  }

  predicate InPush<L>(p: Pc<L>) {
    p.PushStart? || p.PushAsleep? || p.PushSignalled? || p.PushSpurious?
  }

  /** While a job is queued and some thread is inside pop, some thread can take the first job in
      its next mutex section: never do all consumers sleep. */
  lemma JobCanBeTaken<L>(states: seq<Queue<L>>, moves: seq<Move<L>>, n: nat, t: Thread) returns (u: Thread, woken: set<Thread>)
    requires IsRun(states, moves) && Init(states[0]) && n < |states|
    requires states[n].jobs != [] && t in states[n].pc && InPop(states[n].pc[t])
    ensures Enabled(states[n], u, Section(woken)) && InPop(states[n].pc[u])
    ensures Next(states[n], u, Section(woken)).pc[u] == PopReturned(Some(states[n].jobs[0]))
  {
    var q := states[n];
    RunInv(states, moves, n);
    hide IsRun, Init;
    woken := At(q.pc, ProducersAsleep);
    u := t;
    if q.pc[t].PopAsleep? {
      assert t in At(q.pc, ConsumersAsleep);
      assert At(q.pc, ConsumersSignalled) != {};
      u :| u in At(q.pc, ConsumersSignalled);
    }
  }

  /** While an open queue has room and some thread is inside push with a job that can be executed,
      some thread can store its job in its next mutex section. */
  lemma SlotCanBeFilled<L>(states: seq<Queue<L>>, moves: seq<Move<L>>, n: nat, t: Thread) returns (u: Thread, woken: set<Thread>)
    requires IsRun(states, moves) && Init(states[0]) && n < |states|
    requires !states[n].closed && |states[n].jobs| < states[n].capacity
    requires t in states[n].pc && InPush(states[n].pc[t]) && (states[n].pc[t].PushStart? ==> states[n].pc[t].job.executable)
    ensures Enabled(states[n], u, Section(woken)) && InPush(states[n].pc[u])
    ensures Next(states[n], u, Section(woken)).jobs == states[n].jobs + [states[n].pc[u].job]
  {
    var q := states[n];
    RunInv(states, moves, n);
    hide IsRun, Init;
    woken := At(q.pc, ConsumersAsleep);
    u := t;
    if q.pc[t].PushAsleep? {
      assert t in At(q.pc, ProducersAsleep);
      assert At(q.pc, ProducersSignalled) != {};
      u :| u in At(q.pc, ProducersSignalled);
    }
  }

  /** After a close nobody is asleep. */
  lemma ClosedMeansAwake<L>(states: seq<Queue<L>>, moves: seq<Move<L>>, n: nat, t: Thread)
    requires IsRun(states, moves) && Init(states[0]) && n < |states|
    requires states[n].closed && t in states[n].pc
    ensures !states[n].pc[t].PopAsleep? && !states[n].pc[t].PushAsleep?
  {
    RunInv(states, moves, n);
    hide IsRun, Init;
    assert t in At(states[n].pc, ConsumersAsleep) <==> states[n].pc[t].PopAsleep?;
    assert t in At(states[n].pc, ProducersAsleep) <==> states[n].pc[t].PushAsleep?;
  }

  /** The records only grow, a closed queue stays closed and accepts nothing more. */
  lemma NextGrows<L>(q: Queue<L>, t: Thread, step: Step<L>)
    requires Enabled(q, t, step)
    ensures q.accepted <= Next(q, t, step).accepted && q.taken <= Next(q, t, step).taken
    ensures q.closed ==> Next(q, t, step).closed && Next(q, t, step).accepted == q.accepted
  {
  }

  /** First in, first out, over whole runs: what has been taken by any moment is what was accepted
      first, and nothing is accepted once the queue is closed. */
  lemma {:induction false} RunFifo<L>(states: seq<Queue<L>>, moves: seq<Move<L>>, m: nat, n: nat)
    requires IsRun(states, moves) && Init(states[0]) && m <= n < |states|
    ensures states[n].taken <= states[n].accepted && states[n].accepted == states[n].taken + states[n].jobs
    ensures states[m].accepted <= states[n].accepted && states[m].taken <= states[n].taken
    ensures states[m].closed ==> states[n].closed && states[n].accepted == states[m].accepted
    decreases n
  {
    hide Next, Enabled, Init;
    RunInv(states, moves, n);
    if m < n {
      RunFifo(states, moves, m, n - 1);
      NextGrows(states[n - 1], moves[n - 1].thread, moves[n - 1].step);
    }
  }

  /** When pop has returned 0, the queue is closed and every job ever accepted has been taken, and
      that stays so. */
  lemma ZeroMeansDrained<L>(states: seq<Queue<L>>, moves: seq<Move<L>>, m: nat, n: nat, t: Thread)
    requires IsRun(states, moves) && Init(states[0]) && m <= n < |states|
    requires t in states[m].pc && states[m].pc[t] == PopReturned(None)
    ensures states[m].closed && states[m].taken == states[m].accepted
    ensures states[n].closed && states[n].taken == states[n].accepted == states[m].accepted
  {
    hide IsRun, Init;
    RunInv(states, moves, m);
    RunFifo(states, moves, m, n);
  }
}

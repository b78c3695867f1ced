/** The readers-writer guard of src/server/concurrency/db_guard.c as a transition system.

  Any number of threads share three atomic counters.  One step is one atomic load, add,
  compare-and-swap or store of one thread, interleaved in any order (sequential consistency).
  The weak compare-and-swap may fail spuriously.
 */
module DbGuard {
  import opened Common

  /** Where a thread is: the name says which atomic operation it performs next. */
  datatype Pc =
    | Idle
    // db_guard_lock_read
    | CheckActive | CheckWaiting | Enter | RecheckActive | RecheckWaiting | Retreat
    // between db_guard_lock_read and db_guard_unlock_read
    | Reading
    // db_guard_lock_write
    | Register | TryActive | Drain | Admit | Release
    // between db_guard_lock_write and db_guard_unlock_write
    | Writing

  datatype Guard = Guard(readerCount: int, writerActive: int, writersWaiting: int, pc: map<Thread, Pc>)

  /** The outcome of one atomic operation: the counters after it and the next program point. */
  datatype Effect = Effect(readerCount: int, writerActive: int, writersWaiting: int, to: Pc)

  /** The atomic operation at program point p.  `choice` picks the request of an idle thread and
      lets the weak compare-and-swap fail for no reason. */
  function Operation(p: Pc, readers: int, active: int, waiting: int, choice: bool): Effect {
    match p
    case Idle => Effect(readers, active, waiting, if choice then CheckActive else Register)
    case CheckActive => Effect(readers, active, waiting, if active != 0 then CheckActive else CheckWaiting)
    case CheckWaiting => Effect(readers, active, waiting, if waiting != 0 then CheckActive else Enter)
    case Enter => Effect(readers + 1, active, waiting, RecheckActive)
    case RecheckActive => Effect(readers, active, waiting, if active == 0 then RecheckWaiting else Retreat)
    case RecheckWaiting => Effect(readers, active, waiting, if waiting == 0 then Reading else Retreat)
    case Retreat => Effect(readers - 1, active, waiting, CheckActive)
    case Reading => Effect(readers - 1, active, waiting, Idle)
    case Register => Effect(readers, active, waiting + 1, TryActive)
    case TryActive =>
      if active == 0 && choice then Effect(readers, 1, waiting, Drain) else Effect(readers, active, waiting, TryActive)
    case Drain => Effect(readers, active, waiting, if readers == 0 then Admit else Release)
    case Admit => Effect(readers, active, waiting - 1, Writing)
    case Release => Effect(readers, 0, waiting, TryActive)
    case Writing => Effect(readers, 0, waiting, Idle)
  }

  function Next(g: Guard, t: Thread, choice: bool): Guard
    requires t in g.pc
  {
    var e := Operation(g.pc[t], g.readerCount, g.writerActive, g.writersWaiting, choice);
    Guard(e.readerCount, e.writerActive, e.writersWaiting, g.pc[t := e.to])
  }

  /** db_guard_create, with every thread outside. */
  ghost predicate Init(g: Guard) {
    && g.readerCount == 0 && g.writerActive == 0 && g.writersWaiting == 0
    && forall t :: t in g.pc ==> g.pc[t] == Idle
  }

  // ---------------------------------------------------------------- counting threads

  type Pcs = map<Thread, Pc>

  /** The groups of program points the counters and the exclusion argument speak about. */
  datatype Zone = Counted | Owning | Waiting | PastActiveTest | SawNoReader | Holding | Entering | JustEntered | NotRetreating
    | Draining | NotAdmitted

  predicate In(p: Pc, z: Zone) {
    match z
    case Counted => p.RecheckActive? || p.RecheckWaiting? || p.Retreat? || p.Reading?
    case Owning => p.Drain? || p.Admit? || p.Release? || p.Writing?
    case Waiting => p.TryActive? || p.Drain? || p.Admit? || p.Release?
    case PastActiveTest => p.RecheckWaiting? || p.Reading?
    case SawNoReader => p.Admit? || p.Writing?
    case Holding => p.Reading?
    case Entering => p.Enter?
    case JustEntered => p.RecheckActive?
    case NotRetreating => p.RecheckActive? || p.RecheckWaiting?
    case Draining => p.Drain?
    case NotAdmitted => p.Drain? || p.Admit?
  }

  function At(pc: Pcs, z: Zone): set<Thread> {
    set t | t in pc && In(pc[t], z)
  }

  lemma AtMove(pc: Pcs, t: Thread, to: Pc, z: Zone)
    requires t in pc
    ensures At(pc[t := to], z) == (if In(to, z) then At(pc, z) + {t} else At(pc, z) - {t})
    ensures t in At(pc, z) <==> In(pc[t], z)
  {
  }

  function Count(pc: Pcs, z: Zone): nat {
    |At(pc, z)|
  }

  function Bit(b: bool): int {
    if b then 1 else 0
  }

  lemma CountMove(pc: Pcs, t: Thread, to: Pc, z: Zone)
    requires t in pc
    ensures Count(pc[t := to], z) == Count(pc, z) - Bit(In(pc[t], z)) + Bit(In(to, z))
    ensures In(pc[t], z) ==> Count(pc, z) > 0
  {
    AtMove(pc, t, to, z);
  }

  // ---------------------------------------------------------------- the invariant

  /** Each counter counts the threads at the matching program points. */
  ghost predicate CountersMatch(g: Guard) {
    && g.readerCount == Count(g.pc, Counted)
    && g.writerActive == Count(g.pc, Owning) <= 1
    && g.writersWaiting == Count(g.pc, Waiting)
  }

  /** A writer that has seen no reader excludes every reader that has passed the writer_active test. */
  ghost predicate Excluded(g: Guard) {
    Count(g.pc, SawNoReader) == 0 || Count(g.pc, PastActiveTest) == 0
  }

  ghost predicate Inv(g: Guard) {
    CountersMatch(g) && Excluded(g)
  }

  lemma InitInv(g: Guard)
    requires Init(g)
    ensures Inv(g)
  {
    assert forall z :: At(g.pc, z) == {};
  }

  lemma NextCounters(g: Guard, t: Thread, choice: bool)
    requires t in g.pc && CountersMatch(g)
    ensures CountersMatch(Next(g, t, choice))
  {
    hide Count;
    var to := Next(g, t, choice).pc[t];
    CountMove(g.pc, t, to, Counted);
    CountMove(g.pc, t, to, Owning);
    CountMove(g.pc, t, to, Waiting);
  }

  lemma ZoneCounts(pc: Pcs)
    ensures Count(pc, PastActiveTest) <= Count(pc, Counted) && Count(pc, SawNoReader) <= Count(pc, Owning)
  {
    SubsetCount(At(pc, PastActiveTest), At(pc, Counted));
    SubsetCount(At(pc, SawNoReader), At(pc, Owning));
  }

  lemma NextExcluded(g: Guard, t: Thread, choice: bool)
    requires t in g.pc && Inv(g)
    ensures Excluded(Next(g, t, choice))
  {
    hide Count;
    var to := Next(g, t, choice).pc[t];
    CountMove(g.pc, t, to, SawNoReader);
    CountMove(g.pc, t, to, PastActiveTest);
    ZoneCounts(g.pc);
  }

  lemma NextInv(g: Guard, t: Thread, choice: bool)
    requires t in g.pc && Inv(g)
    ensures Inv(Next(g, t, choice))
  {
    NextCounters(g, t, choice);
    NextExcluded(g, t, choice);
  }

  // ---------------------------------------------------------------- runs

  /** A run: who moved, which way, and the states in between. */
  datatype Turn = Turn(thread: Thread, choice: bool)

  ghost predicate IsRun(states: seq<Guard>, turns: seq<Turn>) {
    && |states| == |turns| + 1
    && forall i :: 0 <= i < |turns| ==>
         turns[i].thread in states[i].pc && states[i + 1] == Next(states[i], turns[i].thread, turns[i].choice)
  }

  lemma {:induction false} RunInv(states: seq<Guard>, turns: seq<Turn>, n: nat)
    requires IsRun(states, turns) && Init(states[0]) && n < |states|
    ensures Inv(states[n])
  {
    if n == 0 {
      InitInv(states[0]);
    } else {
      RunInv(states, turns, n - 1);
      NextInv(states[n - 1], turns[n - 1].thread, turns[n - 1].choice);
    }
  }

  /** A writer that has seen no reader is alone past its test and past the readers' active test. */
  lemma Alone(g: Guard, t: Thread, u: Thread)
    requires Inv(g) && t in g.pc && u in g.pc && t != u && In(g.pc[t], SawNoReader)
    ensures !In(g.pc[u], SawNoReader) && !In(g.pc[u], PastActiveTest)
  {
    CountMove(g.pc, t, g.pc[t], SawNoReader);
    CountMove(g.pc, u, g.pc[u], PastActiveTest);
    if In(g.pc[u], SawNoReader) {
      SubsetCount({t, u}, At(g.pc, Owning));
    }
  }

  /** Mutual exclusion in every state of every run of any number of threads. */
  lemma Exclusion(states: seq<Guard>, turns: seq<Turn>, n: nat, t: Thread, u: Thread)
    requires IsRun(states, turns) && Init(states[0]) && n < |states|
    requires t in states[n].pc && u in states[n].pc && t != u
    ensures states[n].pc[t].Writing? ==> !states[n].pc[u].Writing? && !states[n].pc[u].Reading?
  {
    RunInv(states, turns, n);
    if states[n].pc[t].Writing? {
      Alone(states[n], t, u);
    }
  }

  // ---------------------------------------------------------------- readers together

  lemma RunExtend(states: seq<Guard>, turns: seq<Turn>, turn: Turn)
    requires IsRun(states, turns) && turn.thread in states[|turns|].pc
    ensures IsRun(states + [Next(states[|turns|], turn.thread, turn.choice)], turns + [turn])
  {
  }

  /** The uncontended path of db_guard_lock_read. */
  function ReadPath(pc: Pcs, t: Thread, k: nat): Pcs {
    pc[t := [Idle, CheckActive, CheckWaiting, Enter, RecheckActive, RecheckWaiting, Reading][if k < 7 then k else 6]]
  }

  lemma {:induction false} OneMoreReader(g: Guard, t: Thread, k: nat) returns (states: seq<Guard>, turns: seq<Turn>)
    requires t in g.pc && g.pc[t] == Idle && g.writerActive == 0 && g.writersWaiting == 0 && k <= 6
    ensures IsRun(states, turns) && states[0] == g
    ensures var last := states[|turns|];
            && last.writerActive == 0 && last.writersWaiting == 0 && last.pc == ReadPath(g.pc, t, k)
  {
    if k == 0 {
      assert g.pc == g.pc[t := Idle];
      return [g], [];
    }
    states, turns := OneMoreReader(g, t, k - 1);
    RunExtend(states, turns, Turn(t, true));
    states := states + [Next(states[|turns|], t, true)];
    turns := turns + [Turn(t, true)];
  }

  lemma RunJoin(s1: seq<Guard>, t1: seq<Turn>, s2: seq<Guard>, t2: seq<Turn>)
    requires IsRun(s1, t1) && IsRun(s2, t2) && s1[|t1|] == s2[0]
    ensures IsRun(s1 + s2[1..], t1 + t2)
    ensures (s1 + s2[1..])[|t1 + t2|] == s2[|t2|]
  {
    var s, t := s1 + s2[1..], t1 + t2;
    forall i | 0 <= i < |t|
      ensures t[i].thread in s[i].pc && s[i + 1] == Next(s[i], t[i].thread, t[i].choice)
    {
      if i < |t1| {
        assert s[i] == s1[i] && s[i + 1] == s1[i + 1];
      } else {
        assert s[i] == s2[i - |t1|] && s[i + 1] == s2[i - |t1| + 1];
      }
    }
  }

  /** Any number of readers can hold the guard at the same time. */
  lemma {:induction false} ReadersTogether(ts: set<Thread>, n: nat, readers: set<Thread>)
    returns (states: seq<Guard>, turns: seq<Turn>)
    requires readers <= ts && |readers| == n
    ensures IsRun(states, turns) && Init(states[0])
    ensures var last := states[|turns|];
            && last.writerActive == 0 && last.writersWaiting == 0 && last.pc.Keys == ts
            && forall t :: t in ts ==> last.pc[t] == if t in readers then Reading else Idle
    decreases n
  {
    if n == 0 {
      return [Guard(0, 0, 0, map t | t in ts :: Idle)], [];
    }
    var t :| t in readers;
    var s1, t1 := ReadersTogether(ts, n - 1, readers - {t});
    var s2, t2 := OneMoreReader(s1[|t1|], t, 6);
    RunJoin(s1, t1, s2, t2);
    return s1 + s2[1..], t1 + t2;
  }

  // ---------------------------------------------------------------- writer preference

  ghost predicate WriterWaits(g: Guard, w: Thread) {
    w in g.pc && In(g.pc[w], Waiting)
  }

  /** A bound on the reader operations still to come while a writer waits. */
  function Interference(pc: Pcs): nat {
    4 * Count(pc, Entering) + ReaderWork(pc)
  }

  /** Operations the counted readers need to uncount themselves. */
  function ReaderWork(pc: Pcs): nat {
    Count(pc, JustEntered) + Count(pc, NotRetreating) + Count(pc, Counted)
  }

  /** While a writer waits, no step lets a reader in, no thread reaches the point of counting
      itself again, and every step of a thread that is or may become counted uses up interference. */
  lemma WaitingStep(g: Guard, w: Thread, t: Thread, choice: bool)
    requires Inv(g) && WriterWaits(g, w) && t in g.pc
    ensures var g' := Next(g, t, choice);
            && At(g'.pc, Holding) <= At(g.pc, Holding)
            && At(g'.pc, Entering) <= At(g.pc, Entering)
            && Interference(g'.pc) <= Interference(g.pc)
            && (In(g.pc[t], Entering) || In(g.pc[t], Counted) ==> Interference(g'.pc) < Interference(g.pc))
            && (g.pc[t].Enter? ==> t in At(g.pc, Entering) && t !in At(g'.pc, Entering))
  {
    hide At, Count, Interference;
    CountMove(g.pc, w, g.pc[w], Waiting);
    WaitingCounts(g, t, choice);
    WaitingSets(g, t, choice);
  }

  lemma WaitingSets(g: Guard, t: Thread, choice: bool)
    requires g.writersWaiting > 0 && t in g.pc
    ensures var g' := Next(g, t, choice);
            && At(g'.pc, Holding) <= At(g.pc, Holding)
            && At(g'.pc, Entering) <= At(g.pc, Entering)
            && (g.pc[t].Enter? ==> t in At(g.pc, Entering) && t !in At(g'.pc, Entering))
  {
    hide At;
    var to := Next(g, t, choice).pc[t];
    AtMove(g.pc, t, to, Holding);
    AtMove(g.pc, t, to, Entering);
  }

  lemma WaitingCounts(g: Guard, t: Thread, choice: bool)
    requires g.writersWaiting > 0 && t in g.pc
    ensures var g' := Next(g, t, choice);
            && Interference(g'.pc) <= Interference(g.pc)
            && (In(g.pc[t], Entering) || In(g.pc[t], Counted) ==> Interference(g'.pc) < Interference(g.pc))
  {
    hide Count;
    var to := Next(g, t, choice).pc[t];
    CountMove(g.pc, t, to, Entering);
    CountMove(g.pc, t, to, JustEntered);
    CountMove(g.pc, t, to, NotRetreating);
    CountMove(g.pc, t, to, Counted);
  }

  /** How many of the turns are thread t's atomic add to reader_count. */
  ghost function Increments(states: seq<Guard>, turns: seq<Turn>, t: Thread): nat
    requires IsRun(states, turns)
    decreases |turns|
  {
    if turns == [] then 0 else
    var n := |turns| - 1;
    Increments(states[..n + 1], turns[..n], t) + (if turns[n].thread == t && states[n].pc[t].Enter? then 1 else 0)
  }

  /** Between a writer's registration and its admission: the readers inside only leave, each
      thread counts itself at most once more, and only if it was already about to. */
  lemma {:induction false} WriterPreference(states: seq<Guard>, turns: seq<Turn>, w: Thread, t: Thread)
    requires IsRun(states, turns) && Inv(states[0])
    requires forall i :: 0 <= i < |turns| ==> WriterWaits(states[i], w)
    ensures var last := states[|turns|];
            && Inv(last)
            && At(last.pc, Holding) <= At(states[0].pc, Holding)
            && At(last.pc, Entering) <= At(states[0].pc, Entering)
            && Interference(last.pc) <= Interference(states[0].pc)
            && Increments(states, turns, t) + (if t in At(last.pc, Entering) then 1 else 0)
               <= if t in At(states[0].pc, Entering) then 1 else 0
    decreases |turns|
  {
    hide At, Interference, Next, Inv;
    if turns != [] {
      var n := |turns| - 1;
      WriterPreference(states[..n + 1], turns[..n], w, t);
      WaitingStep(states[n], w, turns[n].thread, turns[n].choice);
      NextInv(states[n], turns[n].thread, turns[n].choice);
    }
  }

  /** Once the interference is used up the next look at reader_count admits the writer. */
  lemma DrainedAdmits(g: Guard, w: Thread, choice: bool)
    requires Inv(g) && w in g.pc && g.pc[w].Drain? && Interference(g.pc) == 0
    ensures Next(g, w, choice).pc[w].Admit?
  {
  }

  // ---------------------------------------------------------------- no deadlock

  /** Operations the owner of writer_active needs to give it up. */
  function OwnerWork(pc: Pcs): nat {
    Count(pc, Draining) + Count(pc, NotAdmitted) + Count(pc, Owning)
  }

  function WriterRank(p: Pc): nat {
    match p
    case Release => 4
    case TryActive => 3
    case Drain => 2
    case Admit => 1
    case _ => 0
  }

  /** Who to schedule so that w gets in: a counted reader, else another owner, else w itself. */
  ghost predicate Helps(g: Guard, w: Thread, t: Thread)
    requires w in g.pc
  {
    && t in g.pc
    && if g.readerCount > 0 then In(g.pc[t], Counted)
       else if In(g.pc[w], Owning) || g.writerActive == 0 then t == w
       else t != w && In(g.pc[t], Owning)
  }

  lemma HelperExists(g: Guard, w: Thread) returns (t: Thread)
    requires Inv(g) && WriterWaits(g, w)
    ensures Helps(g, w, t) && t in g.pc
  {
    if g.readerCount > 0 {
      t :| t in At(g.pc, Counted);
    } else if In(g.pc[w], Owning) || g.writerActive == 0 {
      t := w;
    } else {
      t :| t in At(g.pc, Owning);
    }
  }

  lemma HelperProgress(g: Guard, w: Thread, t: Thread)
    requires Inv(g) && WriterWaits(g, w) && Helps(g, w, t)
    ensures var g' := Next(g, t, true);
            || g'.pc[w].Writing?
            || (WriterWaits(g', w) && g.readerCount > 0 && ReaderWork(g'.pc) < ReaderWork(g.pc))
            || (WriterWaits(g', w) && ReaderWork(g'.pc) == ReaderWork(g.pc) && WriterRank(g'.pc[w]) < WriterRank(g.pc[w]))
            || (WriterWaits(g', w) && ReaderWork(g'.pc) == ReaderWork(g.pc) && WriterRank(g'.pc[w]) == WriterRank(g.pc[w])
                && OwnerWork(g'.pc) < OwnerWork(g.pc))
  {
    hide Count;
    CountMove(g.pc, w, g.pc[w], Waiting);
    var to := Next(g, t, true).pc[t];
    CountMove(g.pc, t, to, JustEntered);
    CountMove(g.pc, t, to, NotRetreating);
    CountMove(g.pc, t, to, Counted);
    CountMove(g.pc, t, to, Draining);
    CountMove(g.pc, t, to, NotAdmitted);
    CountMove(g.pc, t, to, Owning);
  }

  /** From every reachable state in which a writer is registered, some schedule admits it. */
  lemma {:induction false} WriterCanBeAdmitted(g: Guard, w: Thread) returns (states: seq<Guard>, turns: seq<Turn>)
    requires Inv(g) && WriterWaits(g, w)
    ensures IsRun(states, turns) && states[0] == g && w in states[|turns|].pc && states[|turns|].pc[w].Writing?
    decreases ReaderWork(g.pc), WriterRank(g.pc[w]), OwnerWork(g.pc)
  {
    hide ReaderWork, OwnerWork, WriterRank, Helps, Inv;
    var t := HelperExists(g, w);
    var g' := Next(g, t, true);
    NextInv(g, t, true);
    HelperProgress(g, w, t);
    assert IsRun([g, g'], [Turn(t, true)]);
    if g'.pc[w].Writing? {
      return [g, g'], [Turn(t, true)];
    }
    var s2, t2 := WriterCanBeAdmitted(g', w);
    RunJoin([g, g'], [Turn(t, true)], s2, t2);
    return [g, g'] + s2[1..], [Turn(t, true)] + t2;
  }
}

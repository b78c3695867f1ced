/** The result for whole runs: every run answers as if the requests with the write lock had been executed
    one at a time in the order of their admission, with every other request between two of them, and in
    an order that respects real time.
 */
module Serializability {
  import opened Common
  import opened SqlGrammar
  import DbGuard
  import opened Statements
  import opened Database
  import opened GuardedSystem
  import opened SystemSteps

  lemma {:induction false} SystemRunInv(base: Tables, states: seq<System>, moves: seq<Move>, n: nat)
    requires IsSystemRun(states, moves) && InitialSystem(states[0], base) && n < |states|
    ensures SystemInv(base, states[n])
  {
    hide SystemInv, Advance, AllConsistent;
    if n == 0 {
      InitialInv(base, states[0]);
    } else {
      SystemRunInv(base, states, moves, n - 1);
      AdvanceInv(base, states[n - 1], moves[n - 1]);
    }
  }

  /** Serializability.  In every state of every run of any number of threads on any tables: every answer
      given so far is the one the serial execution gives at the answer's place, and places respect real
      time; the answers to requests with the write lock have the places 0, 1, 2, ... in order, and the
      one place that may be left is that of the request that is writing now; and the shared tables are
      the serial ones whenever nobody is writing. */
  lemma Serializable(base: Tables, states: seq<System>, moves: seq<Move>, n: nat)
    requires IsSystemRun(states, moves) && InitialSystem(states[0], base) && n < |states|
    ensures forall i :: 0 <= i < |states[n].answers| ==> Right(base, states[n].writes, states[n].answers[i])
    ensures InRealTime(states[n].answers) && InOrder(states[n].answers)
    ensures |states[n].writes| == Writers(states[n].answers) + (if AnyWriting(states[n].guard) then 1 else 0)
    ensures forall t :: t in states[n].guard.pc && states[n].guard.pc[t].Writing? ==>
      && t in states[n].job && states[n].job[t].at + 1 == |states[n].writes|
      && states[n].writes[states[n].job[t].at] == states[n].job[t].query
    ensures !AnyWriting(states[n].guard) ==> states[n].tables == Serial(base, states[n].writes)
  {
    hide AllConsistent, Right, InRealTime, InOrder, AnyWriting, DbGuard.Inv, OnCourse, BeganInv, Writers;
    SystemRunInv(base, states, moves, n);
    var s := states[n];
    forall t | t in s.guard.pc && s.guard.pc[t].Writing?
      ensures t in s.job && s.job[t].at + 1 == |s.writes| && s.writes[s.job[t].at] == s.job[t].query
    {
      ThreadOf(base, s, t);
    }
  }
}

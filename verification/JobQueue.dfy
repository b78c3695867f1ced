/** The bounded queue of src/server/pool/job_queue.c.

  `JobQueue` is the ring buffer: each method is one stretch of code that runs with the mutex held.
  The module QueueProtocol lets any number of threads share it.
 */
module JobQueue {
  import opened Common

  /** A job; `executable` and `hasCleanup` say which callbacks are not null. */
  datatype Job = Job(id: nat, executable: bool, hasCleanup: bool)

  // ---------------------------------------------------------------- mutex sections on values

  datatype PushResult = PushSleeps | Refused | Stored
  datatype PopResult = PopSleeps | Drained | Took(job: Job)

  function Push(capacity: nat, jobs: seq<Job>, closed: bool): PushResult {
    if !closed && |jobs| == capacity then PushSleeps
    else if closed then Refused
    else Stored
  }

  function Pop(jobs: seq<Job>, closed: bool): PopResult {
    if !closed && |jobs| == 0 then PopSleeps
    else if |jobs| == 0 then Drained
    else Took(jobs[0])
  }

  /** The jobs whose cleanup callback job_queue_destroy calls. */
  function WithCleanup(jobs: seq<Job>): seq<Job> {
    if jobs == [] then []
    else
      var n := |jobs| - 1;
      WithCleanup(jobs[..n]) + (if jobs[n].hasCleanup then [jobs[n]] else [])
  }

  /** The jobs `some` stand at the increasing positions `at`, exactly those of jobs with a cleanup callback. */
  predicate CleanupsAt(jobs: seq<Job>, some: seq<Job>, at: seq<int>) {
    && |at| == |some|
    && (forall k :: 0 <= k < |at| ==> 0 <= at[k] < |jobs| && some[k] == jobs[at[k]])
    && (forall k, l :: 0 <= k < l < |at| ==> at[k] < at[l])
    && forall i :: 0 <= i < |jobs| ==> (i in at <==> jobs[i].hasCleanup)
  }

  lemma OneMoreJob(front: seq<Job>, job: Job, some: seq<Job>, at: seq<int>)
    requires CleanupsAt(front, some, at)
    ensures if job.hasCleanup then CleanupsAt(front + [job], some + [job], at + [|front|])
            else CleanupsAt(front + [job], some, at)
  {
    var jobs, n := front + [job], |front|;
    assert n !in at;
    var more := if job.hasCleanup then at + [n] else at;
    forall i | 0 <= i < |jobs|
      ensures i in more <==> jobs[i].hasCleanup
    {
      if i < n {
        assert jobs[i] == front[i];
        assert i in more <==> i in at;
      }
    }
  }

  /** Destroy cleans up the jobs at exactly the positions of those with a cleanup callback, in order. */
  lemma {:induction false} CleanupPositions(jobs: seq<Job>) returns (at: seq<int>)
    ensures CleanupsAt(jobs, WithCleanup(jobs), at)
  {
    if jobs == [] {
      at := [];
    } else {
      hide CleanupsAt;
      var n := |jobs| - 1;
      at := CleanupPositions(jobs[..n]);
      OneMoreJob(jobs[..n], jobs[n], WithCleanup(jobs[..n]), at);
      assert jobs == jobs[..n] + [jobs[n]];
      if jobs[n].hasCleanup {
        at := at + [n];
      } else {
        assert WithCleanup(jobs[..n]) + [] == WithCleanup(jobs[..n]);
      }
    }
  }

  // ---------------------------------------------------------------- the ring buffer

  /** The slot i places after `head`. */
  function Slot(head: nat, i: nat, capacity: nat): nat
    requires capacity > 0
  {
    (head + i) % capacity
  }

  lemma SlotValue(head: nat, i: nat, capacity: nat)
    requires head < capacity && i <= capacity
    ensures Slot(head, i, capacity) == if head + i < capacity then head + i else head + i - capacity
  {
  }

  lemma SlotAfter(i: nat, capacity: nat)
    requires i < capacity
    ensures (i + 1) % capacity == Slot(i, 1, capacity) < capacity
  {
    SlotValue(i, 1, capacity);
  }

  lemma NextSlot(head: nat, i: nat, capacity: nat)
    requires head < capacity && i < capacity
    ensures Slot(head, i, capacity) < capacity
    ensures Slot(Slot(head, i, capacity), 1, capacity) == Slot(head, i + 1, capacity)
  {
    hide Slot;
    SlotValue(head, i, capacity);
    SlotValue(head, i + 1, capacity);
    SlotValue(Slot(head, i, capacity), 1, capacity);
  }

  lemma SlotsDiffer(head: nat, i: nat, j: nat, capacity: nat)
    requires head < capacity && i < j < capacity
    ensures Slot(head, i, capacity) != Slot(head, j, capacity)
  {
    SlotValue(head, i, capacity);
    SlotValue(head, j, capacity);
  }

  /** Counting from the second slot. */
  lemma SlotFromNext(head: nat, i: nat, capacity: nat)
    requires head < capacity && i < capacity
    ensures Slot(head, 1, capacity) < capacity
    ensures Slot(Slot(head, 1, capacity), i, capacity) == Slot(head, i + 1, capacity)
  {
    hide Slot;
    SlotValue(head, 1, capacity);
    SlotValue(Slot(head, 1, capacity), i, capacity);
    SlotValue(head, i + 1, capacity);
  }

  class JobQueue {
    const capacity: nat
    const jobs: array<Job>
    var head: nat
    var tail: nat
    var count: nat
    var closed: bool

    ghost predicate Valid()
      reads this
    {
      && capacity > 0 && jobs.Length == capacity
      && head < capacity && count <= capacity
      && tail == Slot(head, count, capacity)
    }

    /** The queued jobs, the next one to leave first. */
    ghost function Contents(): (s: seq<Job>)
      requires Valid()
      reads this, jobs
      ensures |s| == count
    {
      seq(count, i requires 0 <= i < count reads this, jobs requires Valid() => jobs[Slot(head, i, capacity)])
    }

    constructor (capacity: nat)
      requires capacity > 0
      ensures Valid() && this.capacity == capacity && Contents() == [] && !closed && fresh(jobs)
    {
      this.capacity := capacity;
      jobs := new Job[capacity];
      head, tail, count, closed := 0, 0, 0, false;
    }

    /** job_queue_create: a capacity that is not positive is refused. */
    static method Create(capacity: int) returns (q: JobQueue?)
      ensures q == null <==> capacity <= 0
      ensures q != null ==> q.Valid() && q.capacity == capacity && q.Contents() == [] && !q.closed && fresh(q) && fresh(q.jobs)
    {
      if capacity <= 0 {
        return null;
      }
      q := new JobQueue(capacity);
    }

    /** job_queue_push from a mutex acquisition to the next wait or unlock. */
    method PushSection(job: Job) returns (r: PushResult)
      requires Valid()
      modifies this, jobs
      ensures Valid() && closed == old(closed)
      ensures r == Push(capacity, old(Contents()), old(closed))
      ensures Contents() == old(Contents()) + if r.Stored? then [job] else []
    {
      hide Slot;
      if !closed && count == capacity {
        return PushSleeps;
      }
      if closed {
        return Refused;
      }
      NextSlot(head, count, capacity);
      SlotAfter(tail, capacity);
      forall i | 0 <= i < count
        ensures Slot(head, i, capacity) != tail
      {
        SlotsDiffer(head, i, count, capacity);
      }
      jobs[tail] := job;
      tail := (tail + 1) % capacity;
      count := count + 1;
      return Stored;
    }

    /** job_queue_pop from a mutex acquisition to the next wait or unlock. */
    method PopSection() returns (r: PopResult)
      requires Valid()
      modifies this, jobs
      ensures Valid() && closed == old(closed)
      ensures r == Pop(old(Contents()), old(closed))
      ensures Contents() == if r.Took? then old(Contents())[1..] else old(Contents())
    {
      hide Slot;
      if !closed && count == 0 {
        return PopSleeps;
      }
      if count == 0 {
        return Drained;
      }
      SlotValue(head, 0, capacity);
      SlotAfter(head, capacity);
      ghost var second := Slot(head, 1, capacity);
      SlotFromNext(head, count - 1, capacity);
      forall i | 0 <= i < count - 1
        ensures Slot(second, i, capacity) == Slot(head, i + 1, capacity) != head
      {
        SlotFromNext(head, i, capacity);
        SlotsDiffer(head, 0, i + 1, capacity);
      }
      r := Took(jobs[head]);
      jobs[head] := Job(0, false, false);
      head := (head + 1) % capacity;
      count := count - 1;
    }

    /** job_queue_close. */
    method Close()
      requires Valid()
      modifies this
      ensures Valid() && closed && Contents() == old(Contents())
    {
      closed := true;
    }

    /** job_queue_destroy up to the release of its memory: the jobs cleaned up, in order. */
    method Destroy() returns (cleaned: seq<Job>)
      requires Valid()
      modifies this
      ensures Valid() && closed && Contents() == old(Contents()) && cleaned == WithCleanup(Contents())
    {
      Close();
      cleaned := [];
      var index := 0;
      while index < count
        invariant index <= count && Valid() && closed && Contents() == old(Contents())
        invariant cleaned == WithCleanup(Contents()[..index])
      {
        var job := jobs[(head + index) % capacity];
        assert Contents()[..index + 1][..index] == Contents()[..index];
        if job.hasCleanup {
          cleaned := cleaned + [job];
        }
        index := index + 1;
      }
      assert Contents()[..count] == Contents();
    }
  }
}

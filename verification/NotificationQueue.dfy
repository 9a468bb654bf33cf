/** The webhook queue of notification.c: a circular buffer under a lock, refining a bounded FIFO.
    Each method is one locked region. */
module NotificationQueue {
  import opened Basics

  const QueueSize := 8

  datatype Job = Job(event: int, text: string, force: bool)

  /** The slot `i` places after `head`. */
  function At(head: nat, i: nat): nat {
    if head + i < QueueSize then head + i else head + i - QueueSize
  }

  class Queue {
    const slots: array<Job>
    var head: nat
    var tail: nat
    var count: nat
    var running: bool
    var stop: bool

    // everything accepted and everything the worker took since the last start
    ghost var accepted: seq<Job>
    ghost var taken: seq<Job>
    ghost var exited: bool

    /** Until the worker exits, what was accepted is what was taken and then what is queued, in
        order; after that, what was taken is a prefix of what was accepted. */
    ghost predicate Valid()
      reads this, slots
    {
      && slots.Length == QueueSize && head < QueueSize && tail < QueueSize && count <= QueueSize
      && (exited ==> stop)
      && (running && !exited ==> Fifo())
      && Prefix(taken, accepted)
    }

    ghost predicate Fifo()
      requires slots.Length == QueueSize && head < QueueSize && count <= QueueSize
      reads this, slots
    {
      && tail == At(head, count)
      && |accepted| == |taken| + count
      && forall i :: 0 <= i < count ==> slots[At(head, i)] == accepted[|taken| + i]
    }

    constructor ()
      ensures Valid() && !running && fresh(slots)
    {
      slots := new Job[QueueSize](_ => Job(0, "", false));
      head, tail, count, running, stop := 0, 0, 0, false, false;
      accepted, taken, exited := [], [], false;
    }

    /** The part of notification_init that concerns the queue; `threadStarts` is whether
        pthread_create succeeds. */
    method Start(threadStarts: bool)
      requires Valid()
      modifies this
      ensures Valid() && (old(running) ==> unchanged(this))
      ensures !old(running) ==> accepted == taken == [] && count == 0 && !exited && running == threadStarts
    {
      if running {
        return;
      }
      head, tail, count, stop := 0, 0, 0, false;
      accepted, taken, exited := [], [], false;
      running := threadStarts;
    }

    /** enqueue_job: accepted exactly when the worker runs and fewer than 8 jobs are queued. */
    method Enqueue(job: Job) returns (result: int)
      requires Valid()
      modifies this, slots
      ensures Valid() && running == old(running) && stop == old(stop) && exited == old(exited) && taken == old(taken)
      ensures result == 0 <==> old(running) && old(count) < 8
      ensures accepted == if result == 0 then old(accepted) + [job] else old(accepted)
      ensures count == if result == 0 then old(count) + 1 else old(count)
    {
      if !running || count >= QueueSize {
        return -1;
      }
      slots[tail] := job;
      tail := (tail + 1) % QueueSize;
      count := count + 1;
      accepted := accepted + [job];
      return 0;
    }

    /** One turn of the worker once it may go on: it exits if it is told to stop, and otherwise
        takes the job that was accepted first. */
    method WorkerTurn() returns (exits: bool, job: Job)
      requires Valid() && running && !exited && (count > 0 || stop)
      modifies this
      ensures Valid() && running && stop == old(stop) && accepted == old(accepted)
      ensures exits == stop && exited == exits
      ensures exits ==> taken == old(taken) && count == 0
      ensures !exits ==> taken == old(taken) + [job] && count == old(count) - 1
      ensures !exits ==> job == old(accepted)[|old(taken)|]
    {
      job := slots[head];
      if stop {
        count, exited := 0, true;
        return true, job;
      }
      assert job == slots[At(head, 0)];
      ghost var before := head;
      head := (head + 1) % QueueSize;
      forall i | 0 <= i < count - 1 ensures slots[At(head, i)] == accepted[|taken| + 1 + i] {
        assert At(head, i) == At(before, i + 1);
      }
      count := count - 1;
      taken := taken + [job];
      return false, job;
    }

    /** The two locked regions of notification_deinit. */
    method RequestStop()
      requires Valid()
      modifies this`stop
      ensures Valid() && (running ==> stop)
    {
      if running {
        stop := true;
      }
    }

    method Joined()
      requires Valid() && exited
      modifies this`running
      ensures Valid() && !running
    {
      running := false;
    }
  }
}

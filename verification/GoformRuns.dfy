/** What the job engine guarantees over every run, in every interleaving of its two threads. */
module GoformRuns {
  import opened GoformJobs
  import opened GoformSafety

  /** A run: it starts with nothing initialised, and every step is enabled where it is taken. */
  ghost predicate Run(states: seq<State>, steps: seq<Step>) {
    && |states| == |steps| + 1
    && states[0] == Start
    && forall i :: 0 <= i < |steps| ==> Enabled(states[i], steps[i]) && states[i + 1] == Next(states[i], steps[i])
  }

  lemma StepKeeps(s: State, step: Step)
    requires Inv(s) && Enabled(s, step)
    ensures Inv(Next(s, step))
  {
    match step
    case Init => InitKeeps(s);
    case Open(c) => OpenKeeps(s, c);
    case SubmitRefused => SubmitRefusedKeeps(s);
    case SubmitAlloc(c, a) => SubmitAllocKeeps(s, c, a);
    case SubmitLocked => SubmitLockedKeeps(s);
    case Cancel(c) => CancelKeeps(s, c);
    case Close(c) => CloseKeeps(s, c);
    case Deliver(token) => DeliverKeeps(s, token);
    case Lose(token) => LoseKeeps(s, token);
    case RunCompletion => RunCompletionKeeps(s);
    case LoopDispose => DisposeKeeps(s, step);
    case ShutdownBegin => ShutdownBeginKeeps(s);
    case ShutdownFinish => ShutdownFinishKeeps(s);
    case WorkerLock => if s.stopping { WorkerStopKeeps(s); } else { WorkerTakeKeeps(s); }
    case WorkerCallback(reply) => WorkerCallbackKeeps(s, reply);
    case WorkerFinish(woken) => WorkerFinishKeeps(s, woken);
    case WorkerDispose => DisposeKeeps(s, step);
  }

  lemma {:induction false} RunKeeps(states: seq<State>, steps: seq<Step>, n: nat)
    requires Run(states, steps) && n < |states|
    ensures Inv(states[n])
  {
    if n > 0 {
      RunKeeps(states, steps, n - 1);
      StepKeeps(states[n - 1], steps[n - 1]);
    }
  }

  // ---------- reading a life off the log ----------

  /** How often the log disposes ticket `t`. */
  function Disposals(log: seq<Event>, t: Ticket): nat {
    multiset(log)[Disposed(t)]
  }

  /** A ticket that is not gone was never disposed; a gone one was disposed exactly once, and
      nothing was ever said about it afterwards. */
  lemma {:induction false} DisposedOnce(log: seq<Event>, t: Ticket)
    requires LifeOf(log, t) != Broken
    ensures Disposals(log, t) == if LifeOf(log, t) == Gone then 1 else 0
    ensures forall i, j :: 0 <= i < j < |log| && log[i] == Disposed(t) ==> !About(log[j], t)
  {
    if log != [] {
      var n := |log| - 1;
      assert log == log[..n] + [log[n]];
      DisposedOnce(log[..n], t);
      forall i, j | 0 <= i < j < |log| && log[i] == Disposed(t) ensures !About(log[j], t) {
        assert log[..n][i] == log[i];
        if j == n {
          assert log[i] in multiset(log[..n]);
        }
      }
    }
  }

  /** A completion comes after the acceptance of its ticket on the same connection and after its
      own worker's return with the same reply, and there is one at most. */
  lemma {:induction false} CompletedOnce(log: seq<Event>, t: Ticket, j: nat)
    requires LifeOf(log, t) != Broken && j < |log| && log[j].CompletionRan? && log[j].ticket == t
    ensures Accepted(t, log[j].conn) in log[..j] && Returned(t, log[j].reply) in log[..j]
    ensures forall i :: 0 <= i < |log| && log[i].CompletionRan? && log[i].ticket == t ==> i == j
  {
    var n := |log| - 1;
    assert log == log[..n] + [log[n]];
    if j < n {
      assert log[..n][..j] == log[..j];
      CompletedOnce(log[..n], t, j);
      assert forall i :: 0 <= i < n ==> log[..n][i] == log[i];
      AfterCompletion(log[..n], t, j);
    } else {
      Traces(log[..n], t);
    }
  }

  /** The events an unfinished life stands for are in the log, and no completion is before it has one. */
  lemma {:induction false} Traces(log: seq<Event>, t: Ticket)
    requires LifeOf(log, t) != Broken
    ensures var life := LifeOf(log, t);
      && (life.Waiting? || life.Answered? || life.Delivered? ==> Accepted(t, life.conn) in log)
      && (life.Answered? || life.Delivered? ==> Returned(t, life.reply) in log)
      && (life.Unseen? || life.Waiting? || life.Answered? ==>
            forall i :: 0 <= i < |log| && log[i].CompletionRan? ==> log[i].ticket != t)
  {
    if log != [] {
      var n := |log| - 1;
      assert log == log[..n] + [log[n]];
      Traces(log[..n], t);
      assert forall i :: 0 <= i < n ==> log[..n][i] == log[i];
    }
  }

  lemma {:induction false} AfterCompletion(log: seq<Event>, t: Ticket, j: nat)
    requires LifeOf(log, t) != Broken && j < |log| && log[j].CompletionRan? && log[j].ticket == t
    ensures LifeOf(log, t) == Gone || LifeOf(log, t).Delivered?
  {
    var n := |log| - 1;
    if j < n {
      assert log[..n][j] == log[j];
      AfterCompletion(log[..n], t, j);
    }
  }

  // ---------- the theorems ----------

  lemma NeverBroken(s: State, t: Ticket)
    requires Inv(s)
    ensures LifeOf(s.log, t) != Broken
    ensures LifeOf(s.log, t) == Gone <==> t < s.nextTicket && !Allocated(s.heap, t)
  {
    if Allocated(s.heap, t) {
      var a :| a in s.heap && s.heap[a].ticket == t;
      assert Leads(PhaseOf(a, s.heap[a], s.worker, s.loop), LifeOf(s.log, t));
    }
  }

  /** Every argument ever handed to submit, accepted or not, is either owned by exactly one
      allocated job or has been freed exactly once; once freed, the log never mentions it again.
      No address is freed twice or read after it is freed: every step that disposes or touches a
      job is enabled only while the job is allocated, and it always is when its thread gets there. */
  lemma ArgumentsFreedOnce(states: seq<State>, steps: seq<Step>, t: Ticket)
    requires Run(states, steps)
    ensures var s := states[|steps|];
      && (t < s.nextTicket ==> Disposals(s.log, t) == if Allocated(s.heap, t) then 0 else 1)
      && (forall a, b :: a in s.heap && b in s.heap && s.heap[a].ticket == t && s.heap[b].ticket == t ==> a == b)
      && (forall i, j :: 0 <= i < j < |s.log| && s.log[i] == Disposed(t) ==> !About(s.log[j], t))
  {
    RunKeeps(states, steps, |steps|);
    NeverBroken(states[|steps|], t);
    DisposedOnce(states[|steps|].log, t);
  }

  /** The next memory access of each thread is to an allocated job. */
  lemma NoUseAfterFree(states: seq<State>, steps: seq<Step>)
    requires Run(states, steps)
    ensures var s := states[|steps|];
      && (s.loop.Submitting? || s.loop.Completing? || s.loop.LoopDisposing? ==> s.loop.job in s.heap)
      && (s.worker.InCallback? || s.worker.Finishing? || s.worker.WorkerDisposing? ==> s.worker.job in s.heap)
      && (forall a :: a in s.jobs ==> a in s.heap)
  {
    RunKeeps(states, steps, |steps|);
    var s := states[|steps|];
    assert LoopHolds(s.loop) <= s.heap.Keys && WorkerHolds(s.worker) <= s.heap.Keys;
    if s.worker.InCallback? || s.worker.Finishing? {
      BusyAlone(s, s.worker.job);
    }
  }

  /** A completion callback runs at most once for a ticket, on the connection that submitted it,
      with the reply its own worker callback returned, and never once that connection closed. */
  lemma CompletionsAreRight(states: seq<State>, steps: seq<Step>, j: nat)
    requires Run(states, steps)
    requires j < |states[|steps|].log| && states[|steps|].log[j].CompletionRan?
    ensures var log := states[|steps|].log; var e := log[j];
      && Accepted(e.ticket, e.conn) in log[..j]
      && Returned(e.ticket, e.reply) in log[..j]
      && (forall i :: 0 <= i < |log| && log[i].CompletionRan? && log[i].ticket == e.ticket ==> i == j)
      && Closed(e.conn) !in log[..j]
  {
    RunKeeps(states, steps, |steps|);
    var log := states[|steps|].log;
    NeverBroken(states[|steps|], log[j].ticket);
    CompletedOnce(log, log[j].ticket, j);
  }

  /** At every moment at most one listed job is RUNNING and it is the worker's own, a cancelled
      job still listed is RUNNING, and the listed connections are pairwise distinct. */
  lemma ListStaysInShape(states: seq<State>, steps: seq<Step>)
    requires Run(states, steps)
    ensures var s := states[|steps|];
      && (forall a :: a in s.jobs && a in s.heap ==> (s.heap[a].state == Running <==> Busy(s.worker, a)))
      && (forall a :: a in s.jobs && a in s.heap && s.heap[a].canceled ==> s.heap[a].state == Running)
      && (forall i, j :: 0 <= i < j < |s.jobs| && s.jobs[i] in s.heap && s.jobs[j] in s.heap ==>
            s.heap[s.jobs[i]].conn != s.heap[s.jobs[j]].conn)
  {
    RunKeeps(states, steps, |steps|);
    var s := states[|steps|];
    forall a | a in s.jobs ensures a in s.heap && ListedJob(a, s.heap[a], s.worker, s.live) {
    }
  }

  /** While the engine serves, a pending wakeup of an open connection that was never cancelled
      names a listed COMPLETED job of that connection, even when addresses have been reused, and it
      is the only one of that connection. */
  lemma PendingTokensAreFresh(states: seq<State>, steps: seq<Step>, token: Token)
    requires Run(states, steps)
    requires var s := states[|steps|];
      s.initialized && !s.stopping && token in s.pipe && token.conn in s.live && token.conn !in s.cut
    ensures var s := states[|steps|];
      && Names(token, s.heap, s.jobs) && !s.heap[token.job].canceled
      && s.pipe[token] == 1 && forall other :: other in s.pipe && other.conn == token.conn ==> other == token
  {
    RunKeeps(states, steps, |steps|);
    var s := states[|steps|];
    assert token.conn in s.live - s.cut;
    assert ListedJob(token.job, s.heap[token.job], s.worker, s.live);
    forall other | other in s.pipe && other.conn == token.conn ensures other == token {
      assert Names(other, s.heap, s.jobs) && Names(token, s.heap, s.jobs);
    }
  }

  /** After shutdown has returned nothing is allocated: every argument ever handed to submit has
      been freed exactly once. */
  lemma ShutdownDisposesEverything(states: seq<State>, steps: seq<Step>)
    requires Run(states, steps) && steps != [] && steps[|steps| - 1] == ShutdownFinish
    ensures var s := states[|steps|];
      && s.heap == map[] && s.jobs == []
      && forall t: Ticket :: t < s.nextTicket ==> Disposals(s.log, t) == 1
  {
    var n := |steps| - 1;
    RunKeeps(states, steps, n);
    ShutdownFinishKeeps(states[n]);
    forall t: Ticket | t < states[|steps|].nextTicket ensures Disposals(states[|steps|].log, t) == 1 {
      ArgumentsFreedOnce(states, steps, t);
    }
  }

  /** How many steps the worker still needs before it exits, once shutdown has begun. */
  function WorkerRank(worker: WorkerPc): nat {
    match worker
    case InCallback(_) => 4
    case Finishing(_) => 3
    case WorkerDisposing(_) => 2
    case AtLock => 1
    case _ => 0
  }

  predicate WorkerStep(step: Step) {
    step.WorkerLock? || step.WorkerCallback? || step.WorkerFinish? || step.WorkerDispose?
  }

  /** pthread_join returns: while shutdown waits, the worker has exited or can step, and each of
      its steps brings it closer to its exit. */
  lemma JoinReturns(states: seq<State>, steps: seq<Step>, reply: Reply)
    requires Run(states, steps) && states[|steps|].loop == Joining
    ensures var s := states[|steps|]; s.worker == Exited || Enabled(s, WorkerMove(s, reply))
    ensures var s := states[|steps|];
      forall step :: WorkerStep(step) && Enabled(s, step) ==> WorkerRank(Next(s, step).worker) < WorkerRank(s.worker)
  {
    RunKeeps(states, steps, |steps|);
    var s := states[|steps|];
    WorkerCanMove(s, reply);
    forall step | WorkerStep(step) && Enabled(s, step)
      ensures WorkerRank(Next(s, step).worker) < WorkerRank(s.worker)
    {
      RankFalls(s, step);
    }
  }

  lemma WorkerCanMove(s: State, reply: Reply)
    requires Inv(s) && s.loop == Joining
    ensures s.worker == Exited || Enabled(s, WorkerMove(s, reply))
  {
  }

  /** What the worker does next. */
  function WorkerMove(s: State, reply: Reply): Step {
    match s.worker
    case InCallback(_) => WorkerCallback(reply)
    case Finishing(_) => WorkerFinish(true)
    case WorkerDisposing(_) => WorkerDispose
    case _ => WorkerLock
  }

  lemma RankFalls(s: State, step: Step)
    requires s.stopping && WorkerStep(step) && Enabled(s, step)
    ensures WorkerRank(Next(s, step).worker) < WorkerRank(s.worker)
  {
    match step {
      case WorkerLock => assert NextWorkerLock(s).worker == Exited;
      case WorkerCallback(reply) => assert NextCallback(s, s.worker.job, reply).worker == Finishing(s.worker.job);
      case WorkerFinish(woken) => assert NextWorkerFinish(s, s.worker.job, woken).worker == WorkerDisposing(s.worker.job);
      case WorkerDispose =>
    }
  }
}

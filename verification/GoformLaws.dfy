/** What a caller of the job engine can rely on, over every run of its two threads. */
module GoformLaws {
  import opened GoformJobs
  import opened GoformSafety
  import opened GoformRuns

  // ---------- where the events come from ----------

  /** No listed job has this connection. */
  ghost predicate Unlisted(s: State, c: ConnId) {
    forall b :: b in s.jobs && b in s.heap ==> s.heap[b].conn != c
  }

  /** The step, taken in `s`, that such an event stands for. */
  ghost predicate Causes(s: State, step: Step, e: Event) {
    match e
    case Accepted(t, c) =>
      && step.SubmitLocked? && s.loop.Submitting? && s.loop.job in s.heap
      && s.heap[s.loop.job].ticket == t && s.heap[s.loop.job].conn == c && !s.stopping && Unlisted(s, c)
    case Returned(t, r) =>
      step == WorkerCallback(r) && s.worker.InCallback? && s.worker.job in s.heap && s.heap[s.worker.job].ticket == t
    case CompletionRan(t, c, r) =>
      && step.RunCompletion? && s.loop.Completing? && s.loop.conn == c && s.loop.job in s.heap
      && s.heap[s.loop.job].ticket == t && s.heap[s.loop.job].conn == c && s.heap[s.loop.job].reply == r
    case Disposed(t) =>
      || (step.SubmitRefused? && t == s.nextTicket)
      || (step.LoopDispose? && s.loop.LoopDisposing? && s.loop.job in s.heap && s.heap[s.loop.job].ticket == t)
      || (step.WorkerDispose? && s.worker.WorkerDisposing? && s.worker.job in s.heap && s.heap[s.worker.job].ticket == t)
      || ((step.WorkerLock? || step.ShutdownFinish?) && s.stopping && ListedTicket(s, t))
    case Closed(c) => step == Close(c)
  }

  ghost predicate ListedTicket(s: State, t: Ticket) {
    exists a :: a in s.jobs && a in s.heap && s.heap[a].ticket == t
  }

  /** The step appends to the log, and only what it causes. */
  ghost predicate LogsOnly(s: State, step: Step, log: seq<Event>) {
    |s.log| <= |log| && log[..|s.log|] == s.log && forall k :: |s.log| <= k < |log| ==> Causes(s, step, log[k])
  }

  lemma NoOneFound(s: State, c: ConnId)
    requires Inv(s)
    ensures Find(s.heap, s.jobs, 0, c) == 0 <==> Unlisted(s, c)
  {
    FindFinds(s.heap, s.jobs, 0, c);
  }

  /** Disposing listed jobs logs that they were disposed. */
  lemma {:induction false} DisposeFromLogs(s: State, s0: State, step: Step, jobs: seq<Addr>, everything: bool)
    requires (step.WorkerLock? || step.ShutdownFinish?) && s0.stopping && LogsOnly(s0, step, s.log)
    requires forall a :: a in jobs ==> a in s0.jobs && a in s0.heap
    requires forall a :: a in s.heap ==> a in s0.heap && s0.heap[a].ticket == s.heap[a].ticket
    ensures LogsOnly(s0, step, DisposeFrom(s, jobs, everything).log)
    decreases |jobs|
  {
    if jobs != [] {
      var s1 := DisposeListed(s, jobs[0], everything);
      DisposeListedLogs(s, s0, step, jobs[0], everything);
      DisposeFromLogs(s1, s0, step, jobs[1..], everything);
    }
  }

  lemma DisposeListedLogs(s: State, s0: State, step: Step, a: Addr, everything: bool)
    requires (step.WorkerLock? || step.ShutdownFinish?) && s0.stopping && LogsOnly(s0, step, s.log)
    requires a in s0.jobs && a in s0.heap
    requires forall b :: b in s.heap ==> b in s0.heap && s0.heap[b].ticket == s.heap[b].ticket
    ensures LogsOnly(s0, step, DisposeListed(s, a, everything).log)
  {
    if a in s.heap {
      assert ListedTicket(s0, s.heap[a].ticket);
    }
  }

  lemma StepLogs(s: State, step: Step)
    requires Inv(s) && Enabled(s, step)
    ensures LogsOnly(s, step, Next(s, step).log)
  {
    match step {
      case SubmitLocked => SubmitLogs(s);
      case WorkerLock => LockLogs(s);
      case ShutdownFinish => DisposeFromLogs(s, s, step, s.jobs, true);
      case _ => OtherLogs(s, step);
    }
  }

  lemma OtherLogs(s: State, step: Step)
    requires Control(s) && Enabled(s, step) && !step.SubmitLocked? && !step.WorkerLock? && !step.ShutdownFinish?
    ensures LogsOnly(s, step, Next(s, step).log)
  {
    if step.WorkerDispose? || step.LoopDispose? || step.SubmitRefused? {
      DisposalLogs(s, step);
    } else if step.WorkerCallback? || step.RunCompletion? {
      ReplyLogs(s, step);
    }
  }

  lemma DisposalLogs(s: State, step: Step)
    requires Enabled(s, step) && (step.WorkerDispose? || step.LoopDispose? || step.SubmitRefused?)
    ensures LogsOnly(s, step, Next(s, step).log)
  {
  }

  lemma ReplyLogs(s: State, step: Step)
    requires Control(s) && Enabled(s, step) && (step.WorkerCallback? || step.RunCompletion?)
    ensures LogsOnly(s, step, Next(s, step).log)
  {
  }

  lemma SubmitLogs(s: State)
    requires Inv(s) && Enabled(s, SubmitLocked)
    ensures LogsOnly(s, SubmitLocked, NextSubmit(s, s.loop.job).log)
  {
    NoOneFound(s, s.heap[s.loop.job].conn);
  }

  lemma LockLogs(s: State)
    requires Inv(s) && Enabled(s, WorkerLock)
    ensures LogsOnly(s, WorkerLock, NextWorkerLock(s).log)
  {
    if s.stopping {
      DisposeFromLogs(s, s, WorkerLock, s.jobs, false);
    }
  }


  lemma StepAt(states: seq<State>, steps: seq<Step>, i: nat)
    requires Run(states, steps) && i < |steps|
    ensures LogsOnly(states[i], steps[i], states[i + 1].log)
  {
    RunKeeps(states, steps, i);
    StepLogs(states[i], steps[i]);
  }

  /** Every event of the log was appended by a step that it stands for. */
  lemma {:induction false} EventsHaveSteps(states: seq<State>, steps: seq<Step>, n: nat, k: nat) returns (i: nat)
    requires Run(states, steps) && n < |states| && k < |states[n].log|
    ensures i < n && |states[i].log| <= k < |states[i + 1].log| && states[i + 1].log[k] == states[n].log[k]
    ensures Causes(states[i], steps[i], states[n].log[k])
  {
    StepAt(states, steps, n - 1);
    var before := |states[n - 1].log|;
    if k < before {
      assert states[n].log[..before][k] == states[n].log[k];
      i := EventsHaveSteps(states, steps, n - 1, k);
    } else {
      i := n - 1;
    }
  }

  // ---------- whose job it is ----------

  /** A job of this ticket and connection was handed to submit. */
  ghost predicate Submitted(states: seq<State>, steps: seq<Step>, n: nat, t: Ticket, c: ConnId)
    requires n <= |steps| < |states|
  {
    exists i :: 0 <= i < n && SubmitsAt(states[i], steps[i], t, c)
  }

  predicate SubmitsAt(s: State, step: Step, t: Ticket, c: ConnId) {
    step.SubmitAlloc? && step.conn == c && s.nextTicket == t
  }

  /** No step changes the ticket or the connection of a job. */
  lemma JobsStay(s: State, step: Step, a: Addr)
    requires Enabled(s, step) && a in Next(s, step).heap
    ensures var job := Next(s, step).heap[a];
      || (a in s.heap && s.heap[a].ticket == job.ticket && s.heap[a].conn == job.conn)
      || (step == SubmitAlloc(job.conn, a) && job.ticket == s.nextTicket)
  {
    if WorkerStep(step) {
      WorkerKeepsJobs(s, step, a);
    } else if step.ShutdownFinish? {
      DisposeFromShrinks(s, s.jobs, true);
    } else if !step.SubmitAlloc? {
      LoopKeepsJobs(s, step, a);
    }
  }

  lemma WorkerKeepsJobs(s: State, step: Step, a: Addr)
    requires Enabled(s, step) && WorkerStep(step) && a in Next(s, step).heap
    ensures var job := Next(s, step).heap[a]; a in s.heap && s.heap[a].ticket == job.ticket && s.heap[a].conn == job.conn
  {
    if step.WorkerLock? {
      DisposeFromShrinks(s, s.jobs, false);
    }
  }

  lemma LoopKeepsJobs(s: State, step: Step, a: Addr)
    requires Enabled(s, step) && !WorkerStep(step) && !step.ShutdownFinish? && !step.SubmitAlloc? && a in Next(s, step).heap
    ensures var job := Next(s, step).heap[a]; a in s.heap && s.heap[a].ticket == job.ticket && s.heap[a].conn == job.conn
  {
  }

  lemma {:induction false} DisposeFromShrinks(s: State, jobs: seq<Addr>, everything: bool)
    ensures var s' := DisposeFrom(s, jobs, everything); forall a :: a in s'.heap ==> a in s.heap && s'.heap[a] == s.heap[a]
    decreases |jobs|
  {
    if jobs != [] {
      DisposeFromShrinks(DisposeListed(s, jobs[0], everything), jobs[1..], everything);
    }
  }

  lemma {:induction false} JobsWereSubmitted(states: seq<State>, steps: seq<Step>, n: nat, a: Addr)
    requires Run(states, steps) && n < |states| && a in states[n].heap
    ensures Submitted(states, steps, n, states[n].heap[a].ticket, states[n].heap[a].conn)
  {
    JobIsOlder(states, steps, n, a);
    var job := states[n].heap[a];
    if !SubmitsAt(states[n - 1], steps[n - 1], job.ticket, job.conn) {
      JobsWereSubmitted(states, steps, n - 1, a);
    }
  }

  lemma JobIsOlder(states: seq<State>, steps: seq<Step>, n: nat, a: Addr)
    requires Run(states, steps) && n < |states| && a in states[n].heap
    ensures n > 0
    ensures var s, job := states[n - 1], states[n].heap[a];
      || SubmitsAt(s, steps[n - 1], job.ticket, job.conn)
      || (a in s.heap && s.heap[a].ticket == job.ticket && s.heap[a].conn == job.conn)
  {
    assert n > 0;
    assert states[n - 1 + 1] == Next(states[n - 1], steps[n - 1]);
    JobsStay(states[n - 1], steps[n - 1], a);
  }

  /** The step with which the worker of ticket `t` returned this reply. */
  ghost predicate WorkerReturned(states: seq<State>, steps: seq<Step>, i: nat, t: Ticket, r: Reply)
    requires i < |steps| < |states|
  {
    && steps[i] == WorkerCallback(r) && states[i].worker.InCallback?
    && states[i].worker.job in states[i].heap && states[i].heap[states[i].worker.job].ticket == t
  }

  /** Whenever a completion runs: its reply is what the worker callback of this very job returned, and
      its connection is the one with which the job was submitted. */
  lemma CompletionsComeFromWorkers(states: seq<State>, steps: seq<Step>, j: nat) returns (i: nat)
    requires Run(states, steps)
    requires j < |states[|steps|].log| && states[|steps|].log[j].CompletionRan?
    ensures var e := states[|steps|].log[j];
      && i < |steps| && |states[i].log| < j && WorkerReturned(states, steps, i, e.ticket, e.reply)
      && Submitted(states, steps, |steps|, e.ticket, e.conn)
  {
    var log := states[|steps|].log;
    CompletionsAreRight(states, steps, j);
    var k :| 0 <= k < j && log[k] == Returned(log[j].ticket, log[j].reply);
    i := EventsHaveSteps(states, steps, |steps|, k);
    var m := EventsHaveSteps(states, steps, |steps|, j);
    JobsWereSubmitted(states, steps, m, states[m].loop.job);
  }

  // ---------- what each locked region decides ----------

  /** Submit accepts exactly if the engine is not stopping and no listed job has the connection, and
      then its job stands first in the list; otherwise the loop thread is left with it. */
  lemma SubmitDecides(s: State)
    requires Inv(s) && Enabled(s, SubmitLocked)
    ensures var a, s' := s.loop.job, Next(s, SubmitLocked);
      && (s'.loop == Idle <==> !s.stopping && Unlisted(s, s.heap[a].conn))
      && (s'.loop == Idle ==> s'.jobs == [a] + s.jobs)
      && (s'.loop != Idle ==> s' == s.(loop := LoopDisposing(a)))
  {
    NoOneFound(s, s.heap[s.loop.job].conn);
  }

  /** A worker that is not told to stop takes a queued job if there is one, and no job that stands
      before it in the list is queued. */
  lemma TakeDecides(s: State)
    requires Inv(s) && Enabled(s, WorkerLock) && !s.stopping
    ensures var s' := Next(s, WorkerLock);
      && (s'.worker == AtLock <==> forall b :: b in s.jobs ==> s.heap[b].state != Queued)
      && (s'.worker == AtLock ==> s' == s)
      && (s'.worker != AtLock ==> exists i :: 0 <= i < |s.jobs| && Takes(s, s', i))
  {
    FirstQueuedFinds(s.heap, s.jobs);
    FirstQueuedIsFirst(s.heap, s.jobs);
    var a := FirstQueued(s.heap, s.jobs);
    if a != 0 {
      assert ListedJob(a, s.heap[a], s.worker, s.live);
      var i :| 0 <= i < |s.jobs| && s.jobs[i] == a && forall j :: 0 <= j < i ==> s.heap[s.jobs[j]].state != Queued;
      assert Takes(s, Next(s, WorkerLock), i);
    }
  }

  ghost predicate Takes(s: State, s': State, i: nat)
    requires ListClosed(s) && i < |s.jobs|
  {
    var a := s.jobs[i];
    && s.heap[a].state == Queued && (forall j :: 0 <= j < i ==> s.heap[s.jobs[j]].state != Queued)
    && s' == s.(heap := s.heap[a := s.heap[a].(state := Running)], worker := InCallback(a))
  }

  lemma {:induction false} FirstQueuedIsFirst(heap: map<Addr, Job>, jobs: seq<Addr>)
    requires 0 !in jobs && forall a :: a in jobs ==> a in heap
    ensures var a := FirstQueued(heap, jobs);
      a != 0 ==> exists i :: 0 <= i < |jobs| && jobs[i] == a && forall j :: 0 <= j < i ==> heap[jobs[j]].state != Queued
  {
    if jobs != [] && heap[jobs[0]].state != Queued && FirstQueued(heap, jobs) != 0 {
      FirstQueuedIsFirst(heap, jobs[1..]);
      var a := FirstQueued(heap, jobs);
      var i :| 0 <= i < |jobs[1..]| && jobs[1..][i] == a && forall j :: 0 <= j < i ==> heap[jobs[1..][j]].state != Queued;
      assert jobs[i + 1] == a;
      assert forall j :: 0 < j < i + 1 ==> jobs[j] == jobs[1..][j - 1];
    }
  }

  /** A wakeup hands a job over exactly if its token names a listed completed job of its connection
      that was not cancelled; in any case the token is used up. */
  lemma DeliverDecides(s: State, token: Token)
    requires Inv(s) && Enabled(s, Deliver(token)) && token.job != 0
    ensures var s', a := Next(s, Deliver(token)), token.job;
      && s'.pipe == s.pipe - multiset{token}
      && (s'.loop == Completing(a, token.conn) <==>
            s.initialized && a in s.jobs && s.heap[a].conn == token.conn && s.heap[a].state == Completed && !s.heap[a].canceled)
      && (s'.loop == Completing(a, token.conn) ==> forall b :: b in s'.jobs <==> b in s.jobs && b != a)
      && (s'.loop != Completing(a, token.conn) ==> s' == s.(pipe := s'.pipe))
  {
    FindFinds(s.heap, s.jobs, token.job, 0);
    WithoutMembers(s.jobs, token.job);
  }

  /** A cancel marks the listed job of the connection if it is running, and otherwise unlinks it and
      keeps it for disposal; without such a job it does nothing. */
  lemma CancelDecides(s: State, c: ConnId)
    requires Inv(s) && Enabled(s, Cancel(c))
    ensures var s' := Next(s, Cancel(c));
      && (Unlisted(s, c) ==> s' == s.(cut := s.cut + {c}))
      && forall a :: a in s.jobs && s.heap[a].conn == c ==>
        s'.heap == s.heap[a := s.heap[a].(canceled := true)]
        && if s.heap[a].state == Running then s'.jobs == s.jobs && s'.loop == Idle
           else s'.loop == LoopDisposing(a) && forall b :: b in s'.jobs <==> b in s.jobs && b != a
  {
    FindFinds(s.heap, s.jobs, 0, c);
    NoOneFound(s, c);
    WithoutMembers(s.jobs, Find(s.heap, s.jobs, 0, c));
  }

  /** A result is published if and only if nobody has cancelled the job or asked to stop, and the
      wakeup works: then the job is completed and its one token is sent.  Otherwise the worker takes
      the job off the list. */
  lemma FinishDecides(s: State, woken: bool)
    requires Inv(s) && Enabled(s, WorkerFinish(woken))
    ensures var s', a := Next(s, WorkerFinish(woken)), s.worker.job;
      if woken && !s.stopping && !s.heap[a].canceled
      then s' == s.(heap := s.heap[a := s.heap[a].(state := Completed)], worker := AtLock,
                    pipe := s.pipe + multiset{Token(s.heap[a].conn, a)})
      else s'.pipe == s.pipe && s'.log == s.log && s'.worker == WorkerDisposing(a)
           && forall b :: b in s'.jobs <==> b in s.jobs && b != a
  {
    WithoutMembers(s.jobs, s.worker.job);
  }

  // ---------- a job that is submitted is served ----------

  ghost predicate Moves(s: State, step: Step, s': State) {
    Enabled(s, step) && s' == Next(s, step)
  }

  ghost predicate Path(states: seq<State>, steps: seq<Step>) {
    |states| == |steps| + 1 && forall i :: 0 <= i < |steps| ==> Moves(states[i], steps[i], states[i + 1])
  }

  /** Whatever else is listed: if both threads are free and the connection has no job, then a submit
      and the turns of the worker and the loop after it run the completion on that connection, with
      the worker's reply, free the job, and leave everything else as it was. */
  lemma SubmitIsServed(s: State, c: ConnId, a: Addr, reply: Reply) returns (states: seq<State>, steps: seq<Step>)
    requires Inv(s) && s.initialized && s.loop == Idle && s.worker == AtLock
    requires c in s.live && Unlisted(s, c) && a != 0 && a !in s.heap
    ensures steps == [SubmitAlloc(c, a), SubmitLocked, WorkerLock, WorkerCallback(reply), WorkerFinish(true),
                      Deliver(Token(c, a)), RunCompletion, LoopDispose]
    ensures Path(states, steps) && states[0] == s
    ensures var t := s.nextTicket;
      states[8] == s.(nextTicket := t + 1,
                      log := s.log + [Accepted(t, c), Returned(t, reply), CompletionRan(t, c, reply), Disposed(t)])
  {
    assert a !in Listed(s.jobs);
    var s1, s2 := ServedSubmit(s, c, a);
    var s3, s4, s5 := ServedWork(s, s2, c, a, reply);
    var s6, s7, s8 := ServedDelivery(s, s5, c, a, reply);
    states := [s, s1, s2, s3, s4, s5, s6, s7, s8];
    steps := [SubmitAlloc(c, a), SubmitLocked, WorkerLock, WorkerCallback(reply), WorkerFinish(true),
              Deliver(Token(c, a)), RunCompletion, LoopDispose];
    EventsInOrder(s.log, Accepted(s.nextTicket, c), Returned(s.nextTicket, reply), CompletionRan(s.nextTicket, c, reply),
                  Disposed(s.nextTicket));
  }

  lemma EventsInOrder(log: seq<Event>, e1: Event, e2: Event, e3: Event, e4: Event)
    ensures log + [e1] + [e2] + [e3] + [e4] == log + [e1, e2, e3, e4]
  {
  }

  /** The state `s` but for the job at `a`, and for `log`. */
  function With(s: State, a: Addr, job: Job, log: seq<Event>): State {
    s.(heap := s.heap[a := job], jobs := [a] + s.jobs, nextTicket := job.ticket + 1, log := log)
  }

  lemma ServedSubmit(s: State, c: ConnId, a: Addr) returns (s1: State, s2: State)
    requires ListClosed(s) && s.initialized && !s.stopping && s.loop == Idle && 0 !in s.jobs
    requires c in s.live && Unlisted(s, c) && a != 0 && a !in s.heap && a !in s.jobs
    ensures Moves(s, SubmitAlloc(c, a), s1) && Moves(s1, SubmitLocked, s2)
    ensures s2 == With(s, a, Job(s.nextTicket, c, Queued, false, Reply(0, "")), s.log + [Accepted(s.nextTicket, c)])
  {
    s1 := Next(s, SubmitAlloc(c, a));
    FindFinds(s1.heap, s1.jobs, 0, c);
    s2 := Next(s1, SubmitLocked);
  }

  lemma ServedWork(s: State, s2: State, c: ConnId, a: Addr, reply: Reply) returns (s3: State, s4: State, s5: State)
    requires ListClosed(s) && !s.stopping && s.loop == Idle && s.worker == AtLock && a != 0 && a !in s.heap
    requires s2 == With(s, a, Job(s.nextTicket, c, Queued, false, Reply(0, "")), s.log + [Accepted(s.nextTicket, c)])
    ensures Moves(s2, WorkerLock, s3) && Moves(s3, WorkerCallback(reply), s4) && Moves(s4, WorkerFinish(true), s5)
    ensures s5 == With(s.(pipe := s.pipe + multiset{Token(c, a)}), a, Job(s.nextTicket, c, Completed, false, reply),
                       s.log + [Accepted(s.nextTicket, c)] + [Returned(s.nextTicket, reply)])
  {
    s3 := Next(s2, WorkerLock);
    s4 := Next(s3, WorkerCallback(reply));
    s5 := Next(s4, WorkerFinish(true));
  }

  lemma ServedDelivery(s: State, s5: State, c: ConnId, a: Addr, reply: Reply) returns (s6: State, s7: State, s8: State)
    requires ListClosed(s) && s.initialized && s.loop == Idle && c in s.live && a != 0 && a !in s.heap
    requires s5 == With(s.(pipe := s.pipe + multiset{Token(c, a)}), a, Job(s.nextTicket, c, Completed, false, reply),
                        s.log + [Accepted(s.nextTicket, c)] + [Returned(s.nextTicket, reply)])
    ensures Moves(s5, Deliver(Token(c, a)), s6) && Moves(s6, RunCompletion, s7) && Moves(s7, LoopDispose, s8)
    ensures s8 == s.(nextTicket := s.nextTicket + 1, log := s.log + [Accepted(s.nextTicket, c)] + [Returned(s.nextTicket, reply)]
                     + [CompletionRan(s.nextTicket, c, reply)] + [Disposed(s.nextTicket)])
  {
    s6 := Next(s5, Deliver(Token(c, a)));
    assert s6.pipe == s.pipe && s6.jobs == s.jobs;
    s7 := Next(s6, RunCompletion);
    s8 := Next(s7, LoopDispose);
    assert s8.heap == s.heap;
  }

  // ---------- a job that is cancelled is not ----------

  /** The jobs of `c` with tickets below `bound` will not complete: a listed one is marked, and the
      loop thread is not about to link or complete one. */
  ghost predicate Silenced(s: State, c: ConnId, bound: Ticket) {
    forall a :: a in s.heap && s.heap[a].conn == c && s.heap[a].ticket < bound ==>
      && (a in s.jobs ==> s.heap[a].canceled)
      && s.loop != Submitting(a) && !(s.loop.Completing? && s.loop.job == a)
  }

  lemma CancelSilences(s: State, c: ConnId)
    requires Inv(s) && Enabled(s, Cancel(c))
    ensures Silenced(NextCancel(s, c), c, s.nextTicket)
  {
    var a := Find(s.heap, s.jobs, 0, c);
    FindFinds(s.heap, s.jobs, 0, c);
    WithoutMembers(s.jobs, a);
    if s.initialized && a != 0 {
      FoundIsSilenced(s, c, a);
    }
  }

  lemma FoundIsSilenced(s: State, c: ConnId, a: Addr)
    requires ListShape(s.heap, s.jobs, s.worker, s.live) && s.loop == Idle && a in s.jobs && s.heap[a].conn == c
    requires forall b :: b in Without(s.jobs, a) ==> b in s.jobs && b != a
    ensures Silenced(CancelFound(s, a), c, s.nextTicket)
  {
  }

  /** A job keeps its ticket, its connection and its mark. */
  lemma MarksStay(s: State, step: Step, a: Addr, bound: Ticket)
    requires Enabled(s, step) && bound <= s.nextTicket && a in Next(s, step).heap && Next(s, step).heap[a].ticket < bound
    ensures var job := Next(s, step).heap[a];
      a in s.heap && s.heap[a].ticket == job.ticket && s.heap[a].conn == job.conn && (s.heap[a].canceled ==> job.canceled)
  {
    JobsStay(s, step, a);
    match step {
      case WorkerLock => DisposeFromShrinks(s, s.jobs, false);
      case ShutdownFinish => DisposeFromShrinks(s, s.jobs, true);
      case _ =>
    }
  }

  lemma {:induction false} WithoutShrinks(jobs: seq<Addr>, needle: Addr)
    ensures forall b :: b in Without(jobs, needle) ==> b in jobs
  {
    if jobs != [] && jobs[0] != needle {
      WithoutShrinks(jobs[1..], needle);
    }
  }

  lemma {:induction false} DisposeFromKeepsRest(s: State, jobs: seq<Addr>, everything: bool)
    ensures var s' := DisposeFrom(s, jobs, everything); s'.loop == s.loop && forall b :: b in s'.jobs ==> b in s.jobs
    decreases |jobs|
  {
    if jobs != [] {
      WithoutShrinks(s.jobs, jobs[0]);
      DisposeFromKeepsRest(DisposeListed(s, jobs[0], everything), jobs[1..], everything);
    }
  }

  /** Only submit links a job, and that is the one it was given. */
  lemma ListShrinks(s: State, step: Step, a: Addr)
    requires Enabled(s, step) && a in Next(s, step).jobs
    ensures a in s.jobs || (step.SubmitLocked? && s.loop == Submitting(a))
  {
    match step {
      case WorkerLock =>
        DisposeFromKeepsRest(s, s.jobs, false);
        WithoutShrinks(s.jobs, FirstQueued(s.heap, s.jobs));
      case ShutdownFinish => DisposeFromKeepsRest(s, s.jobs, true);
      case WorkerFinish(_) => WithoutShrinks(s.jobs, s.worker.job);
      case Deliver(token) => WithoutShrinks(s.jobs, Find(s.heap, s.jobs, token.job, 0));
      case Cancel(c) => WithoutShrinks(s.jobs, Find(s.heap, s.jobs, 0, c));
      case Close(c) => WithoutShrinks(s.jobs, Find(s.heap, s.jobs, 0, c));
      case _ =>
    }
  }

  /** The loop thread takes up a job only when it allocates it or when its wakeup arrives. */
  lemma LoopTakes(s: State, step: Step, a: Addr)
    requires Inv(s) && Enabled(s, step)
    requires Next(s, step).loop == Submitting(a) || TakenUp(Next(s, step).loop, a)
    ensures s.loop == Next(s, step).loop || (step.SubmitAlloc? && step.job == a)
      || (step.Deliver? && a in s.jobs && !s.heap[a].canceled)
  {
    match step {
      case WorkerLock => DisposeFromKeepsRest(s, s.jobs, false);
      case Deliver(token) => DeliverTakesUp(s, token, a);
      case _ =>
    }
  }

  lemma DeliverTakesUp(s: State, token: Token, a: Addr)
    requires Inv(s) && Enabled(s, Deliver(token)) && TakenUp(NextDeliver(s, token).loop, a)
    ensures a in s.jobs && !s.heap[a].canceled
  {
    FindFinds(s.heap, s.jobs, token.job, 0);
  }

  predicate TakenUp(loop: LoopPc, a: Addr) {
    loop.Completing? && loop.job == a
  }

  lemma SilenceLasts(s: State, step: Step, c: ConnId, bound: Ticket)
    requires Inv(s) && Enabled(s, step) && Silenced(s, c, bound) && bound <= s.nextTicket
    ensures Silenced(Next(s, step), c, bound)
  {
    var s' := Next(s, step);
    forall a | a in s'.heap && s'.heap[a].conn == c && s'.heap[a].ticket < bound
      ensures (a in s'.jobs ==> s'.heap[a].canceled) && s'.loop != Submitting(a) && !TakenUp(s'.loop, a)
    {
      MarksStay(s, step, a, bound);
      SilenceHolds(s, step, a);
    }
  }

  lemma SilenceHolds(s: State, step: Step, a: Addr)
    requires Inv(s) && Enabled(s, step) && a in s.heap && a in Next(s, step).heap
    requires (s.heap[a].canceled ==> Next(s, step).heap[a].canceled)
    requires (a in s.jobs ==> s.heap[a].canceled) && s.loop != Submitting(a) && !TakenUp(s.loop, a)
    ensures var s' := Next(s, step);
      (a in s'.jobs ==> s'.heap[a].canceled) && s'.loop != Submitting(a) && !TakenUp(s'.loop, a)
  {
    var s' := Next(s, step);
    if a in s'.jobs {
      ListShrinks(s, step, a);
    }
    if s'.loop == Submitting(a) || TakenUp(s'.loop, a) {
      LoopTakes(s, step, a);
    }
  }

  lemma StaysSilenced(states: seq<State>, steps: seq<Step>, i: nat, n: nat, c: ConnId)
    requires Run(states, steps) && i < n < |states| && (steps[i] == Cancel(c) || steps[i] == Close(c))
    ensures Silenced(states[n], c, states[i].nextTicket) && states[i].nextTicket <= states[n].nextTicket
  {
    var bound := states[i].nextTicket;
    var quiet := s => Silenced(s, c, bound) && bound <= s.nextTicket;
    RunMoves(states, steps, i);
    CancelBegins(states[i], steps[i], states[i + 1], c);
    forall k | i < k < n && quiet(states[k]) ensures quiet(states[k + 1]) {
      RunMoves(states, steps, k);
      SilenceGoesOn(states[k], steps[k], states[k + 1], c, bound);
    }
    Lasts(states, i + 1, n, quiet);
  }

  lemma {:induction false} Lasts(states: seq<State>, from: nat, to: nat, p: State -> bool)
    requires from <= to < |states|
    requires p(states[from]) && forall k :: from <= k < to && p(states[k]) ==> p(states[k + 1])
    ensures p(states[to])
  {
    if from < to {
      Lasts(states, from, to - 1, p);
    }
  }

  lemma RunMoves(states: seq<State>, steps: seq<Step>, i: nat)
    requires Run(states, steps) && i < |steps|
    ensures Inv(states[i]) && Moves(states[i], steps[i], states[i + 1])
  {
    RunKeeps(states, steps, i);
  }

  lemma CancelBegins(s: State, step: Step, s': State, c: ConnId)
    requires Inv(s) && Moves(s, step, s') && (step == Cancel(c) || step == Close(c))
    ensures Silenced(s', c, s.nextTicket) && s.nextTicket <= s'.nextTicket
  {
    CancelSilences(s, c);
    TicketsGrow(s, step);
  }

  lemma SilenceGoesOn(s: State, step: Step, s': State, c: ConnId, bound: Ticket)
    requires Inv(s) && Moves(s, step, s') && Silenced(s, c, bound) && bound <= s.nextTicket
    ensures Silenced(s', c, bound) && bound <= s'.nextTicket
  {
    SilenceLasts(s, step, c, bound);
    TicketsGrow(s, step);
  }

  lemma {:induction false} DisposeFromCounts(s: State, jobs: seq<Addr>, everything: bool)
    ensures DisposeFrom(s, jobs, everything).nextTicket == s.nextTicket
    decreases |jobs|
  {
    if jobs != [] {
      DisposeFromCounts(DisposeListed(s, jobs[0], everything), jobs[1..], everything);
    }
  }

  lemma TicketsGrow(s: State, step: Step)
    requires Enabled(s, step)
    ensures s.nextTicket <= Next(s, step).nextTicket
  {
    match step {
      case WorkerLock => DisposeFromCounts(s, s.jobs, false);
      case ShutdownFinish => DisposeFromCounts(s, s.jobs, true);
      case _ =>
    }
  }

  /** Once goform_async_cancel was called for a connection, or the connection closed, no completion
      runs on it for a job that was submitted before. */
  lemma CancelledIsNeverCompleted(states: seq<State>, steps: seq<Step>, i: nat, k: nat)
    requires Run(states, steps) && i < |steps|
    requires |states[i].log| <= k < |states[|steps|].log| && states[|steps|].log[k].CompletionRan?
    requires var c := states[|steps|].log[k].conn; steps[i] == Cancel(c) || steps[i] == Close(c)
    ensures states[|steps|].log[k].ticket >= states[i].nextTicket
  {
    var e := states[|steps|].log[k];
    var m := EventsHaveSteps(states, steps, |steps|, k);
    if m <= i {
      LogGrows(states, steps, m + 1, i);
    } else {
      StaysSilenced(states, steps, i, m, e.conn);
    }
  }

  lemma LogGrows(states: seq<State>, steps: seq<Step>, m: nat, i: nat)
    requires Run(states, steps) && i <= |steps|
    ensures m <= i ==> |states[m].log| <= |states[i].log|
  {
    if m <= i {
      var size := |states[m].log|;
      var grown := (s: State) => size <= |s.log|;
      forall k | m <= k < i && grown(states[k]) ensures grown(states[k + 1]) {
        StepAt(states, steps, k);
      }
      Lasts(states, m, i, grown);
    }
  }
}

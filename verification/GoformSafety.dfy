/** Every step of the job engine keeps its invariant.

    First come the list operations; then what a step about one job does to the lives of all
    tickets, to the list and its owners, to the tokens in the pipe and to the closed connections;
    and then one lemma a step.  Disposing several jobs at once, which the worker's last act and
    shutdown do, is an induction on the list. */
module GoformSafety {
  import opened GoformJobs

  // ---------- list operations ----------

  /** Unlinking removes exactly the one node. */
  lemma {:induction false} WithoutMembers(jobs: seq<Addr>, needle: Addr)
    requires Distinct(jobs)
    ensures forall a :: a in Without(jobs, needle) <==> a in jobs && a != needle
    ensures Listed(Without(jobs, needle)) == Listed(jobs) - {needle}
    ensures Distinct(Without(jobs, needle))
  {
    if jobs != [] && jobs[0] != needle {
      WithoutMembers(jobs[1..], needle);
      var r := Without(jobs[1..], needle);
      assert jobs[0] !in jobs[1..];
      assert forall i :: 0 <= i < |r| ==> r[i] in r;
      assert jobs == [jobs[0]] + jobs[1..];
    } else if jobs != [] {
      assert jobs == [jobs[0]] + jobs[1..];
    }
  }

  /** A search returns a listed job that matches, or null when none does. */
  lemma {:induction false} FindFinds(heap: map<Addr, Job>, jobs: seq<Addr>, needle: Addr, conn: ConnId)
    requires 0 !in jobs && forall a :: a in jobs ==> a in heap
    ensures var r := Find(heap, jobs, needle, conn);
      if r != 0 then r in jobs && (if needle != 0 then r == needle else heap[r].conn == conn)
      else if needle != 0 then needle !in jobs
      else forall a :: a in jobs ==> heap[a].conn != conn
  {
    if jobs != [] {
      FindFinds(heap, jobs[1..], needle, conn);
    }
  }

  lemma {:induction false} FirstQueuedFinds(heap: map<Addr, Job>, jobs: seq<Addr>)
    requires 0 !in jobs && forall a :: a in jobs ==> a in heap
    ensures var r := FirstQueued(heap, jobs);
      if r != 0 then r in jobs && heap[r].state == Queued
      else forall a :: a in jobs ==> heap[a].state != Queued
  {
    if jobs != [] {
      FirstQueuedFinds(heap, jobs[1..]);
    }
  }

  // ---------- steps about one job ----------

  predicate LoopOn(loop: LoopPc, a: Addr) {
    loop == Idle || loop == Joining || loop.job == a
  }

  predicate WorkerOn(worker: WorkerPc, a: Addr) {
    worker == NoThread || worker == AtLock || worker == Exited || worker.job == a
  }

  /** Neither thread moves from or to another job. */
  predicate OthersStand(worker: WorkerPc, worker': WorkerPc, loop: LoopPc, loop': LoopPc, a: Addr) {
    && (loop' == loop || (LoopOn(loop, a) && LoopOn(loop', a)))
    && (worker' == worker || (WorkerOn(worker, a) && WorkerOn(worker', a)))
  }

  /** A step of one thread that touches no job but the allocated job `a`. */
  ghost predicate OneJob(s: State, s': State, a: Addr) {
    && a in s.heap && a in s'.heap
    && s'.heap == s.heap[a := s'.heap[a]] && s'.heap[a].ticket == s.heap[a].ticket && s'.nextTicket == s.nextTicket
    && OthersStand(s.worker, s'.worker, s.loop, s'.loop, a)
  }

  ghost predicate Lives(s: State) {
    && LiveLives(s.heap, s.worker, s.loop, s.log)
    && OtherLives(s.heap, s.nextTicket, s.log)
    && TicketsUnique(s.heap, s.nextTicket)
  }

  lemma SameAllocated(s: State, s': State)
    requires s'.heap.Keys == s.heap.Keys
    requires forall a :: a in s.heap ==> s'.heap[a].ticket == s.heap[a].ticket
    ensures forall t :: Allocated(s'.heap, t) <==> Allocated(s.heap, t)
  {
    forall t | Allocated(s.heap, t) ensures Allocated(s'.heap, t) {
      var a :| a in s.heap && s.heap[a].ticket == t;
      assert a in s'.heap;
    }
    forall t | Allocated(s'.heap, t) ensures Allocated(s.heap, t) {
      var a :| a in s'.heap && s'.heap[a].ticket == t;
      assert a in s.heap;
    }
  }

  lemma OtherPhases(worker: WorkerPc, worker': WorkerPc, loop: LoopPc, loop': LoopPc, a: Addr)
    requires OthersStand(worker, worker', loop, loop', a)
    ensures forall b, job :: b != a ==> PhaseOf(b, job, worker', loop') == PhaseOf(b, job, worker, loop)
  {
  }

  /** The step appends one event about `a`. */
  lemma LivesFollow(s: State, s': State, a: Addr, e: Event)
    requires Lives(s) && OneJob(s, s', a)
    requires s'.log == s.log + [e] && About(e, s.heap[a].ticket)
    requires Leads(PhaseOf(a, s'.heap[a], s'.worker, s'.loop), Advance(LifeOf(s.log, s.heap[a].ticket), e))
    ensures Lives(s')
  {
    forall t { LifeAppend(s.log, e, t); }
    SameAllocated(s, s');
    OtherPhases(s.worker, s'.worker, s.loop, s'.loop, a);
  }

  /** The step appends nothing, and `a` stays where it was or is about to be disposed. */
  lemma LivesStay(s: State, s': State, a: Addr)
    requires Lives(s) && OneJob(s, s', a) && s'.log == s.log
    requires var p, p' := PhaseOf(a, s.heap[a], s.worker, s.loop), PhaseOf(a, s'.heap[a], s'.worker, s'.loop);
      p' == p || (p' == Ending && p != Exactly(Gone) && p != Exactly(Broken))
    ensures Lives(s')
  {
    SameAllocated(s, s');
    OtherPhases(s.worker, s'.worker, s.loop, s'.loop, a);
  }

  lemma LivesClose(s: State, c: ConnId)
    requires Lives(s)
    ensures Lives(s.(log := s.log + [Closed(c)]))
  {
    forall t { LifeAppend(s.log, Closed(c), t); }
  }

  /** A ticket whose job is still there is still allocated. */
  lemma AllocatedStays(s: State, s': State, t: Ticket)
    ensures Allocated(s.heap, t) && (forall a :: a in s.heap && s.heap[a].ticket == t ==> a in s'.heap && s'.heap[a] == s.heap[a])
      ==> Allocated(s'.heap, t)
  {
    if a :| a in s.heap && s.heap[a].ticket == t && a in s'.heap && s'.heap[a] == s.heap[a] {
      assert Allocated(s'.heap, t);
    }
  }

  lemma LifeEnds(log: seq<Event>, ended: Ticket)
    requires LifeOf(log, ended) != Gone && LifeOf(log, ended) != Broken
    ensures forall t :: LifeOf(log + [Disposed(ended)], t) == if t == ended then Gone else LifeOf(log, t)
  {
    forall t { LifeAppend(log, Disposed(ended), t); }
  }

  /** Disposing `a` ends its life. */
  lemma LivesFree(s: State, s': State, a: Addr)
    requires Lives(s) && a in s.heap
    requires s'.heap == s.heap - {a} && s'.nextTicket == s.nextTicket
    requires s'.log == s.log + [Disposed(s.heap[a].ticket)]
    requires OthersStand(s.worker, s'.worker, s.loop, s'.loop, a)
    ensures Lives(s')
  {
    LifeEnds(s.log, s.heap[a].ticket);
    OtherPhases(s.worker, s'.worker, s.loop, s'.loop, a);
    FreedAreGone(s, s', a);
  }

  lemma FreedAreGone(s: State, s': State, a: Addr)
    requires OtherLives(s.heap, s.nextTicket, s.log) && a in s.heap && s'.heap == s.heap - {a} && s'.nextTicket == s.nextTicket
    requires s.heap[a].ticket < s.nextTicket
    requires forall t :: LifeOf(s'.log, t) == if t == s.heap[a].ticket then Gone else LifeOf(s.log, t)
    ensures OtherLives(s'.heap, s'.nextTicket, s'.log)
  {
    forall t: Ticket | !Allocated(s'.heap, t)
      ensures LifeOf(s'.log, t) == if t < s'.nextTicket then Gone else Unseen
    {
      AllocatedStays(s, s', t);
    }
  }

  // ---------- the list ----------

  /** Linking the job the loop thread has just submitted. */
  lemma ShapeGrows(s: State, s': State, a: Addr)
    requires Ownership(s.heap, s.jobs, s.worker, s.loop) && ListShape(s.heap, s.jobs, s.worker, s.live)
    requires s.loop == Submitting(a) && s'.loop == Idle && a in s.heap
    requires s'.heap == s.heap && s'.worker == s.worker && s'.live == s.live && s'.jobs == [a] + s.jobs
    requires s.heap[a].state == Queued && !s.heap[a].canceled && s.heap[a].conn in s.live
    requires forall b :: b in s.jobs ==> s.heap[b].conn != s.heap[a].conn
    ensures Ownership(s'.heap, s'.jobs, s'.worker, s'.loop) && ListShape(s'.heap, s'.jobs, s'.worker, s'.live)
  {
    assert a in LoopHolds(s.loop);
    assert a !in Listed(s.jobs);
    assert forall b :: b in [a] + s.jobs <==> b == a || b in s.jobs;
    assert Listed(s'.jobs) == Listed(s.jobs) + {a};
  }

  /** Unlinking `a`, which one of the threads then holds. */
  lemma ShapeShrinks(s: State, s': State, a: Addr)
    requires Ownership(s.heap, s.jobs, s.worker, s.loop) && ListShape(s.heap, s.jobs, s.worker, s.live)
    requires OneJob(s, s', a) && a in s.jobs && s'.jobs == Without(s.jobs, a)
    requires
      || (LoopHolds(s.loop) == {} && LoopHolds(s'.loop) == {a} && s'.worker == s.worker && !Busy(s.worker, a))
      || (WorkerHolds(s.worker) == {} && s'.worker == WorkerDisposing(a) && s'.loop == s.loop)
    requires s'.live == s.live || s'.live == s.live - {s.heap[a].conn}
    ensures Ownership(s'.heap, s'.jobs, s'.worker, s'.loop)
    ensures ListShape(s'.heap, s'.jobs, s'.worker, s'.live)
  {
    UnlinkedIsOwned(s, s', a);
    WithoutMembers(s.jobs, a);
    forall b | b in s'.jobs ensures ListedJob(b, s'.heap[b], s'.worker, s'.live) {
      assert ListedJob(b, s.heap[b], s.worker, s.live);
    }
  }

  lemma UnlinkedIsOwned(s: State, s': State, a: Addr)
    requires Ownership(s.heap, s.jobs, s.worker, s.loop) && OneJob(s, s', a) && a in s.jobs && s'.jobs == Without(s.jobs, a)
    requires
      || (LoopHolds(s.loop) == {} && LoopHolds(s'.loop) == {a} && s'.worker == s.worker)
      || (WorkerHolds(s.worker) == {} && s'.worker == WorkerDisposing(a) && s'.loop == s.loop)
    ensures Ownership(s'.heap, s'.jobs, s'.worker, s'.loop)
  {
    WithoutMembers(s.jobs, a);
    assert s'.heap.Keys == s.heap.Keys;
    assert a in Listed(s.jobs);
  }

  /** Changing the listed job `a` in place. */
  lemma ShapeStays(s: State, s': State, a: Addr)
    requires Ownership(s.heap, s.jobs, s.worker, s.loop) && ListShape(s.heap, s.jobs, s.worker, s.live)
    requires OneJob(s, s', a) && a in s.jobs && s'.jobs == s.jobs
    requires LoopHolds(s'.loop) == LoopHolds(s.loop) && WorkerHolds(s'.worker) == WorkerHolds(s.worker)
    requires s'.heap[a].conn == s.heap[a].conn && ListedJob(a, s'.heap[a], s'.worker, s'.live)
    requires s'.live == s.live || s'.live == s.live - {s.heap[a].conn}
    ensures Ownership(s'.heap, s'.jobs, s'.worker, s'.loop)
    ensures ListShape(s'.heap, s'.jobs, s'.worker, s'.live)
  {
    assert s'.heap.Keys == s.heap.Keys;
  }

  // ---------- tokens and closings ----------

  /** No token is added, and the token that names `a`, if any, is used up or no longer matters. */
  lemma TokensStay(s: State, s': State, a: Addr)
    requires Tokens(s.pipe, s.heap, s.jobs, s.live - s.cut) && Distinct(s.jobs)
    requires OneJob(s, s', a) && (s'.jobs == s.jobs || s'.jobs == Without(s.jobs, a) || s'.jobs == [a] + s.jobs)
    requires s'.pipe <= s.pipe && s'.live - s'.cut <= s.live - s.cut
    requires
      || s.heap[a].state != Completed
      || s.heap[a].conn !in s'.live - s'.cut
      || Token(s.heap[a].conn, a) !in s'.pipe
    ensures Tokens(s'.pipe, s'.heap, s'.jobs, s'.live - s'.cut)
  {
    WithoutMembers(s.jobs, a);
    forall token | token in s'.pipe && token.conn in s'.live - s'.cut
      ensures s'.pipe[token] == 1 && Names(token, s'.heap, s'.jobs)
    {
      assert token in s.pipe && Names(token, s.heap, s.jobs);
    }
  }

  lemma ClosingsGrow(log: seq<Event>, e: Event, known: set<ConnId>, live: set<ConnId>)
    requires Closings(log, known, live)
    requires !e.Closed? && (e.CompletionRan? ==> e.conn in live)
    ensures Closings(log + [e], known, live)
  {
    var log' := log + [e];
    forall i, j | 0 <= i < j < |log'| && log'[i].Closed? && log'[j].CompletionRan?
      ensures log'[i].conn != log'[j].conn
    {
      assert log[i] in log;
    }
  }

  lemma ClosingsClose(log: seq<Event>, c: ConnId, known: set<ConnId>, live: set<ConnId>)
    requires Closings(log, known, live) && c in known
    ensures Closings(log + [Closed(c)], known, live - {c})
  {
  }

  // ---------- one lemma a step ----------

  lemma InitKeeps(s: State)
    requires Inv(s) && Enabled(s, Init)
    ensures Inv(Next(s, Init))
  {
  }

  lemma OpenKeeps(s: State, c: ConnId)
    requires Inv(s) && Enabled(s, Open(c))
    ensures Inv(Next(s, Open(c)))
  {
  }

  lemma SubmitRefusedKeeps(s: State)
    requires Inv(s) && Enabled(s, SubmitRefused)
    ensures Inv(Next(s, SubmitRefused))
  {
    forall t { LifeAppend(s.log, Disposed(s.nextTicket), t); }
    assert !Allocated(s.heap, s.nextTicket);
  }

  /** A fresh address and a fresh ticket: nothing in the log is about it. */
  lemma AllocLives(s: State, s': State, a: Addr, job: Job)
    requires Lives(s) && s.loop == Idle && s'.loop == Submitting(a) && a !in s.heap && job.ticket == s.nextTicket
    requires s' == s.(heap := s.heap[a := job], nextTicket := s.nextTicket + 1, loop := Submitting(a))
    ensures Lives(s')
  {
    assert !Allocated(s.heap, s.nextTicket);
    forall b | b in s'.heap
      ensures Leads(PhaseOf(b, s'.heap[b], s'.worker, s'.loop), LifeOf(s'.log, s'.heap[b].ticket))
    {
      assert b == a || PhaseOf(b, s'.heap[b], s'.worker, s'.loop) == PhaseOf(b, s.heap[b], s.worker, s.loop);
    }
    forall t: Ticket | !Allocated(s'.heap, t)
      ensures LifeOf(s'.log, t) == if t < s'.nextTicket then Gone else Unseen
    {
      AllocatedStays(s, s', t);
      assert a in s'.heap;
    }
  }

  lemma SubmitAllocKeeps(s: State, c: ConnId, a: Addr)
    requires Inv(s) && Enabled(s, SubmitAlloc(c, a))
    ensures Inv(Next(s, SubmitAlloc(c, a)))
  {
    var s' := Next(s, SubmitAlloc(c, a));
    AllocLives(s, s', a, s'.heap[a]);
    assert s'.heap.Keys == s.heap.Keys + {a};
    assert a !in Listed(s.jobs);
    assert Ownership(s'.heap, s'.jobs, s'.worker, s'.loop);
    assert ListShape(s'.heap, s'.jobs, s'.worker, s'.live);
  }

  lemma SubmitLockedKeeps(s: State)
    requires Inv(s) && Enabled(s, SubmitLocked)
    ensures Inv(NextSubmit(s, s.loop.job))
  {
    var a := s.loop.job;
    assert a in LoopHolds(s.loop);
    FindFinds(s.heap, s.jobs, 0, s.heap[a].conn);
    if NextSubmit(s, a).loop == Idle {
      SubmitAccepts(s, a);
      if s.initialized {
        TokensStay(s, NextSubmit(s, a), a);
      }
    } else {
      SubmitRefuses(s, a);
    }
  }

  lemma SubmitRefuses(s: State, a: Addr)
    requires Inv(s) && s.loop == Submitting(a) && a in s.heap
    ensures Inv(s.(loop := LoopDisposing(a)))
  {
    LivesStay(s, s.(loop := LoopDisposing(a)), a);
  }

  lemma SubmitAccepts(s: State, a: Addr)
    requires Core(s) && s.loop == Submitting(a) && !s.stopping
    requires forall b :: b in s.jobs ==> s.heap[b].conn != s.heap[a].conn
    ensures Core(s.(jobs := [a] + s.jobs, loop := Idle, log := s.log + [Accepted(s.heap[a].ticket, s.heap[a].conn)]))
  {
    var e := Accepted(s.heap[a].ticket, s.heap[a].conn);
    var s' := s.(jobs := [a] + s.jobs, loop := Idle, log := s.log + [e]);
    ShapeGrows(s, s', a);
    LivesFollow(s, s', a, e);
    ClosingsGrow(s.log, e, s.known, s.live);
  }

  /** The locked region of goform_async_cancel, and then closing or just cutting `c`. */
  lemma CancelMarks(s: State, s': State, c: ConnId)
    requires Ownership(s.heap, s.jobs, s.worker, s.loop) && ListShape(s.heap, s.jobs, s.worker, s.live)
    requires s.loop == Idle && c in s.live && (!s.initialized ==> s.jobs == [])
    requires s' == NextCancel(s, c).(live := s'.live, cut := s'.cut)
    requires s'.live == s.live - {c} || s'.live == s.live
    ensures Ownership(s'.heap, s'.jobs, s'.worker, s'.loop)
    ensures ListShape(s'.heap, s'.jobs, s'.worker, s'.live)
  {
    var a := Find(s.heap, s.jobs, 0, c);
    FindFinds(s.heap, s.jobs, 0, c);
    if !s.initialized || a == 0 {
      assert forall b :: b in s.jobs ==> s.heap[b].conn != c && ListedJob(b, s.heap[b], s.worker, s.live);
    } else if s.heap[a].state == Running {
      ShapeStays(s, s', a);
    } else {
      ShapeShrinks(s, s', a);
    }
  }

  lemma CancelLives(s: State, c: ConnId)
    requires Lives(s) && s.loop == Idle && 0 !in s.heap && ListClosed(s)
    ensures Lives(NextCancel(s, c))
  {
    var s' := NextCancel(s, c);
    var a := Find(s.heap, s.jobs, 0, c);
    if s.initialized && a != 0 && a in s.heap {
      LivesStay(s, s', a);
    }
  }

  lemma CancelTokens(s: State, s': State, c: ConnId)
    requires Inv(s) && s.initialized && !s.stopping && s.loop == Idle && c in s.live && s'.live <= s.live
    requires s' == NextCancel(s, c).(live := s'.live, cut := s'.cut)
    requires s'.live - s'.cut == s.live - s.cut - {c}
    ensures Tokens(s'.pipe, s'.heap, s'.jobs, s'.live - s'.cut)
  {
    var a := Find(s.heap, s.jobs, 0, c);
    FindFinds(s.heap, s.jobs, 0, c);
    if a != 0 {
      TokensStay(s, s', a);
    }
  }

  lemma CancelKeeps(s: State, c: ConnId)
    requires Inv(s) && Enabled(s, Cancel(c))
    ensures Inv(NextCancel(s, c).(cut := s.cut + {c}))
  {
    var s' := NextCancel(s, c).(cut := s.cut + {c});
    CancelMarks(s, s', c);
    CancelLives(s, c);
    if s.initialized && !s.stopping {
      CancelTokens(s, s', c);
    }
  }

  lemma CloseKeeps(s: State, c: ConnId)
    requires Inv(s) && Enabled(s, Close(c))
    ensures Inv(NextCancel(s, c).(live := s.live - {c}, log := s.log + [Closed(c)]))
  {
    var s' := NextCancel(s, c).(live := s.live - {c});
    CancelMarks(s, s', c);
    CloseLives(s, c);
    ClosingsClose(s.log, c, s.known, s.live);
    CloseTokens(s, c);
  }

  lemma CloseLives(s: State, c: ConnId)
    requires Lives(s) && s.loop == Idle && 0 !in s.heap && ListClosed(s)
    ensures Lives(NextCancel(s, c).(live := s.live - {c}, log := s.log + [Closed(c)]))
  {
    CancelLives(s, c);
    LivesClose(NextCancel(s, c).(live := s.live - {c}), c);
  }

  lemma CloseTokens(s: State, c: ConnId)
    requires Inv(s) && s.loop == Idle && c in s.live
    ensures var s' := NextCancel(s, c);
      s.initialized && !s.stopping ==> Tokens(s'.pipe, s'.heap, s'.jobs, s.live - {c} - s'.cut)
  {
    if s.initialized && !s.stopping {
      CancelTokens(s, NextCancel(s, c).(live := s.live - {c}), c);
    }
  }

  lemma DeliverKeeps(s: State, token: Token)
    requires Inv(s) && Enabled(s, Deliver(token))
    ensures Inv(NextDeliver(s, token))
  {
    var s' := NextDeliver(s, token);
    FindFinds(s.heap, s.jobs, token.job, 0);
    if s'.loop != Idle {
      DeliverTakes(s, token);
    }
  }

  lemma DeliverTakes(s: State, token: Token)
    requires Inv(s) && Enabled(s, Deliver(token)) && token.job in s.jobs && NextDeliver(s, token).loop == Completing(token.job, token.conn)
    ensures Inv(NextDeliver(s, token))
  {
    var s', a := NextDeliver(s, token), token.job;
    FindFinds(s.heap, s.jobs, a, 0);
    DeliverIs(s, token);
    LivesStay(s, s', a);
    ShapeShrinks(s, s', a);
    TokensStay(s, s', a);
  }

  lemma DeliverIs(s: State, token: Token)
    requires ListClosed(s) && NextDeliver(s, token).loop == Completing(token.job, token.conn) && s.loop == Idle
    requires token.job in s.jobs && Find(s.heap, s.jobs, token.job, 0) == token.job
    ensures NextDeliver(s, token) ==
      s.(pipe := s.pipe - multiset{token}, jobs := Without(s.jobs, token.job), loop := Completing(token.job, token.conn))
    ensures s.heap[token.job].state == Completed && s.heap[token.job].conn == token.conn && !s.heap[token.job].canceled
  {
  }

  lemma LoseKeeps(s: State, token: Token)
    requires Inv(s) && Enabled(s, Lose(token))
    ensures Inv(Next(s, Lose(token)))
  {
  }

  lemma RunCompletionKeeps(s: State)
    requires Inv(s) && Enabled(s, RunCompletion)
    ensures Inv(Next(s, RunCompletion))
  {
    var a := s.loop.job;
    var e := CompletionRan(s.heap[a].ticket, s.loop.conn, s.heap[a].reply);
    var s' := s.(loop := LoopDisposing(a), log := s.log + [e]);
    assert a in LoopHolds(s.loop) && a !in Listed(s.jobs) && a !in WorkerHolds(s.worker);
    LivesFollow(s, s', a, e);
    ClosingsGrow(s.log, e, s.known, s.live);
  }

  /** dispose_job of a job one of the threads holds. */
  lemma FreeHeld(s: State, s': State, a: Addr)
    requires Core(s) && a in LoopHolds(s.loop) + WorkerHolds(s.worker)
    requires s' == FreeJob(s, a).(loop := s'.loop, worker := s'.worker)
    requires
      || (s.loop == LoopDisposing(a) && s'.loop == Idle && s'.worker == s.worker)
      || (s.worker == WorkerDisposing(a) && s'.worker == AtLock && s'.loop == s.loop)
    ensures Core(s')
    ensures forall b :: b in s.jobs ==> b in s'.heap && s'.heap[b] == s.heap[b]
  {
    FreeShape(s, s', a);
    LivesFree(s, s', a);
    ClosingsGrow(s.log, Disposed(s.heap[a].ticket), s.known, s.live);
  }

  lemma FreeShape(s: State, s': State, a: Addr)
    requires Ownership(s.heap, s.jobs, s.worker, s.loop) && ListShape(s.heap, s.jobs, s.worker, s.live)
    requires s'.heap == s.heap - {a} && s'.jobs == s.jobs && s'.live == s.live
    requires
      || (s.loop == LoopDisposing(a) && s'.loop == Idle && s'.worker == s.worker)
      || (s.worker == WorkerDisposing(a) && s'.worker == AtLock && s'.loop == s.loop)
    ensures Ownership(s'.heap, s'.jobs, s'.worker, s'.loop)
    ensures ListShape(s'.heap, s'.jobs, s'.worker, s'.live)
    ensures forall b :: b in s.jobs ==> b in s'.heap && s'.heap[b] == s.heap[b]
  {
    assert a in LoopHolds(s.loop) + WorkerHolds(s.worker) && a !in Listed(s.jobs);
    assert s'.heap.Keys == s.heap.Keys - {a};
    forall b | b in s'.jobs ensures b in s'.heap && ListedJob(b, s'.heap[b], s'.worker, s'.live) {
      assert b in Listed(s.jobs) && ListedJob(b, s.heap[b], s.worker, s.live);
    }
  }

  lemma DisposeKeeps(s: State, step: Step)
    requires Inv(s) && Enabled(s, step) && (step == LoopDispose || step == WorkerDispose)
    ensures Inv(Next(s, step))
  {
    var a := if step == LoopDispose then s.loop.job else s.worker.job;
    FreeHeld(s, Next(s, step), a);
  }

  lemma ShutdownBeginKeeps(s: State)
    requires Inv(s) && Enabled(s, ShutdownBegin)
    ensures Inv(Next(s, ShutdownBegin))
  {
    var s' := Next(s, ShutdownBegin);
    assert forall a :: a in s.heap ==>
      PhaseOf(a, s'.heap[a], s'.worker, s'.loop) == PhaseOf(a, s.heap[a], s.worker, s.loop);
  }

  // ---------- the worker ----------

  lemma WorkerCallbackKeeps(s: State, reply: Reply)
    requires Inv(s) && Enabled(s, WorkerCallback(reply))
    ensures Inv(NextCallback(s, s.worker.job, reply))
  {
    var a := s.worker.job;
    BusyAlone(s, a);
    CallbackCore(s, a, reply);
    if s.initialized && !s.stopping {
      TokensStay(s, NextCallback(s, a, reply), a);
    }
  }

  lemma CallbackCore(s: State, a: Addr, reply: Reply)
    requires Core(s) && s.worker == InCallback(a) && a in s.jobs && s.heap[a].state == Running && a !in LoopHolds(s.loop)
    ensures Core(NextCallback(s, a, reply))
  {
    var e := Returned(s.heap[a].ticket, reply);
    var s' := NextCallback(s, a, reply);
    assert ListedJob(a, s.heap[a], s.worker, s.live);
    LivesFollow(s, s', a, e);
    ShapeStays(s, s', a);
    ClosingsGrow(s.log, e, s.known, s.live);
  }

  lemma BusyAlone(s: State, a: Addr)
    requires Ownership(s.heap, s.jobs, s.worker, s.loop) && ListShape(s.heap, s.jobs, s.worker, s.live)
    requires Busy(s.worker, a)
    ensures a in s.jobs && a in s.heap && s.heap[a].state == Running
    ensures a !in LoopHolds(s.loop)
  {
    assert a in Listed(s.jobs) && ListedJob(a, s.heap[a], s.worker, s.live);
  }

  /** The second locked region of the worker: publish the result, or drop the job. */
  lemma WorkerFinishKeeps(s: State, woken: bool)
    requires Inv(s) && Enabled(s, WorkerFinish(woken))
    ensures Inv(NextWorkerFinish(s, s.worker.job, woken))
  {
    var a := s.worker.job;
    var s' := NextWorkerFinish(s, a, woken);
    BusyAlone(s, a);
    FinishCore(s, a, woken);
    if s.initialized && !s.stopping {
      if s'.worker == AtLock {
        TokensAdd(s, s', a);
      } else {
        TokensStay(s, s', a);
      }
    }
  }

  lemma FinishCore(s: State, a: Addr, woken: bool)
    requires Core(s) && s.worker == Finishing(a) && a in s.jobs && s.heap[a].state == Running && a !in LoopHolds(s.loop)
    ensures Core(NextWorkerFinish(s, a, woken))
  {
    if NextWorkerFinish(s, a, woken).worker == AtLock {
      FinishPublishes(s, a, woken);
    } else {
      FinishUnlinks(s, a, woken);
    }
  }

  lemma FinishPublishes(s: State, a: Addr, woken: bool)
    requires Core(s) && s.worker == Finishing(a) && a in s.jobs && s.heap[a].state == Running && a !in LoopHolds(s.loop)
    requires NextWorkerFinish(s, a, woken).worker == AtLock
    ensures Core(NextWorkerFinish(s, a, woken))
  {
    var s' := NextWorkerFinish(s, a, woken);
    LivesStay(s, s', a);
    assert ListedJob(a, s.heap[a], s.worker, s.live);
    ShapeStays(s, s', a);
  }

  lemma FinishUnlinks(s: State, a: Addr, woken: bool)
    requires Core(s) && s.worker == Finishing(a) && a in s.jobs && s.heap[a].state == Running && a !in LoopHolds(s.loop)
    requires NextWorkerFinish(s, a, woken).worker != AtLock
    ensures Core(NextWorkerFinish(s, a, woken))
  {
    var s' := NextWorkerFinish(s, a, woken);
    UnlinksStay(s, s', a, woken);
    ShapeShrinks(s, s', a);
  }

  lemma UnlinksStay(s: State, s': State, a: Addr, woken: bool)
    requires Lives(s) && s.worker == Finishing(a) && a in s.heap && a !in LoopHolds(s.loop)
    requires s' == NextWorkerFinish(s, a, woken) && s'.worker != AtLock
    ensures Lives(s')
  {
    LivesStay(s, s', a);
  }

  /** The token just published is the only one of its connection. */
  lemma TokensAdd(s: State, s': State, a: Addr)
    requires Tokens(s.pipe, s.heap, s.jobs, s.live - s.cut) && ListShape(s.heap, s.jobs, s.worker, s.live)
    requires a in s.jobs && s.heap[a].state == Running && a != 0
    requires s'.heap == s.heap[a := s.heap[a].(state := Completed)] && s'.jobs == s.jobs
    requires s'.pipe == s.pipe + multiset{Token(s.heap[a].conn, a)} && s'.live == s.live && s'.cut == s.cut
    ensures Tokens(s'.pipe, s'.heap, s'.jobs, s'.live - s'.cut)
  {
    forall token | token in s'.pipe && token.conn in s'.live - s'.cut
      ensures s'.pipe[token] == 1 && Names(token, s'.heap, s'.jobs)
    {
      if token in s.pipe {
        assert Names(token, s.heap, s.jobs) && token.job != a;
      }
    }
  }

  lemma WorkerTakeKeeps(s: State)
    requires Inv(s) && Enabled(s, WorkerLock) && !s.stopping
    ensures Inv(NextWorkerLock(s))
  {
    var s' := NextWorkerLock(s);
    var a := FirstQueued(s.heap, s.jobs);
    FirstQueuedFinds(s.heap, s.jobs);
    if a != 0 {
      assert ListedJob(a, s.heap[a], s.worker, s.live);
      TakeKeeps(s, s', a);
    }
  }

  lemma TakeKeeps(s: State, s': State, a: Addr)
    requires Inv(s) && s.worker == AtLock && !s.stopping && a in s.jobs && a in s.heap && s.heap[a].state == Queued
    requires s' == s.(heap := s.heap[a := s.heap[a].(state := Running)], worker := InCallback(a))
    ensures Inv(s')
  {
    assert a in Listed(s.jobs) && ListedJob(a, s.heap[a], s.worker, s.live);
    LivesStay(s, s', a);
    ShapeStays(s, s', a);
    TokensStay(s, s', a);
  }

  // ---------- disposing several jobs at once ----------

  /** Unlinking and disposing one listed job that no thread is busy with, during shutdown. */
  lemma DisposeListedKeeps(s: State, a: Addr, everything: bool)
    requires Core(s) && s.stopping && a in s.jobs && !Busy(s.worker, a)
    ensures var s' := DisposeListed(s, a, everything);
      && Core(s') && (forall b :: b in s'.jobs <==> b in s.jobs && (b != a || (!everything && s.heap[a].state != Queued)))
      && s' == s.(heap := s'.heap, jobs := s'.jobs, log := s'.log)
  {
    var s' := DisposeListed(s, a, everything);
    WithoutMembers(s.jobs, a);
    assert a in Listed(s.jobs) && ListedJob(a, s.heap[a], s.worker, s.live);
    if everything || s.heap[a].state == Queued {
      LivesFree(s, s', a);
      ClosingsGrow(s.log, Disposed(s.heap[a].ticket), s.known, s.live);
      DisposeListedShape(s, s', a);
    }
  }

  lemma DisposeListedShape(s: State, s': State, a: Addr)
    requires Ownership(s.heap, s.jobs, s.worker, s.loop) && ListShape(s.heap, s.jobs, s.worker, s.live)
    requires a in s.jobs && !Busy(s.worker, a)
    requires s'.heap == s.heap - {a} && s'.jobs == Without(s.jobs, a)
    requires s'.live == s.live && s'.worker == s.worker && s'.loop == s.loop
    ensures Ownership(s'.heap, s'.jobs, s'.worker, s'.loop)
    ensures ListShape(s'.heap, s'.jobs, s'.worker, s'.live)
  {
    WithoutMembers(s.jobs, a);
    assert s'.heap.Keys == s.heap.Keys - {a};
    assert a in Listed(s.jobs);
    forall b | b in s'.jobs ensures b in s'.heap && ListedJob(b, s'.heap[b], s'.worker, s'.live) {
      assert b in Listed(s.jobs) && ListedJob(b, s.heap[b], s.worker, s.live);
    }
  }

  lemma {:induction false} DisposeFromKeeps(s: State, jobs: seq<Addr>, everything: bool)
    requires Core(s) && s.stopping && Distinct(jobs)
    requires forall a :: a in jobs ==> a in s.jobs && !Busy(s.worker, a)
    ensures var s' := DisposeFrom(s, jobs, everything);
      && Core(s') && s' == s.(heap := s'.heap, jobs := s'.jobs, log := s'.log)
      && (forall b :: b in s'.jobs ==> b in s.jobs && (everything ==> b !in jobs))
    decreases |jobs|
  {
    if jobs != [] {
      var s1 := DisposeListed(s, jobs[0], everything);
      DisposeListedKeeps(s, jobs[0], everything);
      RestToDispose(s, s1, jobs, everything);
      DisposeFromKeeps(s1, jobs[1..], everything);
      DisposeFromStep(s, s1, DisposeFrom(s1, jobs[1..], everything), jobs, everything);
    }
  }

  lemma RestToDispose(s: State, s1: State, jobs: seq<Addr>, everything: bool)
    requires jobs != [] && Distinct(jobs) && s1.worker == s.worker
    requires forall a :: a in jobs ==> a in s.jobs && !Busy(s.worker, a)
    requires forall b :: b in s.jobs && b != jobs[0] ==> b in s1.jobs
    ensures Distinct(jobs[1..]) && forall a :: a in jobs[1..] ==> a in s1.jobs && !Busy(s1.worker, a)
  {
    assert jobs == [jobs[0]] + jobs[1..];
    forall a | a in jobs[1..] ensures a in jobs && a != jobs[0] {
      var i :| 0 <= i < |jobs[1..]| && jobs[1..][i] == a;
      assert jobs[i + 1] == a;
    }
  }

  lemma DisposeFromStep(s: State, s1: State, s': State, jobs: seq<Addr>, everything: bool)
    requires jobs != [] && s1 == s.(heap := s1.heap, jobs := s1.jobs, log := s1.log)
    requires forall b :: b in s1.jobs ==> b in s.jobs && (b == jobs[0] ==> !everything)
    requires s' == s1.(heap := s'.heap, jobs := s'.jobs, log := s'.log)
    requires forall b :: b in s'.jobs ==> b in s1.jobs && (everything ==> b !in jobs[1..])
    ensures s' == s.(heap := s'.heap, jobs := s'.jobs, log := s'.log)
    ensures forall b :: b in s'.jobs ==> b in s.jobs && (everything ==> b !in jobs)
  {
    assert jobs == [jobs[0]] + jobs[1..];
  }

  lemma WorkerStopKeeps(s: State)
    requires Inv(s) && Enabled(s, WorkerLock) && s.stopping
    ensures Inv(NextWorkerLock(s))
  {
    DisposeFromKeeps(s, s.jobs, false);
    Exits(DisposeFrom(s, s.jobs, false));
  }

  lemma Exits(s: State)
    requires Core(s) && s.worker == AtLock && s.stopping
    ensures Core(s.(worker := Exited))
  {
    var s' := s.(worker := Exited);
    assert forall a :: a in s.heap ==>
      PhaseOf(a, s'.heap[a], s'.worker, s'.loop) == PhaseOf(a, s.heap[a], s.worker, s.loop);
    assert forall a :: a in s.jobs ==> ListedJob(a, s.heap[a], s.worker, s.live);
  }

  /** After the worker has exited, shutdown disposes every job that is left. */
  lemma ShutdownFinishKeeps(s: State)
    requires Inv(s) && Enabled(s, ShutdownFinish)
    ensures Inv(Next(s, ShutdownFinish)) && Next(s, ShutdownFinish).heap == map[]
  {
    DisposeFromKeeps(s, s.jobs, true);
    Empties(DisposeFrom(s, s.jobs, true));
  }

  lemma NoMembers(jobs: seq<Addr>)
    ensures jobs == [] || exists a :: a in jobs
  {
    if jobs != [] {
      assert jobs[0] in jobs;
    }
  }

  lemma Empties(s: State)
    requires Core(s) && s.worker == Exited && s.stopping && forall a :: a !in s.jobs
    ensures s.heap == map[] && Core(s.(initialized := false, stopping := false, worker := NoThread, loop := Idle))
  {
    assert s.heap.Keys == {};
    NoMembers(s.jobs);
  }
}

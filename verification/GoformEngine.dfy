/** goform_async.c itself: jobs are cells of a heap linked by `next`, the list is relinked
    through a cursor, and each locked region (or unlocked piece of a thread) is a method.

    A method may be called where its step is enabled, and then it is that step of the state
    machine in GoformJobs: it never touches a freed cell, keeps the chain of `next` pointers
    intact and leaves exactly the state `Next` says.  GoformRuns shows that in every run the
    step each thread is about to take is enabled. */
module GoformEngine {
  import opened GoformJobs
  import opened GoformSafety

  datatype Cell = Cell(next: Addr, job: Job)

  ghost function Jobs(cells: map<Addr, Cell>): map<Addr, Job> {
    map a | a in cells :: cells[a].job
  }

  function At(list: seq<Addr>, i: nat): Addr {
    if i < |list| then list[i] else 0
  }

  /** Following `next` from `head` meets exactly the cells of `list`, then null. */
  ghost predicate Chain(cells: map<Addr, Cell>, head: Addr, list: seq<Addr>) {
    && head == At(list, 0)
    && (forall i :: 0 <= i < |list| ==> list[i] in cells && list[i] != 0 && cells[list[i]].next == At(list, i + 1))
    && Distinct(list)
  }

  lemma JobsPut(cells: map<Addr, Cell>, a: Addr, cell: Cell)
    ensures Jobs(cells[a := cell]) == Jobs(cells)[a := cell.job]
    ensures a in cells && cells[a].job == cell.job ==> Jobs(cells[a := cell]) == Jobs(cells)
  {
  }

  /** Unlinking the first cell: the head takes over its `next`. */
  lemma ChainUnlinkHead(cells: map<Addr, Cell>, head: Addr, list: seq<Addr>)
    requires Chain(cells, head, list) && list != []
    ensures Chain(cells[head := cells[head].(next := 0)], cells[head].next, list[1..])
  {
    ChainPop(cells, head, list);
    var rest := list[1..];
    forall k | 0 <= k < |rest|
      ensures var c := cells[head := cells[head].(next := 0)]; rest[k] in c && rest[k] != 0 && c[rest[k]].next == At(rest, k + 1)
    {
      assert (cells - {head})[rest[k]].next == At(rest, k + 1);
    }
  }

  /** Unlinking a later cell: the cell before it takes over its `next`. */
  lemma ChainUnlink(cells: map<Addr, Cell>, head: Addr, list: seq<Addr>, i: nat, cells': map<Addr, Cell>)
    requires Chain(cells, head, list) && 0 < i < |list|
    requires cells' == cells[list[i - 1] := cells[list[i - 1]].(next := cells[list[i]].next)][list[i] := cells[list[i]].(next := 0)]
    ensures Chain(cells', head, list[..i] + list[i + 1..])
  {
    var list' := list[..i] + list[i + 1..];
    forall k | 0 <= k < |list'|
      ensures list'[k] in cells' && list'[k] != 0 && cells'[list'[k]].next == At(list', k + 1)
    {
      var k' := if k < i then k else k + 1;
      assert list'[k] == list[k'] && list[k'] != list[i];
      assert cells[list[k']].next == At(list, k' + 1);
      if k == i - 1 {
        assert cells[list[i]].next == At(list, i + 1);
        assert At(list, i + 1) == At(list', i);
      } else {
        assert list[k'] != list[i - 1] && cells'[list[k']] == cells[list[k']];
        assert At(list, k' + 1) == At(list', k + 1);
      }
    }
    DistinctWithout(list, i);
  }

  lemma DistinctWithout(list: seq<Addr>, i: nat)
    requires Distinct(list) && i < |list|
    ensures Distinct(list[..i] + list[i + 1..])
  {
  }

  /** Only the payload of a cell changes. */
  lemma ChainPayload(cells: map<Addr, Cell>, head: Addr, list: seq<Addr>, a: Addr, cell: Cell)
    requires Chain(cells, head, list) && (a in list ==> cell.next == cells[a].next)
    ensures Chain(cells[a := cell], head, list)
  {
    forall k | 0 <= k < |list|
      ensures list[k] in cells[a := cell] && list[k] != 0 && cells[a := cell][list[k]].next == At(list, k + 1)
    {
      assert cells[list[k]].next == At(list, k + 1);
    }
  }

  lemma ChainPush(cells: map<Addr, Cell>, head: Addr, list: seq<Addr>, a: Addr, cell: Cell)
    requires Chain(cells, head, list) && a != 0 && a !in list && cell.next == head
    ensures Chain(cells[a := cell], a, [a] + list)
  {
    var list' := [a] + list;
    forall k | 0 <= k < |list'|
      ensures list'[k] in cells[a := cell] && list'[k] != 0 && cells[a := cell][list'[k]].next == At(list', k + 1)
    {
      if k > 0 {
        assert list'[k] == list[k - 1] && cells[list[k - 1]].next == At(list, k);
      }
    }
  }

  /** Freeing a cell that is not on the list. */
  lemma ChainFree(cells: map<Addr, Cell>, head: Addr, list: seq<Addr>, a: Addr)
    requires Chain(cells, head, list) && a !in list
    ensures Chain(cells - {a}, head, list)
  {
    forall k | 0 <= k < |list|
      ensures list[k] in cells - {a} && list[k] != 0 && (cells - {a})[list[k]].next == At(list, k + 1)
    {
      assert list[k] in list;
    }
  }

  lemma {:induction false} WithoutAt(list: seq<Addr>, needle: Addr, i: nat)
    requires i <= |list| && (forall k :: 0 <= k < i ==> list[k] != needle) && (i < |list| ==> list[i] == needle)
    ensures Without(list, needle) == if i < |list| then list[..i] + list[i + 1..] else list
  {
    if i > 0 {
      WithoutAt(list[1..], needle, i - 1);
      WithoutStep(list, needle, i);
    } else if list != [] {
      assert list[..0] + list[1..] == list[1..];
    }
  }

  lemma WithoutStep(list: seq<Addr>, needle: Addr, i: nat)
    requires 0 < i <= |list|
    ensures [list[0]] + (if i < |list| then list[1..][..i - 1] + list[1..][i..] else list[1..])
         == if i < |list| then list[..i] + list[i + 1..] else list
  {
  }

  class Engine {
    var cells: map<Addr, Cell>
    var head: Addr
    var initialized: bool
    var stopping: bool
    ghost var list: seq<Addr>
    ghost var worker: WorkerPc
    ghost var loop: LoopPc
    ghost var known: set<ConnId>
    ghost var live: set<ConnId>
    ghost var cut: set<ConnId>
    ghost var pipe: multiset<Token>
    var nextTicket: Ticket
    ghost var log: seq<Event>

    ghost function View(): State
      reads this
    {
      State(Jobs(cells), list, initialized, stopping, worker, loop, known, live, cut, pipe, nextTicket, log)
    }

    ghost predicate Linked()
      reads `cells, `head, `list
    {
      Chain(cells, head, list)
    }

    constructor ()
      ensures Linked() && View() == Start
    {
      cells, head, initialized, stopping, list := map[], 0, false, false, [];
      worker, loop, known, live, cut, pipe, nextTicket, log := NoThread, Idle, {}, {}, {}, multiset{}, 0, [];
      new;
      assert View() == Start;
    }

    // ---------- list operations, mutex held ----------

    method FindJobLocked(needle: Addr, conn: ConnId) returns (job: Addr)
      requires Linked()
      ensures job == Find(Jobs(cells), list, needle, conn)
    {
      job := head;
      ghost var i := 0;
      while job != 0
        invariant i <= |list| && job == At(list, i)
        invariant Find(Jobs(cells), list, needle, conn) == Find(Jobs(cells), list[i..], needle, conn)
        decreases |list| - i
      {
        if (needle != 0 && job == needle) || (needle == 0 && cells[job].job.conn == conn) {
          return;
        }
        job, i := cells[job].next, i + 1;
      }
    }

    /** Unlinking through a cursor: `prev` is the cell whose `next` the cursor points to, or null
        when it points to the list head. */
    method UnlinkJobLocked(needle: Addr)
      requires Linked()
      modifies `cells, `head, `list
      ensures Linked() && list == Without(old(list), needle) && Jobs(cells) == old(Jobs(cells))
    {
      var prev, current := 0, head;
      ghost var i := 0;
      while current != 0 && current != needle
        invariant i <= |list| && current == At(list, i) && prev == (if i == 0 then 0 else list[i - 1])
        invariant forall k :: 0 <= k < i ==> list[k] != needle
        decreases |list| - i
      {
        prev, current, i := current, cells[current].next, i + 1;
      }
      WithoutAt(list, needle, i);
      if current != 0 {
        var next := cells[needle].next;
        if prev == 0 {
          head := next;
        } else {
          JobsPut(cells, prev, cells[prev].(next := next));
          cells := cells[prev := cells[prev].(next := next)];
        }
        JobsPut(cells, needle, cells[needle].(next := 0));
        cells := cells[needle := cells[needle].(next := 0)];
        if i == 0 {
          ChainUnlinkHead(old(cells), old(head), list);
        } else {
          ChainUnlink(old(cells), head, list, i, cells);
        }
        list := list[..i] + list[i + 1..];
        assert i == 0 ==> list == old(list)[1..];
      }
    }

    method TakeQueuedJobLocked() returns (job: Addr)
      requires Linked()
      modifies `cells
      ensures Linked() && job == FirstQueued(old(Jobs(cells)), list)
      ensures job == 0 ==> cells == old(cells)
      ensures job != 0 ==> job in cells && job in old(cells)
      ensures job != 0 ==>
        Jobs(cells) == old(Jobs(cells))[job := old(cells)[job].job.(state := Running)]
    {
      job := head;
      ghost var i := 0;
      while job != 0
        invariant i <= |list| && job == At(list, i)
        invariant FirstQueued(Jobs(cells), list) == FirstQueued(Jobs(cells), list[i..])
        decreases |list| - i
      {
        if cells[job].job.state == Queued {
          var cell := cells[job].(job := cells[job].job.(state := Running));
          JobsPut(cells, job, cell);
          ChainPayload(cells, head, list, job, cell);
          cells := cells[job := cell];
          return;
        }
        job, i := cells[job].next, i + 1;
      }
    }

    method DisposeJob(job: Addr)
      requires job in cells
      modifies `cells, `log
      ensures cells == old(cells) - {job} && Jobs(cells) == old(Jobs(cells)) - {job}
      ensures log == old(log) + [Disposed(old(cells)[job].job.ticket)]
    {
      log := log + [Disposed(cells[job].job.ticket)];
      cells := cells - {job};
    }

    // ---------- the event-loop thread ----------

    /** submit up to taking the mutex: `job` is what calloc returned, null if it failed. */
    method SubmitAllocate(conn: ConnId, job: Addr) returns (made: bool)
      requires Linked() && loop == Idle && conn in live && job !in cells
      modifies this
      ensures Linked() && made == (old(initialized) && job != 0)
      ensures var step := if made then SubmitAlloc(conn, job) else SubmitRefused;
        Enabled(old(View()), step) && View() == Next(old(View()), step)
    {
      AllListed(cells, head, list);
      made := initialized && job != 0;
      if made {
        FillJob(conn, job);
        loop := Submitting(job);
      } else {
        log := log + [Disposed(nextTicket)];
      }
      nextTicket := nextTicket + 1;
    }

    /** The fields of the new cell. */
    method FillJob(conn: ConnId, job: Addr)
      requires Linked() && job !in list
      modifies `cells
      ensures Linked()
      ensures Jobs(cells) == old(Jobs(cells))[job := Job(nextTicket, conn, Queued, false, Reply(0, ""))]
    {
      var cell := Cell(0, Job(nextTicket, conn, Queued, false, Reply(0, "")));
      JobsPut(cells, job, cell);
      ChainPayload(cells, head, list, job, cell);
      cells := cells[job := cell];
    }

    method SubmitUnderLock(job: Addr) returns (result: int)
      requires Linked() && loop == Submitting(job) && Enabled(View(), SubmitLocked) && job != 0 && job !in list
      modifies this
      ensures Linked() && View() == NextSubmit(old(View()), job)
      ensures result == if loop == Idle then 0 else -1
      ensures job in old(cells) && (result == 0 <==>
        !old(stopping) && forall b :: b in old(list) && b in old(cells) ==> old(cells)[b].job.conn != old(cells)[job].job.conn)
      ensures result == 0 ==> list == [job] + old(list)
    {
      var other := 0;
      if !stopping {
        other := FindJobLocked(0, cells[job].job.conn);
        NoneFound(cells, head, list, cells[job].job.conn);
      }
      if stopping || other != 0 {
        loop := LoopDisposing(job);
        return -1;
      }
      LinkFirst(job);
      log := log + [Accepted(cells[job].job.ticket, cells[job].job.conn)];
      loop := Idle;
      return 0;
    }

    method LinkFirst(job: Addr)
      requires Linked() && job in cells && job != 0 && job !in list
      modifies `cells, `head, `list
      ensures Linked() && list == [job] + old(list) && Jobs(cells) == old(Jobs(cells))
      ensures job in cells && cells[job].job == old(cells)[job].job
    {
      var cell := cells[job].(next := head);
      JobsPut(cells, job, cell);
      ChainPush(cells, head, list, job, cell);
      cells := cells[job := cell];
      head := job;
      list := [job] + list;
    }

    /** goform_async_cancel up to its unlock. */
    method CancelUnderLock(conn: ConnId)
      requires Linked() && loop == Idle && ListClosed(View())
      modifies `cells, `head, `list, `loop
      ensures Linked() && View() == NextCancel(old(View()), conn)
    {
      if initialized {
        var job := FindJobLocked(0, conn);
        Found(cells, head, list, 0, conn);
        if job != 0 {
          CancelJob(job);
        }
      }
    }

    method CancelJob(job: Addr)
      requires Linked() && job in cells
      modifies `cells, `head, `list, `loop
      ensures Linked() && job in old(View()).heap && View() == CancelFound(old(View()), job)
    {
      var state := MarkCanceled(job);
      if state == Queued || state == Completed {
        UnlinkJobLocked(job);
        loop := LoopDisposing(job);
      }
    }

    method MarkCanceled(job: Addr) returns (state: JobState)
      requires Linked() && job in cells
      modifies `cells
      ensures Linked() && job in old(Jobs(cells)) && state == old(Jobs(cells))[job].state
      ensures Jobs(cells) == old(Jobs(cells))[job := old(Jobs(cells))[job].(canceled := true)]
    {
      var cell := cells[job].(job := cells[job].job.(canceled := true));
      JobsPut(cells, job, cell);
      ChainPayload(cells, head, list, job, cell);
      cells := cells[job := cell];
      return cell.job.state;
    }

    /** Closing a connection cancels its job; calling cancel and leaving it open only marks it. */
    method CloseConnection(conn: ConnId)
      requires Linked() && Enabled(View(), Close(conn))
      modifies this
      ensures Linked() && View() == Next(old(View()), Close(conn))
    {
      CancelUnderLock(conn);
      live, log := live - {conn}, log + [Closed(conn)];
    }

    method CancelConnection(conn: ConnId)
      requires Linked() && Enabled(View(), Cancel(conn))
      modifies this
      ensures Linked() && View() == Next(old(View()), Cancel(conn))
    {
      CancelUnderLock(conn);
      cut := cut + {conn};
    }

    /** goform_async_handle_wakeup up to its unlock: true when the completion is to run. */
    method HandleWakeupUnderLock(conn: ConnId, token: Addr) returns (found: bool)
      requires Linked() && loop == Idle && ListClosed(View())
      modifies this
      ensures Linked() && View() == NextDeliver(old(View()), Token(conn, token))
      ensures found == (loop != Idle)
    {
      pipe := pipe - multiset{Token(conn, token)};
      if !initialized {
        return false;
      }
      var job := FindDeliverable(conn, token);
      if job == 0 {
        return false;
      }
      HandOver(job, conn);
      return true;
    }

    method HandOver(job: Addr, conn: ConnId)
      requires Linked()
      modifies `cells, `head, `list, `loop
      ensures Linked() && View() == old(View()).(jobs := Without(old(View()).jobs, job), loop := Completing(job, conn))
    {
      UnlinkJobLocked(job);
      loop := Completing(job, conn);
    }

    /** The job of the token, if it is listed, completed, not canceled and of this connection. */
    method FindDeliverable(conn: ConnId, token: Addr) returns (job: Addr)
      requires Linked() && ListClosed(View())
      ensures var heap, a := Jobs(cells), Find(Jobs(cells), list, token, 0);
        if a == 0 || a !in heap || heap[a].conn != conn || heap[a].state != Completed || heap[a].canceled
        then job == 0 else job == a
    {
      job := FindJobLocked(token, 0);
      Found(cells, head, list, token, 0);
      if job == 0 || cells[job].job.conn != conn || cells[job].job.state != Completed || cells[job].job.canceled {
        return 0;
      }
    }

    /** The completion callback, outside the lock. */
    method RunCompletionCallback(job: Addr, conn: ConnId)
      requires Linked() && loop == Completing(job, conn) && Enabled(View(), RunCompletion)
      modifies this
      ensures Linked() && View() == Next(old(View()), RunCompletion)
    {
      log := log + [CompletionRan(cells[job].job.ticket, conn, cells[job].job.reply)];
      loop := LoopDisposing(job);
    }

    method LoopDisposeJob(job: Addr)
      requires Linked() && loop == LoopDisposing(job) && Enabled(View(), LoopDispose) && job !in list
      modifies this
      ensures Linked() && View() == Next(old(View()), LoopDispose)
    {
      ChainFree(cells, head, list, job);
      DisposeJob(job);
      loop := Idle;
    }

    /** goform_async_shutdown up to pthread_join. */
    method ShutdownRequest()
      requires Linked() && Enabled(View(), ShutdownBegin)
      modifies this
      ensures Linked() && View() == Next(old(View()), ShutdownBegin)
    {
      stopping, loop := true, Joining;
    }

    /** goform_async_shutdown after pthread_join: take the list, then dispose it cell by cell. */
    method ShutdownCleanup()
      requires Linked() && loop == Joining && worker == Exited
      modifies this
      ensures Linked() && View() == NextShutdownFinish(old(View()))
    {
      var first := head;
      ghost var s, all := View(), list;
      head, list := 0, [];
      DisposeAll(first, all, s);
      Reset();
    }

    method Reset()
      modifies `initialized, `stopping, `worker, `loop
      ensures View() == old(View()).(initialized := false, stopping := false, worker := NoThread, loop := Idle)
    {
      initialized, stopping, worker, loop := false, false, NoThread, Idle;
    }

    method DisposeAll(first: Addr, ghost all: seq<Addr>, ghost s: State)
      requires head == 0 && list == [] && Chain(cells, first, all) && s == View().(jobs := all)
      modifies `cells, `log
      ensures Linked() && View() == DisposeFrom(s, all, true)
    {
      var job := first;
      ghost var left := all;
      while job != 0
        invariant Chain(cells, job, left)
        invariant DisposeFrom(s, all, true) == DisposeFrom(View().(jobs := left), left, true)
        decreases |left|
      {
        ChainPop(cells, job, left);
        assert left == [left[0]] + left[1..];
        DisposeStep(View().(jobs := left), left[0], left[1..], true);
        var next := cells[job].next;
        DisposeJob(job);
        job, left := next, left[1..];
      }
      DisposeNothing(s, all, View(), left);
    }

    // ---------- the worker thread ----------

    /** The first locked region of the worker: stop, wait, or take a job. */
    method WorkerTakesLock() returns (job: Addr, stop: bool)
      requires Linked() && worker == AtLock && ListClosed(View())
      modifies this
      ensures Linked() && View() == NextWorkerLock(old(View()))
      ensures stop == old(stopping)
    {
      job, stop := 0, stopping;
      if stopping {
        DropQueuedLocked();
        worker := Exited;
      } else {
        FirstIsListed(cells, head, list);
        ghost var s := View();
        job := TakeQueuedJobLocked();
        if job != 0 {
          assert job in s.heap && FirstQueued(s.heap, s.jobs) == job;
          assert View() == s.(heap := s.heap[job := s.heap[job].(state := Running)]);
          assert cells[job].job == View().heap[job];
          if cells[job].job.canceled {
            UnlinkJobLocked(job);
            worker := WorkerDisposing(job);
          } else {
            worker := InCallback(job);
          }
        }
      }
    }

    /** The shutdown branch of the worker: walk the list, unlinking and disposing QUEUED jobs;
        `next` is saved before a cell is unlinked. */
    method DropQueuedLocked()
      requires Linked()
      modifies `cells, `head, `list, `log
      ensures Linked() && View() == DisposeFrom(old(View()), old(list), false)
    {
      ghost var s, all, kept := View(), list, [];
      var queued := head;
      ghost var i := 0;
      assert all[0..] == all && kept + all == all;
      while queued != 0
        invariant i <= |all| && queued == At(all, i) && list == kept + all[i..] && Linked()
        invariant DisposeFrom(s, all, false) == DisposeFrom(View(), all[i..], false)
        decreases |all| - i
      {
        Walk(cells, head, list, kept, all, i);
        DisposeStep(View(), all[i], all[i + 1..], false);
        var next := cells[queued].next;
        var dropped := DropIfQueued(queued);
        if !dropped {
          kept := kept + [queued];
        }
        queued, i := next, i + 1;
      }
    }

    method DropIfQueued(queued: Addr) returns (dropped: bool)
      requires Linked() && queued in list && queued in cells && queued !in Without(list, queued)
      modifies `cells, `head, `list, `log
      ensures Linked() && View() == DisposeListed(old(View()), queued, false)
      ensures list == if dropped then Without(old(list), queued) else old(list)
    {
      dropped := cells[queued].job.state == Queued;
      if dropped {
        ghost var s := View();
        UnlinkJobLocked(queued);
        ChainFree(cells, head, list, queued);
        assert queued in Jobs(cells) && cells[queued].job == s.heap[queued];
        DisposeJob(queued);
      }
    }

    /** The worker callback, outside the lock, leaves its reply in the job. */
    method RunWorkerCallback(job: Addr, reply: Reply)
      requires Linked() && worker == InCallback(job) && Enabled(View(), WorkerCallback(reply))
      modifies this
      ensures Linked() && View() == NextCallback(old(View()), job, reply)
      ensures job in old(cells) && job in cells && cells[job].job == old(cells[job].job).(reply := reply)
      ensures log == old(log) + [Returned(old(cells)[job].job.ticket, reply)]
    {
      var cell := cells[job].(job := cells[job].job.(reply := reply));
      JobsPut(cells, job, cell);
      ChainPayload(cells, head, list, job, cell);
      cells := cells[job := cell];
      worker := Finishing(job);
      log := log + [Returned(cell.job.ticket, reply)];
    }

    /** The second locked region of the worker; `woken` is what mg_wakeup returned. */
    method WorkerPublishes(job: Addr, woken: bool)
      requires Linked() && worker == Finishing(job) && Enabled(View(), WorkerFinish(woken))
      modifies this
      ensures Linked() && View() == NextWorkerFinish(old(View()), job, woken)
    {
      if stopping || cells[job].job.canceled {
        UnlinkJobLocked(job);
        worker := WorkerDisposing(job);
        return;
      }
      var cell := cells[job].(job := cells[job].job.(state := Completed));
      JobsPut(cells, job, cell);
      ChainPayload(cells, head, list, job, cell);
      cells := cells[job := cell];
      if !woken {
        UnlinkJobLocked(job);
        worker := WorkerDisposing(job);
      } else {
        pipe := pipe + multiset{Token(cell.job.conn, job)};
        worker := AtLock;
      }
    }

    method WorkerDisposeJob(job: Addr)
      requires Linked() && worker == WorkerDisposing(job) && Enabled(View(), WorkerDispose) && job !in list
      modifies this
      ensures Linked() && View() == Next(old(View()), WorkerDispose)
    {
      ChainFree(cells, head, list, job);
      DisposeJob(job);
      worker := AtLock;
    }
  }

  lemma AllListed(cells: map<Addr, Cell>, head: Addr, list: seq<Addr>)
    requires Chain(cells, head, list)
    ensures 0 !in list && forall a :: a in list ==> a in cells
  {
  }

  lemma Found(cells: map<Addr, Cell>, head: Addr, list: seq<Addr>, needle: Addr, conn: ConnId)
    requires Chain(cells, head, list) && forall a :: a in list ==> a in cells
    ensures var job := Find(Jobs(cells), list, needle, conn); job != 0 ==> job in list && job in cells
  {
    AllListed(cells, head, list);
    FindFinds(Jobs(cells), list, needle, conn);
  }

  lemma NoneFound(cells: map<Addr, Cell>, head: Addr, list: seq<Addr>, conn: ConnId)
    requires Chain(cells, head, list) && forall a :: a in list ==> a in cells
    ensures Find(Jobs(cells), list, 0, conn) == 0 <==> forall b :: b in list && b in cells ==> cells[b].job.conn != conn
  {
    AllListed(cells, head, list);
    FindFinds(Jobs(cells), list, 0, conn);
  }

  lemma FirstIsListed(cells: map<Addr, Cell>, head: Addr, list: seq<Addr>)
    requires Chain(cells, head, list) && forall a :: a in list ==> a in cells
    ensures var job := FirstQueued(Jobs(cells), list); job != 0 ==> job in list && job in cells
  {
    AllListed(cells, head, list);
    FirstQueuedFinds(Jobs(cells), list);
  }

  /** Standing at `all[i]`, with `kept` before it on the list. */
  lemma Walk(cells: map<Addr, Cell>, head: Addr, list: seq<Addr>, kept: seq<Addr>, all: seq<Addr>, i: nat)
    requires Chain(cells, head, list) && i < |all| && list == kept + all[i..]
    ensures all[i] in cells && cells[all[i]].next == At(all, i + 1)
    ensures all[i..] == [all[i]] + all[i + 1..] && list == kept + [all[i]] + all[i + 1..]
    ensures Without(list, all[i]) == kept + all[i + 1..] && all[i] !in kept + all[i + 1..]
  {
    WalkCell(cells, head, list, kept, all, i);
    WalkSlices(list, kept, all, i);
    WithoutMiddle(list, kept, all[i], all[i + 1..]);
  }

  lemma WalkCell(cells: map<Addr, Cell>, head: Addr, list: seq<Addr>, kept: seq<Addr>, all: seq<Addr>, i: nat)
    requires Chain(cells, head, list) && i < |all| && list == kept + all[i..]
    ensures all[i] in cells && cells[all[i]].next == At(all, i + 1)
  {
    var k := |kept|;
    assert list[k] == all[i] && cells[list[k]].next == At(list, k + 1);
  }

  lemma WalkSlices(list: seq<Addr>, kept: seq<Addr>, all: seq<Addr>, i: nat)
    requires i < |all| && list == kept + all[i..]
    ensures all[i..] == [all[i]] + all[i + 1..] && list == kept + [all[i]] + all[i + 1..]
  {
  }

  lemma WithoutMiddle(list: seq<Addr>, kept: seq<Addr>, a: Addr, rest: seq<Addr>)
    requires Distinct(list) && list == kept + [a] + rest
    ensures Without(list, a) == kept + rest && a !in kept + rest
  {
    var k := |kept|;
    assert list[k] == a && list[..k] == kept && list[k + 1..] == rest;
    assert forall j :: 0 <= j < k ==> list[j] == kept[j];
    assert forall j :: 0 <= j < |rest| ==> list[k + 1 + j] == rest[j];
    WithoutAt(list, a, k);
  }

  lemma ChainPop(cells: map<Addr, Cell>, head: Addr, list: seq<Addr>)
    requires Chain(cells, head, list) && head != 0
    ensures list != [] && list[0] == head && head in cells && Chain(cells - {head}, cells[head].next, list[1..])
  {
    var rest := list[1..];
    assert list[0] in cells && cells[list[0]].next == At(list, 1);
    forall k | 0 <= k < |rest|
      ensures rest[k] in cells - {head} && rest[k] != 0 && (cells - {head})[rest[k]].next == At(rest, k + 1)
    {
      assert rest[k] == list[k + 1] && cells[list[k + 1]].next == At(list, k + 2);
    }
  }

  lemma DisposeStep(s: State, a: Addr, rest: seq<Addr>, everything: bool)
    ensures DisposeFrom(s, [a] + rest, everything) == DisposeFrom(DisposeListed(s, a, everything), rest, everything)
  {
    assert ([a] + rest)[1..] == rest;
  }

  lemma DisposeNothing(s: State, all: seq<Addr>, t: State, rest: seq<Addr>)
    requires DisposeFrom(s, all, true) == DisposeFrom(t.(jobs := rest), rest, true) && rest == []
    ensures DisposeFrom(s, all, true) == t.(jobs := [])
  {
  }
}

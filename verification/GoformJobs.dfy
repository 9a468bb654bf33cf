/** The background job engine of goform_async.c as a state machine.

    One worker thread and one event-loop thread share a mutex and a list of
    jobs.  Every locked region is one step; the worker's callback, the
    completion callback and every `dispose_job` made after unlocking are steps
    of their own, so the two threads interleave freely.  Jobs live in a heap
    indexed by address: disposing a job frees its address, and a later
    allocation may return the same address again.

    Two history variables observe the machine: `log`, everything that happened
    in order, and `nextTicket`, which numbers the calls of submit. */
module GoformJobs {
  type Addr = nat // 0 is the null pointer
  type ConnId = nat
  type Ticket = nat

  datatype JobState = Queued | Running | Completed

  datatype Reply = Reply(result: int, response: string)

  datatype Job = Job(ticket: Ticket, conn: ConnId, state: JobState, canceled: bool, reply: Reply)

  datatype Token = Token(conn: ConnId, job: Addr)

  datatype WorkerPc =
    | NoThread
    | AtLock
    | InCallback(job: Addr)
    | Finishing(job: Addr)
    | WorkerDisposing(job: Addr)
    | Exited

  datatype LoopPc =
    | Idle
    | Submitting(job: Addr)
    | Completing(job: Addr, conn: ConnId)
    | LoopDisposing(job: Addr)
    | Joining

  datatype Event =
    | Accepted(ticket: Ticket, conn: ConnId)
    | Returned(ticket: Ticket, reply: Reply)
    | CompletionRan(ticket: Ticket, conn: ConnId, reply: Reply)
    | Disposed(ticket: Ticket)
    | Closed(conn: ConnId)

  datatype State = State(
    heap: map<Addr, Job>,
    jobs: seq<Addr>,
    initialized: bool,
    stopping: bool,
    worker: WorkerPc,
    loop: LoopPc,
    known: set<ConnId>,
    live: set<ConnId>,
    cut: set<ConnId>, // connections for which cancel was called while they stayed open
    pipe: multiset<Token>,
    nextTicket: Ticket,
    log: seq<Event>)

  datatype Step =
    | Init
    | Open(conn: ConnId)
    | SubmitRefused
    | SubmitAlloc(conn: ConnId, job: Addr)
    | SubmitLocked
    | Cancel(conn: ConnId)
    | Close(conn: ConnId)
    | Deliver(token: Token)
    | Lose(token: Token)
    | RunCompletion
    | LoopDispose
    | ShutdownBegin
    | ShutdownFinish
    | WorkerLock
    | WorkerCallback(reply: Reply)
    | WorkerFinish(woken: bool)
    | WorkerDispose

  const Start := State(map[], [], false, false, NoThread, Idle, {}, {}, {}, multiset{}, 0, [])

  // ---------- the list operations ----------

  /** find_job_locked: by address when `needle` is not null, by connection otherwise. */
  function Find(heap: map<Addr, Job>, jobs: seq<Addr>, needle: Addr, conn: ConnId): Addr
    requires forall a :: a in jobs ==> a in heap
  {
    if jobs == [] then 0
    else if if needle != 0 then jobs[0] == needle else heap[jobs[0]].conn == conn then jobs[0]
    else Find(heap, jobs[1..], needle, conn)
  }

  /** unlink_job_locked */
  function Without(jobs: seq<Addr>, needle: Addr): seq<Addr> {
    if jobs == [] then []
    else if jobs[0] == needle then jobs[1..]
    else [jobs[0]] + Without(jobs[1..], needle)
  }

  /** The job take_queued_job_locked picks. */
  function FirstQueued(heap: map<Addr, Job>, jobs: seq<Addr>): Addr
    requires forall a :: a in jobs ==> a in heap
  {
    if jobs == [] then 0
    else if heap[jobs[0]].state == Queued then jobs[0]
    else FirstQueued(heap, jobs[1..])
  }

  /** Dispose, in list order, the jobs of `jobs` that `everything` or their QUEUED state selects. */
  function DisposeFrom(s: State, jobs: seq<Addr>, everything: bool): State
    decreases |jobs|
  {
    if jobs == [] then s
    else DisposeFrom(DisposeListed(s, jobs[0], everything), jobs[1..], everything)
  }

  function DisposeListed(s: State, a: Addr, everything: bool): State {
    if a in s.heap && (everything || s.heap[a].state == Queued)
    then FreeJob(s.(jobs := Without(s.jobs, a)), a)
    else s
  }

  /** dispose_job: the owner's free_arg runs and the memory goes back. */
  function FreeJob(s: State, a: Addr): State
    requires a in s.heap
  {
    s.(heap := s.heap - {a}, log := s.log + [Disposed(s.heap[a].ticket)])
  }

  // ---------- the steps ----------

  ghost predicate ListClosed(s: State) {
    forall a :: a in s.jobs ==> a in s.heap
  }

  ghost predicate Enabled(s: State, step: Step) {
    && ListClosed(s)
    && match step
       case Init => !s.initialized && s.loop == Idle && s.worker == NoThread
       case Open(c) => s.loop == Idle && 0 < c && c !in s.known
       case SubmitRefused => s.loop == Idle
       case SubmitAlloc(c, a) => s.loop == Idle && s.initialized && c in s.live && a != 0 && a !in s.heap
       case SubmitLocked => s.loop.Submitting? && s.loop.job in s.heap
       case Cancel(c) => s.loop == Idle && c in s.live
       case Close(c) => s.loop == Idle && c in s.live
       case Deliver(token) => s.loop == Idle && token in s.pipe && token.conn in s.live
       case Lose(token) => token in s.pipe
       case RunCompletion => s.loop.Completing? && s.loop.job in s.heap
       case LoopDispose => s.loop.LoopDisposing? && s.loop.job in s.heap
       case ShutdownBegin => s.loop == Idle && s.initialized
       case ShutdownFinish => s.loop == Joining && s.worker == Exited
       case WorkerLock => s.worker == AtLock
       case WorkerCallback(_) => s.worker.InCallback? && s.worker.job in s.heap
       case WorkerFinish(_) => s.worker.Finishing? && s.worker.job in s.heap
       case WorkerDispose => s.worker.WorkerDisposing? && s.worker.job in s.heap
  }

  ghost function Next(s: State, step: Step): State
    requires Enabled(s, step)
  {
    match step
    case Init => s.(jobs := [], initialized := true, stopping := false, worker := AtLock, pipe := multiset{})
    case Open(c) => s.(known := s.known + {c}, live := s.live + {c})
    case SubmitRefused => s.(nextTicket := s.nextTicket + 1, log := s.log + [Disposed(s.nextTicket)])
    case SubmitAlloc(c, a) =>
      s.(heap := s.heap[a := Job(s.nextTicket, c, Queued, false, Reply(0, ""))],
      nextTicket := s.nextTicket + 1, loop := Submitting(a))
    case SubmitLocked => NextSubmit(s, s.loop.job)
    case Cancel(c) => NextCancel(s, c).(cut := s.cut + {c})
    case Close(c) => NextCancel(s, c).(live := s.live - {c}, log := s.log + [Closed(c)])
    case Deliver(token) => NextDeliver(s, token)
    case Lose(token) => s.(pipe := s.pipe - multiset{token})
    case RunCompletion =>
      var job := s.heap[s.loop.job];
      s.(loop := LoopDisposing(s.loop.job), log := s.log + [CompletionRan(job.ticket, s.loop.conn, job.reply)])
    case LoopDispose => FreeJob(s, s.loop.job).(loop := Idle)
    case ShutdownBegin => s.(stopping := true, loop := Joining)
    case ShutdownFinish => NextShutdownFinish(s)
    case WorkerLock => NextWorkerLock(s)
    case WorkerCallback(reply) => NextCallback(s, s.worker.job, reply)
    case WorkerFinish(woken) => NextWorkerFinish(s, s.worker.job, woken)
    case WorkerDispose => FreeJob(s, s.worker.job).(worker := AtLock)
  }

  ghost function NextSubmit(s: State, a: Addr): State
    requires ListClosed(s) && a in s.heap
  {
    if s.stopping || Find(s.heap, s.jobs, 0, s.heap[a].conn) != 0 then s.(loop := LoopDisposing(a))
    else s.(jobs := [a] + s.jobs, loop := Idle, log := s.log + [Accepted(s.heap[a].ticket, s.heap[a].conn)])
  }

  ghost function NextCancel(s: State, c: ConnId): State
    requires ListClosed(s)
  {
    var a := Find(s.heap, s.jobs, 0, c);
    if !s.initialized || a == 0 || a !in s.heap then s else CancelFound(s, a)
  }

  ghost function CancelFound(s: State, a: Addr): State
    requires a in s.heap
  {
    var s' := s.(heap := s.heap[a := s.heap[a].(canceled := true)]);
    if s.heap[a].state == Running then s'
    else s'.(jobs := Without(s.jobs, a), loop := LoopDisposing(a))
  }

  ghost function NextDeliver(s: State, token: Token): State
    requires ListClosed(s)
  {
    var s' := s.(pipe := s.pipe - multiset{token});
    var a := Find(s.heap, s.jobs, token.job, 0);
    if !s.initialized || a == 0 || a !in s.heap || s.heap[a].conn != token.conn ||
       s.heap[a].state != Completed || s.heap[a].canceled then s'
    else s'.(jobs := Without(s.jobs, a), loop := Completing(a, token.conn))
  }

  ghost function NextShutdownFinish(s: State): State {
    DisposeFrom(s, s.jobs, true).(initialized := false, stopping := false, worker := NoThread, loop := Idle)
  }

  ghost function NextWorkerLock(s: State): State
    requires ListClosed(s)
  {
    var a := FirstQueued(s.heap, s.jobs);
    if s.stopping then DisposeFrom(s, s.jobs, false).(worker := Exited)
    else if a == 0 || a !in s.heap then s
    else
      var s' := s.(heap := s.heap[a := s.heap[a].(state := Running)]);
      if s.heap[a].canceled then s'.(jobs := Without(s.jobs, a), worker := WorkerDisposing(a))
      else s'.(worker := InCallback(a))
  }

  ghost function NextCallback(s: State, a: Addr, reply: Reply): State
    requires a in s.heap
  {
    s.(heap := s.heap[a := s.heap[a].(reply := reply)], worker := Finishing(a),
    log := s.log + [Returned(s.heap[a].ticket, reply)])
  }

  ghost function NextWorkerFinish(s: State, a: Addr, woken: bool): State
    requires a in s.heap
  {
    var job := s.heap[a];
    if s.stopping || job.canceled then s.(jobs := Without(s.jobs, a), worker := WorkerDisposing(a))
    else
      var s' := s.(heap := s.heap[a := job.(state := Completed)]);
      if woken then s'.(pipe := s.pipe + multiset{Token(job.conn, a)}, worker := AtLock)
      else s'.(jobs := Without(s.jobs, a), worker := WorkerDisposing(a))
  }

  // ---------- the life of one submit call ----------

  predicate About(e: Event, t: Ticket) {
    !e.Closed? && e.ticket == t
  }

  /** The only lives a ticket may lead; anything else is `Broken`. */
  datatype Life =
    | Unseen
    | Waiting(conn: ConnId)
    | Answered(conn: ConnId, reply: Reply)
    | Delivered(conn: ConnId, reply: Reply)
    | Gone
    | Broken

  function Advance(life: Life, e: Event): Life {
    match (life, e)
    case (Unseen, Accepted(_, c)) => Waiting(c)
    case (Waiting(c), Returned(_, r)) => Answered(c, r)
    case (Answered(c, r), CompletionRan(_, c', r')) => if c == c' && r == r' then Delivered(c, r) else Broken
    case (_, Disposed(_)) => if life == Gone || life == Broken then Broken else Gone
    case _ => Broken
  }

  /** What the log says about ticket `t`. */
  function LifeOf(log: seq<Event>, t: Ticket): Life {
    if log == [] then Unseen
    else
      var life := LifeOf(log[..|log| - 1], t);
      if About(log[|log| - 1], t) then Advance(life, log[|log| - 1]) else life
  }

  lemma LifeAppend(log: seq<Event>, e: Event, t: Ticket)
    ensures LifeOf(log + [e], t) == if About(e, t) then Advance(LifeOf(log, t), e) else LifeOf(log, t)
  {
    assert (log + [e])[..|log|] == log;
  }

  /** How far the job at address `a` has come, from where the two threads stand: a job about to
      be disposed may have led any life so far, every other one exactly this life. */
  datatype Phase = Exactly(life: Life) | Ending

  function PhaseOf(a: Addr, j: Job, worker: WorkerPc, loop: LoopPc): Phase {
    if loop == Submitting(a) then Exactly(Unseen)
    else if loop == LoopDisposing(a) || worker == WorkerDisposing(a) then Ending
    else if j.state == Completed || worker == Finishing(a) || (loop.Completing? && loop.job == a) then
      Exactly(Answered(j.conn, j.reply))
    else Exactly(Waiting(j.conn))
  }

  predicate Leads(phase: Phase, life: Life) {
    match phase
    case Exactly(l) => life == l
    case Ending => life != Gone && life != Broken
  }

  // ---------- the invariant ----------

  /** The addresses a thread holds outside the list. */
  function LoopHolds(loop: LoopPc): set<Addr> {
    if loop.Submitting? || loop.Completing? || loop.LoopDisposing? then {loop.job} else {}
  }

  function WorkerHolds(worker: WorkerPc): set<Addr> {
    if worker.WorkerDisposing? then {worker.job} else {}
  }

  /** The job the worker is busy with. */
  predicate Busy(worker: WorkerPc, a: Addr) {
    worker == InCallback(a) || worker == Finishing(a)
  }

  ghost predicate Distinct(jobs: seq<Addr>) {
    forall i, j :: 0 <= i < j < |jobs| ==> jobs[i] != jobs[j]
  }

  ghost function Listed(jobs: seq<Addr>): set<Addr> {
    set a | a in jobs
  }

  /** Every allocated job is listed once or held by exactly one thread. */
  ghost predicate Ownership(heap: map<Addr, Job>, jobs: seq<Addr>, worker: WorkerPc, loop: LoopPc) {
    && 0 !in heap
    && Distinct(jobs)
    && heap.Keys == Listed(jobs) + LoopHolds(loop) + WorkerHolds(worker)
    && Listed(jobs) !! LoopHolds(loop) !! WorkerHolds(worker)
  }

  /** What the listed jobs look like. */
  ghost predicate ListShape(heap: map<Addr, Job>, jobs: seq<Addr>, worker: WorkerPc, live: set<ConnId>) {
    && (forall a :: a in jobs ==> a in heap)
    && (forall a :: a in jobs ==> ListedJob(a, heap[a], worker, live))
    && (forall a, b :: a in jobs && b in jobs && heap[a].conn == heap[b].conn ==> a == b)
    && (forall a :: Busy(worker, a) ==> a in jobs)
  }

  /** A listed job is RUNNING exactly when it is the worker's own; only a RUNNING one may be
      cancelled, and the connection of any other is open. */
  ghost predicate ListedJob(a: Addr, job: Job, worker: WorkerPc, live: set<ConnId>) {
    && (job.state == Running <==> Busy(worker, a))
    && (job.canceled ==> job.state == Running)
    && (!job.canceled ==> job.conn in live)
  }

  ghost predicate Control(s: State) {
    && (s.loop.Submitting? ==>
          && s.loop.job in s.heap
          && s.heap[s.loop.job].conn in s.live && s.heap[s.loop.job].state == Queued && !s.heap[s.loop.job].canceled)
    && (s.loop.Completing? ==>
          s.loop.job in s.heap && s.loop.conn in s.live && s.loop.conn == s.heap[s.loop.job].conn)
    && (!s.initialized ==> s.jobs == [] && s.worker == NoThread && s.loop == Idle)
    && (s.worker == NoThread ==> !s.initialized)
    && (s.stopping <==> s.loop == Joining)
    && (s.worker == Exited ==> s.stopping)
    && s.live <= s.known
    && (forall token :: token in s.pipe ==> token.conn in s.known)
  }

  ghost predicate Allocated(heap: map<Addr, Job>, t: Ticket) {
    exists a :: a in heap && heap[a].ticket == t
  }

  ghost predicate TicketsUnique(heap: map<Addr, Job>, nextTicket: Ticket) {
    && (forall a :: a in heap ==> heap[a].ticket < nextTicket)
    && (forall a, b :: a in heap && b in heap && heap[a].ticket == heap[b].ticket ==> a == b)
  }

  ghost predicate LiveLives(heap: map<Addr, Job>, worker: WorkerPc, loop: LoopPc, log: seq<Event>) {
    forall a :: a in heap ==> Leads(PhaseOf(a, heap[a], worker, loop), LifeOf(log, heap[a].ticket))
  }

  ghost predicate OtherLives(heap: map<Addr, Job>, nextTicket: Ticket, log: seq<Event>) {
    forall t: Ticket :: !Allocated(heap, t) ==> LifeOf(log, t) == (if t < nextTicket then Gone else Unseen)
  }

  ghost predicate Closings(log: seq<Event>, known: set<ConnId>, live: set<ConnId>) {
    && (forall c :: Closed(c) in log ==> c in known && c !in live)
    && NoCompletionAfterClose(log)
  }

  ghost predicate NoCompletionAfterClose(log: seq<Event>) {
    forall i, j :: 0 <= i < j < |log| && log[i].Closed? && log[j].CompletionRan? ==> log[i].conn != log[j].conn
  }

  /** A pending token of an open, never cancelled connection names a listed COMPLETED job of
      that connection, and there is one such token at most. */
  ghost predicate Tokens(pipe: multiset<Token>, heap: map<Addr, Job>, jobs: seq<Addr>, active: set<ConnId>) {
    && (forall token :: token in pipe ==> token.job != 0)
    && (forall token :: token in pipe && token.conn in active ==> pipe[token] == 1 && Names(token, heap, jobs))
  }

  predicate Names(token: Token, heap: map<Addr, Job>, jobs: seq<Addr>) {
    && token.job in jobs && token.job in heap
    && heap[token.job].state == Completed && heap[token.job].conn == token.conn
  }

  ghost predicate Core(s: State) {
    && Ownership(s.heap, s.jobs, s.worker, s.loop)
    && ListShape(s.heap, s.jobs, s.worker, s.live)
    && Control(s)
    && TicketsUnique(s.heap, s.nextTicket)
    && LiveLives(s.heap, s.worker, s.loop, s.log)
    && OtherLives(s.heap, s.nextTicket, s.log)
    && Closings(s.log, s.known, s.live)
  }

  ghost predicate Inv(s: State) {
    Core(s) && (s.initialized && !s.stopping ==> Tokens(s.pipe, s.heap, s.jobs, s.live - s.cut))
  }
}

/** The loop thread of notification.c, which edits the rules and emits events, and the worker, which
    takes jobs.  A step is one locked region.  Submit is the job of notification_test_webhook. */
module NotificationThreads {
  import opened Basics
  import opened NotificationRules
  import Runs = NotificationRuns
  import opened NotificationQueue

  /** Where the loop thread is inside notification_emit. */
  datatype Pc =
    | Between
    | Looked(index: nat, event: int, text: string, now: int)
    | Queued(index: nat, now: int)

  datatype State = State(rules: Runs.State, queue: seq<Job>, accepted: seq<Job>, taken: seq<Job>, exited: bool, pc: Pc)

  datatype Step =
    | Edit(op: Runs.Op)
    | Look(event: int, text: string, now: int, ready: bool)
    | Enqueue
    | Note
    | Submit(job: Job)
    | Take
    | Exit

  function NoteSlots(slots: seq<Slot>, index: nat, now: int): seq<Slot> {
    if index < |slots| then slots[index := slots[index].(last := now)] else slots
  }

  predicate Enabled(t: State, step: Step) {
    match step
    case Edit(op) => t.pc.Between? && !op.OpEmit? && Runs.Environment(t.rules, op)
    case Look(_, _, now, _) => t.pc.Between? && now > 0 && now >= t.rules.clock
    case Enqueue => t.pc.Looked?
    case Note => t.pc.Queued?
    case Submit(_) => t.pc.Between?
    case Take => !t.exited && t.queue != []
    case Exit => !t.exited
  }

  function Next(e: Events, t: State, max: nat, step: Step): State
    requires Enabled(t, step)
  {
    match step
    case Edit(op) => t.(rules := Runs.Apply(e, t.rules, max, op))
    case Look(event, text, now, ready) =>
      var index := FindWanting(t.rules.slots, event, now);
      if 0 <= event < e.count && index >= 0 && ready then t.(pc := Looked(index, event, text, now))
      else t.(rules := t.rules.(clock := now))
    case Enqueue => NextEnqueue(t, t.pc.index, t.pc.event, t.pc.text, t.pc.now)
    case Note => t.(rules := t.rules.(slots := NoteSlots(t.rules.slots, t.pc.index, t.pc.now)), pc := Between)
    case Submit(job) =>
      if |t.queue| >= QueueSize then t else t.(queue := t.queue + [job], accepted := t.accepted + [job])
    case Take => t.(queue := t.queue[1..], taken := t.taken + [t.queue[0]])
    case Exit => t.(queue := [], exited := true)
  }

  /** The queue of a worker that has exited still takes jobs until it is joined. */
  function NextEnqueue(t: State, index: nat, event: int, text: string, now: int): State {
    var rules := t.rules.(clock := now);
    if |t.queue| >= QueueSize || index >= |rules.slots| then t.(rules := rules, pc := Between)
    else
      var job := Job(event, text, false);
      t.(rules := rules.(sent := rules.sent + [Runs.SentFor(rules.slots[index].rule, now)]),
      queue := t.queue + [job], accepted := t.accepted + [job], pc := Queued(index, now))
  }

  /** The rules as if an emit that has queued its job had also noted it. */
  function Seen(t: State): Runs.State {
    if t.pc.Queued? then t.rules.(slots := NoteSlots(t.rules.slots, t.pc.index, t.pc.now)) else t.rules
  }

  /** What a look has found is still so, as the worker does not touch it. */
  predicate LookHolds(e: Events, t: State) {
    t.pc.Looked? ==>
      0 <= t.pc.event < e.count && t.pc.index == FindWanting(t.rules.slots, t.pc.event, t.pc.now)
      && t.pc.now > 0 && t.pc.now >= t.rules.clock
  }

  predicate Fifo(t: State) {
    && |t.queue| <= QueueSize && Prefix(t.taken, t.accepted)
    && (!t.exited ==> t.accepted == t.taken + t.queue)
  }

  /** Every step is, for the rules, one operation that nothing interrupts, or no operation at all:
      the three regions of an emit act together where it queues its job. */
  lemma StepIsOperation(e: Events, t: State, max: nat, step: Step) returns (op: Runs.Op, acts: bool)
    requires LookHolds(e, t) && Enabled(t, step)
    ensures LookHolds(e, Next(e, t, max, step))
    ensures if acts then Runs.Environment(Seen(t), op) && Seen(Next(e, t, max, step)) == Runs.Apply(e, Seen(t), max, op)
            else Seen(Next(e, t, max, step)) == Seen(t)
    ensures acts <==> step.Edit? || step.Enqueue? || (step.Look? && Next(e, t, max, step).pc.Between?)
    ensures step.Edit? ==> op == step.op
    ensures step.Look? ==> op == Runs.OpEmit(step.event, step.now, step.ready, true)
    ensures step.Enqueue? ==> op == Runs.OpEmit(t.pc.event, t.pc.now, true, |t.queue| < QueueSize)
  {
    match step
    case Edit(o) => op, acts := o, true;
    case Look(event, text, now, ready) => op, acts := Runs.OpEmit(event, now, ready, true), Next(e, t, max, step).pc.Between?;
    case Enqueue => op, acts := Runs.OpEmit(t.pc.event, t.pc.now, true, |t.queue| < QueueSize), true;
    case Note => op, acts := Runs.OpDelete(0, false), false;
    case Submit(_) => op, acts := Runs.OpDelete(0, false), false;
    case Take => op, acts := Runs.OpDelete(0, false), false;
    case Exit => op, acts := Runs.OpDelete(0, false), false;
  }

  lemma StepKeepsFifo(e: Events, t: State, max: nat, step: Step)
    requires Fifo(t) && Enabled(t, step)
    ensures Fifo(Next(e, t, max, step))
  {
    var t' := Next(e, t, max, step);
    if step.Take? {
      assert t.taken + t.queue == t'.taken + t'.queue;
    }
  }

  /** A run of both threads, from the rules that were loaded. */
  predicate Run(e: Events, states: seq<State>, max: nat, steps: seq<Step>) {
    && |states| == |steps| + 1 && Started(states[0])
    && forall i :: 0 <= i < |steps| ==> Enabled(states[i], steps[i]) && states[i + 1] == Next(e, states[i], max, steps[i])
  }

  predicate Started(t: State) {
    && t.queue == t.accepted == t.taken == [] && !t.exited && t.pc.Between?
    && Unique(t.rules.slots) && t.rules.sent == [] && Runs.Known(t.rules.slots, [], t.rules.used)
    && forall i :: 0 <= i < |t.rules.slots| ==> t.rules.slots[i].last == 0
  }

  /** In every interleaving of the two threads: event types stay unique, the events sent for a rule
      are its cooldown apart, and each rule has its own last-sent time, but for the one whose job
      has just been queued and will be noted next; and the worker takes the jobs in the order in
      which they were accepted, of which at most 8 wait. */
  lemma {:induction false} ThreadsHold(e: Events, states: seq<State>, max: nat, steps: seq<Step>, n: nat)
    requires Run(e, states, max, steps) && n < |states|
    ensures var t := states[n];
      && LookHolds(e, t) && Runs.Inv(Seen(t)) && Fifo(t)
      && Unique(t.rules.slots) && Runs.Spaced(t.rules.sent)
      && forall i :: 0 <= i < |t.rules.slots| && !(t.pc.Queued? && t.pc.index == i) ==>
        t.rules.slots[i].last == Runs.LastSent(t.rules.sent, t.rules.slots[i].rule.id)
  {
    if n > 0 {
      var t, step := states[n - 1], steps[n - 1];
      ThreadsHold(e, states, max, steps, n - 1);
      var op, acts := StepIsOperation(e, t, max, step);
      if acts {
        Runs.OpKeeps(e, Seen(t), max, op);
      }
      StepKeepsFifo(e, t, max, step);
    }
    SeenIsUnique(states[n]);
  }

  lemma SeenIsUnique(t: State)
    requires Runs.Inv(Seen(t))
    ensures Unique(t.rules.slots) && Runs.Spaced(t.rules.sent)
    ensures forall i :: 0 <= i < |t.rules.slots| && !(t.pc.Queued? && t.pc.index == i) ==>
      t.rules.slots[i].last == Runs.LastSent(t.rules.sent, t.rules.slots[i].rule.id)
  {
    assert Seen(t).sent == t.rules.sent && |Seen(t).slots| == |t.rules.slots|;
    assert forall i :: 0 <= i < |t.rules.slots| ==> Seen(t).slots[i].rule == t.rules.slots[i].rule;
  }
}

/** The rules over a whole run. */
module NotificationRuns {
  import opened NotificationRules

  datatype Op =
    | OpAdd(rule: Rule, id: int, dbOk: bool)
    | OpUpdate(rule: Rule, dbOk: bool)
    | OpDelete(id: int, dbOk: bool)
    | OpEmit(event: int, now: int, ready: bool, room: bool)

  /** An event that was put on the queue for a rule, with the cooldown the rule had then. */
  datatype Sent = Sent(id: int, event: int, time: int, cooldown: int)

  /** `used` are the row ids that were ever given out, `clock` the time of the last event. */
  datatype State = State(slots: seq<Slot>, sent: seq<Sent>, clock: int, used: set<int>)

  function Apply(e: Events, s: State, max: nat, op: Op): State {
    match op
    case OpAdd(r, id, dbOk) =>
      s.(slots := Add(e, s.slots, max, r, id, dbOk), used := if Adds(e, s.slots, max, r, id, dbOk) then s.used + {id} else s.used)
    case OpUpdate(r, dbOk) => s.(slots := Update(e, s.slots, r, dbOk))
    case OpDelete(id, dbOk) => s.(slots := Delete(s.slots, id, dbOk))
    case OpEmit(event, now, ready, room) =>
      s.(slots := Emit(e, s.slots, event, now, ready, room), clock := now,
      sent := if Sends(e, s.slots, event, now, ready, room)
              then s.sent + [SentFor(s.slots[FindWanting(s.slots, event, now)].rule, now)] else s.sent)
  }

  function SentFor(r: Rule, now: int): Sent {
    Sent(r.id, r.event, now, r.cooldown)
  }

  /** SQLite never gives an id twice; the clock is positive and does not go back. */
  predicate Environment(s: State, op: Op) {
    match op
    case OpAdd(_, id, _) => id !in s.used
    case OpEmit(_, now, _, _) => now > 0 && now >= s.clock
    case _ => true
  }

  /** When the rule last sent something, or 0. */
  function LastSent(sent: seq<Sent>, id: int): int {
    if sent == [] then 0
    else if sent[|sent| - 1].id == id then sent[|sent| - 1].time
    else LastSent(sent[..|sent| - 1], id)
  }

  /** Two events of one rule are at least its cooldown apart. */
  predicate Spaced(sent: seq<Sent>) {
    forall i, j :: 0 <= i < j < |sent| && sent[i].id == sent[j].id ==> sent[j].time - sent[i].time >= sent[j].cooldown
  }

  predicate Timely(sent: seq<Sent>, clock: int) {
    && (forall i :: 0 <= i < |sent| ==> 0 < sent[i].time <= clock)
    && forall i, j :: 0 <= i < j < |sent| ==> sent[i].time <= sent[j].time
  }

  predicate Tracked(slots: seq<Slot>, sent: seq<Sent>) {
    forall i :: 0 <= i < |slots| ==> slots[i].last == LastSent(sent, slots[i].rule.id)
  }

  /** Every id in use, now or in the past, was given out. */
  predicate Known(slots: seq<Slot>, sent: seq<Sent>, used: set<int>) {
    && (forall i :: 0 <= i < |slots| ==> slots[i].rule.id in used)
    && forall i :: 0 <= i < |sent| ==> sent[i].id in used
  }

  predicate Inv(s: State) {
    Unique(s.slots) && Tracked(s.slots, s.sent) && Spaced(s.sent) && Timely(s.sent, s.clock) && Known(s.slots, s.sent, s.used)
  }

  // ---------- what the operations on the rules decide ----------

  /** Which rules are valid, by event type. */
  lemma ValidIs(e: Events, r: Rule)
    ensures ValidRule(e, r) <==>
      && 0 <= r.event < e.count && (r.enabled == 0 || r.enabled == 1) && 0 <= r.cooldown <= 86400
      && if r.event == e.signalLow then
           (r.unit == "percent" && 0.0 <= r.threshold <= 100.0) || (r.unit == "dbm" && -200.0 <= r.threshold <= 0.0)
         else if r.event == e.traffic then
           (r.unit == "percent" && 0.0 <= r.threshold <= 100.0) || (r.unit == "bytes" && 0.0 <= r.threshold)
         else r.unit == "state" && 0.0 <= r.threshold
  {
    assert "percent"[0] != "dbm"[0] && "percent"[0] != "bytes"[0] && "percent"[0] != "state"[0];
    assert "dbm"[0] != "bytes"[0] && "dbm"[0] != "state"[0];
  }

  /** A valid rule that is enabled is added if there is room and its event type has none yet. */
  lemma AddDecides(e: Events, slots: seq<Slot>, max: nat, r: Rule, id: int, dbOk: bool)
    ensures var adds := && ValidRule(e, r) && r.enabled == 1 && |slots| < max && dbOk && id > 0
                        && forall k :: 0 <= k < |slots| ==> slots[k].rule.event != r.event;
      && (Adds(e, slots, max, r, id, dbOk) <==> adds)
      && Add(e, slots, max, r, id, dbOk) ==
           if adds then slots + [Slot(Rule(id, r.event, 1, r.threshold, r.unit, r.cooldown), 0)] else slots
  {
  }

  /** A rule is replaced under its id, and keeps its last-sent time, if no other one has its event
      type; the others stay as they are. */
  lemma UpdateDecides(e: Events, slots: seq<Slot>, r: Rule, dbOk: bool)
    requires Unique(slots)
    ensures var slots' := Update(e, slots, r, dbOk);
      && (Updates(e, slots, r, dbOk) <==>
            && r.id > 0 && ValidRule(e, r) && r.enabled == 1 && dbOk && (exists i :: 0 <= i < |slots| && slots[i].rule.id == r.id)
            && forall k :: 0 <= k < |slots| && slots[k].rule.event == r.event ==> slots[k].rule.id == r.id)
      && |slots'| == |slots|
      && forall k :: 0 <= k < |slots| ==>
           slots'[k] == if Updates(e, slots, r, dbOk) && slots[k].rule.id == r.id then Slot(r, slots[k].last) else slots[k]
  {
    var i, j := FindRule(slots, r.id), FindEvent(slots, r.event);
    if i >= 0 && j >= 0 && slots[j].rule.id == r.id {
      assert i == j;
    }
  }

  /** Exactly the rule with the id goes, with its last-sent time. */
  lemma DeleteDecides(slots: seq<Slot>, id: int, dbOk: bool)
    requires Unique(slots)
    ensures Deletes(slots, id, dbOk) <==> dbOk && exists i :: 0 <= i < |slots| && slots[i].rule.id == id
    ensures forall i :: 0 <= i < |slots| && slots[i].rule.id == id && dbOk ==>
      Delete(slots, id, dbOk) == slots[..i] + slots[i + 1..]
    ensures !Deletes(slots, id, dbOk) ==> Delete(slots, id, dbOk) == slots
  {
    var i := FindRule(slots, id);
    assert i >= 0 ==> forall k :: 0 <= k < |slots| && slots[k].rule.id == id ==> k == i;
  }

  // ---------- the log ----------

  lemma {:induction false} LastSentIs(sent: seq<Sent>, clock: int, id: int)
    requires Timely(sent, clock)
    ensures forall i :: 0 <= i < |sent| && sent[i].id == id ==> 0 < sent[i].time <= LastSent(sent, id) <= clock
  {
    if sent != [] && sent[|sent| - 1].id != id {
      LastSentIs(sent[..|sent| - 1], clock, id);
    }
  }

  lemma {:induction false} NeverSent(sent: seq<Sent>, id: int)
    requires forall i :: 0 <= i < |sent| ==> sent[i].id != id
    ensures LastSent(sent, id) == 0
  {
    if sent != [] {
      NeverSent(sent[..|sent| - 1], id);
    }
  }

  lemma LastSentSnoc(sent: seq<Sent>, x: Sent, id: int)
    ensures LastSent(sent + [x], id) == if x.id == id then x.time else LastSent(sent, id)
  {
    assert (sent + [x])[..|sent|] == sent;
  }

  // ---------- every operation keeps the invariant ----------

  lemma AddKeeps(e: Events, s: State, max: nat, op: Op)
    requires Inv(s) && Environment(s, op) && op.OpAdd?
    ensures Inv(Apply(e, s, max, op))
  {
    if Adds(e, s.slots, max, op.rule, op.id, op.dbOk) {
      NeverSent(s.sent, op.id);
    }
  }

  lemma UpdateKeeps(e: Events, s: State, max: nat, op: Op)
    requires Inv(s) && op.OpUpdate?
    ensures Inv(Apply(e, s, max, op))
  {
  }

  lemma DeleteKeeps(e: Events, s: State, max: nat, op: Op)
    requires Inv(s) && op.OpDelete?
    ensures Inv(Apply(e, s, max, op))
  {
    var s' := Apply(e, s, max, op);
    var i := FindRule(s.slots, op.id);
    if Deletes(s.slots, op.id, op.dbOk) {
      assert forall k :: 0 <= k < |s'.slots| ==> s'.slots[k] == s.slots[if k < i then k else k + 1];
    }
  }

  lemma EmitKeeps(e: Events, s: State, max: nat, op: Op)
    requires Inv(s) && Environment(s, op) && op.OpEmit?
    ensures Inv(Apply(e, s, max, op))
  {
    if Sends(e, s.slots, op.event, op.now, op.ready, op.room) {
      var i := FindWanting(s.slots, op.event, op.now);
      var x := SentFor(s.slots[i].rule, op.now);
      SendIsSpaced(s, i, x);
      SendIsTracked(s, i, x);
    }
  }

  lemma SendIsTracked(s: State, i: nat, x: Sent)
    requires Inv(s) && i < |s.slots| && x == SentFor(s.slots[i].rule, x.time)
    ensures Tracked(s.slots[i := s.slots[i].(last := x.time)], s.sent + [x])
  {
    forall k | 0 <= k < |s.slots|
      ensures LastSent(s.sent + [x], s.slots[k].rule.id) == if k == i then x.time else s.slots[k].last
    {
      LastSentSnoc(s.sent, x, s.slots[k].rule.id);
    }
  }

  lemma SendIsSpaced(s: State, i: nat, x: Sent)
    requires Inv(s) && i < |s.slots| && x == SentFor(s.slots[i].rule, x.time) && x.time >= s.clock
    requires CooldownElapsed(x.time, s.slots[i].last, x.cooldown)
    ensures Spaced(s.sent + [x])
  {
    LastSentIs(s.sent, s.clock, x.id);
  }

  lemma OpKeeps(e: Events, s: State, max: nat, op: Op)
    requires Inv(s) && Environment(s, op)
    ensures Inv(Apply(e, s, max, op))
  {
    if op.OpAdd? {
      AddKeeps(e, s, max, op);
    } else if op.OpUpdate? {
      UpdateKeeps(e, s, max, op);
    } else if op.OpDelete? {
      DeleteKeeps(e, s, max, op);
    } else {
      EmitKeeps(e, s, max, op);
    }
  }

  /** A run from the rules that were loaded, with nothing sent yet. */
  predicate Run(e: Events, states: seq<State>, max: nat, ops: seq<Op>) {
    && |states| == |ops| + 1
    && Unique(states[0].slots) && states[0].sent == [] && Known(states[0].slots, [], states[0].used)
    && (forall i :: 0 <= i < |states[0].slots| ==> states[0].slots[i].last == 0)
    && forall i :: 0 <= i < |ops| ==> Environment(states[i], ops[i]) && states[i + 1] == Apply(e, states[i], max, ops[i])
  }

  /** Over any run: event types stay unique; each rule has its own last-sent time, whatever was
      deleted before it; and the events sent for a rule are its cooldown apart. */
  lemma {:induction false} RulesHold(e: Events, states: seq<State>, max: nat, ops: seq<Op>, n: nat)
    requires Run(e, states, max, ops) && n < |states|
    ensures var s := states[n]; Unique(s.slots) && Tracked(s.slots, s.sent) && Spaced(s.sent) && Inv(s)
  {
    if n > 0 {
      RulesHold(e, states, max, ops, n - 1);
      OpKeeps(e, states[n - 1], max, ops[n - 1]);
    }
  }

  /** The newest event of the rule with this id. */
  predicate Latest(sent: seq<Sent>, id: int, k: int) {
    0 <= k < |sent| && sent[k].id == id && forall m :: k < m < |sent| ==> sent[m].id != id
  }

  /** It is the one that LastSent finds; -1 if there is none. */
  lemma {:induction false} LatestIsLastSent(sent: seq<Sent>, id: int) returns (k: int)
    ensures k == -1 || (Latest(sent, id, k) && LastSent(sent, id) == sent[k].time)
    ensures k == -1 ==> forall m :: 0 <= m < |sent| ==> sent[m].id != id
  {
    var n := |sent| - 1;
    if sent == [] {
      k := -1;
    } else if sent[n].id == id {
      k := n;
    } else {
      k := LatestIsLastSent(sent[..n], id);
      assert forall m :: 0 <= m < n ==> sent[..n][m] == sent[m];
    }
  }

  /** The rule may send: it is enabled, and it has no cooldown, has sent nothing yet, or its newest
      event is at least the cooldown ago, or lies in the future. */
  predicate Free(r: Rule, sent: seq<Sent>, now: int) {
    r.enabled != 0 &&
    (|| r.cooldown <= 0
     || (forall k :: 0 <= k < |sent| ==> sent[k].id != r.id)
     || exists k :: 0 <= k < |sent| && Latest(sent, r.id, k) && (now < sent[k].time || now - sent[k].time >= r.cooldown))
  }

  lemma FreeIsElapsed(r: Rule, sent: seq<Sent>, clock: int, now: int)
    requires Timely(sent, clock)
    ensures Free(r, sent, now) <==> r.enabled != 0 && CooldownElapsed(now, LastSent(sent, r.id), r.cooldown)
  {
    var k := LatestIsLastSent(sent, r.id);
    if k == -1 {
      NeverSent(sent, r.id);
    } else {
      assert forall m :: Latest(sent, r.id, m) ==> m == k;
    }
  }

  /** An event is sent exactly when its rule, if there is one, may send by the history, the webhook is
      ready and the queue has room; and only then is the cooldown consumed. */
  lemma EmitSends(e: Events, s: State, max: nat, op: Op)
    requires Inv(s) && op.OpEmit? && 0 <= op.event < e.count
    ensures var i := FindEvent(s.slots, op.event);
      if op.ready && op.room && i >= 0 && Free(s.slots[i].rule, s.sent, op.now)
      then Apply(e, s, max, op) == s.(slots := s.slots[i := s.slots[i].(last := op.now)], clock := op.now,
                                      sent := s.sent + [SentFor(s.slots[i].rule, op.now)])
      else Apply(e, s, max, op) == s.(clock := op.now)
  {
    var i, j := FindEvent(s.slots, op.event), FindWanting(s.slots, op.event, op.now);
    if i >= 0 {
      FreeIsElapsed(s.slots[i].rule, s.sent, s.clock, op.now);
    }
    if i >= 0 && j >= 0 {
      assert s.slots[i].rule.event == s.slots[j].rule.event;
    }
  }
}

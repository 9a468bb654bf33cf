/** The notification rules and their cooldowns, as kept by notification.c beside the table
    notification_entries. */
module NotificationRules {
  const MaxCooldown := 86400

  /** `unit` is the unit of the threshold. */
  datatype Rule = Rule(id: int, event: int, enabled: int, threshold: real, unit: string, cooldown: int)

  datatype Slot = Slot(rule: Rule, last: int)

  /** The numbers of the event types, in the order of the enumeration. */
  datatype Events = Events(count: int, signalLow: int, traffic: int)

  // ---------- notification_rules.c ----------

  predicate ValidUnit(e: Events, event: int, unit: string) {
    if event == e.signalLow then unit == "percent" || unit == "dbm"
    else if event == e.traffic then unit == "percent" || unit == "bytes"
    else unit == "state"
  }

  predicate ValidRule(e: Events, r: Rule) {
    && 0 <= r.event < e.count && 0 <= r.enabled <= 1 && ValidUnit(e, r.event, r.unit)
    && 0 <= r.cooldown <= MaxCooldown
    && (r.unit == "percent" ==> 0.0 <= r.threshold <= 100.0)
    && (r.unit == "dbm" ==> -200.0 <= r.threshold <= 0.0)
    && (r.unit != "dbm" ==> r.threshold >= 0.0)
  }

  predicate CooldownElapsed(now: int, last: int, cooldown: int) {
    last <= 0 || cooldown <= 0 || now < last || now - last >= cooldown
  }

  // ---------- the rules ----------

  function FindRule(slots: seq<Slot>, id: int): (i: int)
    ensures -1 <= i < |slots|
    ensures i >= 0 ==> slots[i].rule.id == id
    ensures i < 0 ==> forall k :: 0 <= k < |slots| ==> slots[k].rule.id != id
  {
    if slots == [] then -1
    else
      var i := FindRule(slots[..|slots| - 1], id);
      if i >= 0 then i else if slots[|slots| - 1].rule.id == id then |slots| - 1 else -1
  }

  function FindEvent(slots: seq<Slot>, event: int): (i: int)
    ensures -1 <= i < |slots|
    ensures i >= 0 ==> slots[i].rule.event == event
    ensures i < 0 ==> forall k :: 0 <= k < |slots| ==> slots[k].rule.event != event
  {
    if slots == [] then -1
    else
      var i := FindEvent(slots[..|slots| - 1], event);
      if i >= 0 then i else if slots[|slots| - 1].rule.event == event then |slots| - 1 else -1
  }

  predicate Wants(s: Slot, event: int, now: int) {
    s.rule.event == event && s.rule.enabled != 0 && CooldownElapsed(now, s.last, s.rule.cooldown)
  }

  /** The first slot that wants the event. */
  function FindWanting(slots: seq<Slot>, event: int, now: int): (i: int)
    ensures -1 <= i < |slots|
    ensures i >= 0 ==> Wants(slots[i], event, now)
    ensures i < 0 ==> forall k :: 0 <= k < |slots| ==> !Wants(slots[k], event, now)
  {
    if slots == [] then -1
    else
      var i := FindWanting(slots[..|slots| - 1], event, now);
      if i >= 0 then i else if Wants(slots[|slots| - 1], event, now) then |slots| - 1 else -1
  }

  /** `id` is the row that SQLite gives the rule, if the insertion succeeds. */
  predicate Adds(e: Events, slots: seq<Slot>, max: nat, r: Rule, id: int, dbOk: bool) {
    ValidRule(e, r) && r.enabled == 1 && FindEvent(slots, r.event) < 0 && |slots| < max && dbOk && id > 0
  }

  function Add(e: Events, slots: seq<Slot>, max: nat, r: Rule, id: int, dbOk: bool): seq<Slot> {
    if Adds(e, slots, max, r, id, dbOk) then slots + [Slot(r.(id := id), 0)] else slots
  }

  predicate Updates(e: Events, slots: seq<Slot>, r: Rule, dbOk: bool) {
    && r.id > 0 && ValidRule(e, r) && r.enabled == 1 && dbOk && FindRule(slots, r.id) >= 0
    && (FindEvent(slots, r.event) < 0 || FindEvent(slots, r.event) == FindRule(slots, r.id))
  }

  function Update(e: Events, slots: seq<Slot>, r: Rule, dbOk: bool): seq<Slot> {
    if Updates(e, slots, r, dbOk) then slots[FindRule(slots, r.id) := slots[FindRule(slots, r.id)].(rule := r)] else slots
  }

  predicate Deletes(slots: seq<Slot>, id: int, dbOk: bool) {
    FindRule(slots, id) >= 0 && dbOk
  }

  function Delete(slots: seq<Slot>, id: int, dbOk: bool): seq<Slot> {
    var i := FindRule(slots, id);
    if Deletes(slots, id, dbOk) then slots[..i] + slots[i + 1..] else slots
  }

  /** `ready` is whether the webhook is configured and enabled, `room` whether the queue takes the
      job. */
  predicate Sends(e: Events, slots: seq<Slot>, event: int, now: int, ready: bool, room: bool) {
    0 <= event < e.count && FindWanting(slots, event, now) >= 0 && ready && room
  }

  function Emit(e: Events, slots: seq<Slot>, event: int, now: int, ready: bool, room: bool): seq<Slot> {
    var i := FindWanting(slots, event, now);
    if Sends(e, slots, event, now, ready, room) then slots[i := slots[i].(last := now)] else slots
  }

  predicate Unique(slots: seq<Slot>) {
    forall i, j :: 0 <= i < j < |slots| ==>
      slots[i].rule.event != slots[j].rule.event && slots[i].rule.id != slots[j].rule.id
  }
}

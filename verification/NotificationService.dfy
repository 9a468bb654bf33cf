/** notification.c with its parallel arrays of rules and last-sent times, each operation proved
    against NotificationRules.  The rules are edited by one caller at a time. */
module NotificationService {
  import opened NotificationRules
  import opened NotificationQueue

  function Slots(rules: seq<Rule>, last: seq<int>): (r: seq<Slot>)
    requires |rules| == |last|
    ensures |r| == |rules| && forall i :: 0 <= i < |r| ==> r[i] == Slot(rules[i], last[i])
  {
    seq(|rules|, i requires 0 <= i < |rules| => Slot(rules[i], last[i]))
  }

  const NoRule := Rule(0, 0, 0, 0.0, "", 0)

  class Service {
    const events: Events
    const rules: array<Rule>
    const lastSent: array<int>
    var ruleCount: nat
    var ready: bool
    const queue: Queue

    predicate Valid()
      reads this
    {
      rules.Length == lastSent.Length && ruleCount <= rules.Length
    }

    function View(): seq<Slot>
      requires Valid()
      reads this, rules, lastSent
    {
      Slots(rules[..ruleCount], lastSent[..ruleCount])
    }

    /** What load_rules found in the table; `capacity` is NOTIFICATION_MAX_RULES. */
    constructor (events: Events, loaded: seq<Rule>, capacity: nat, queue: Queue)
      requires |loaded| <= capacity
      ensures Valid() && rules.Length == capacity && this.queue == queue && this.events == events
      ensures View() == Slots(loaded, seq(|loaded|, _ => 0))
      ensures fresh(rules) && fresh(lastSent)
    {
      this.events, this.queue, ready, ruleCount := events, queue, false, |loaded|;
      rules := new Rule[capacity](i => if 0 <= i < |loaded| then loaded[i] else NoRule);
      lastSent := new int[capacity](_ => 0);
    }

    method FindRuleIndex(id: int) returns (index: int)
      requires Valid()
      ensures index == FindRule(View(), id)
    {
      for i := 0 to ruleCount
        invariant FindRule(View()[..i], id) < 0
      {
        assert View()[..i + 1][..i] == View()[..i];
        if rules[i].id == id {
          FindRuleStays(View(), i + 1, id);
          return i;
        }
      }
      assert View()[..ruleCount] == View();
      return -1;
    }

    method FindEventIndex(event: int) returns (index: int)
      requires Valid()
      ensures index == FindEvent(View(), event)
    {
      for i := 0 to ruleCount
        invariant FindEvent(View()[..i], event) < 0
      {
        assert View()[..i + 1][..i] == View()[..i];
        if rules[i].event == event {
          FindEventStays(View(), i + 1, event);
          return i;
        }
      }
      assert View()[..ruleCount] == View();
      return -1;
    }

    method FindWantingIndex(event: int, now: int) returns (index: int)
      requires Valid()
      ensures index == FindWanting(View(), event, now)
    {
      for i := 0 to ruleCount
        invariant FindWanting(View()[..i], event, now) < 0
      {
        assert View()[..i + 1][..i] == View()[..i];
        if rules[i].event == event && rules[i].enabled != 0 && CooldownElapsed(now, lastSent[i], rules[i].cooldown) {
          FindWantingStays(View(), i + 1, event, now);
          return i;
        }
      }
      assert View()[..ruleCount] == View();
      return -1;
    }

    method AddRule(rule: Rule, id: int, dbOk: bool) returns (result: int)
      requires Valid()
      modifies this`ruleCount, rules, lastSent
      ensures Valid() && View() == Add(events, old(View()), rules.Length, rule, id, dbOk)
      ensures result == 0 <==> Adds(events, old(View()), rules.Length, rule, id, dbOk)
    {
      if !ValidRule(events, rule) || rule.enabled != 1 {
        return -1;
      }
      var duplicate := FindEventIndex(rule.event);
      if duplicate >= 0 || ruleCount >= rules.Length || !dbOk || id <= 0 {
        return -1;
      }
      ghost var before := View();
      rules[ruleCount] := rule.(id := id);
      lastSent[ruleCount] := 0;
      ruleCount := ruleCount + 1;
      assert View() == before + [Slot(rule.(id := id), 0)];
      return 0;
    }

    method UpdateRule(rule: Rule, dbOk: bool) returns (result: int)
      requires Valid()
      modifies rules
      ensures View() == Update(events, old(View()), rule, dbOk)
      ensures result == 0 <==> Updates(events, old(View()), rule, dbOk)
    {
      if rule.id <= 0 || !ValidRule(events, rule) || rule.enabled != 1 {
        return -1;
      }
      var index := FindRuleIndex(rule.id);
      var duplicate := FindEventIndex(rule.event);
      if duplicate >= 0 && duplicate != index {
        index := -1;
      }
      if index < 0 || !dbOk {
        return -1;
      }
      rules[index] := rule;
      return 0;
    }

    method DeleteRule(id: int, dbOk: bool) returns (result: int)
      requires Valid()
      modifies this`ruleCount, rules, lastSent
      ensures Valid() && View() == Delete(old(View()), id, dbOk)
      ensures result == 0 <==> Deletes(old(View()), id, dbOk)
    {
      var index := FindRuleIndex(id);
      if index < 0 || !dbOk {
        return -1;
      }
      DropSlot(index);
      return 0;
    }

    method DropSlot(index: nat)
      requires Valid() && index < ruleCount
      modifies this`ruleCount, rules, lastSent
      ensures Valid() && View() == old(View())[..index] + old(View())[index + 1..]
    {
      ghost var before := View();
      ShiftDown(index);
      ghost var after := before[..index] + before[index + 1..];
      forall k | 0 <= k < ruleCount - 1 ensures Slot(rules[k], lastSent[k]) == after[k] {
        assert before[if k < index then k else k + 1] == after[k];
      }
      ruleCount := ruleCount - 1;
      rules[ruleCount] := NoRule;
      lastSent[ruleCount] := 0;
    }

    /** Both arrays move together. */
    method ShiftDown(index: nat)
      requires Valid() && index < ruleCount
      modifies rules, lastSent
      ensures forall k :: 0 <= k < index ==> rules[k] == old(rules[k]) && lastSent[k] == old(lastSent[k])
      ensures forall k :: index <= k < ruleCount - 1 ==> rules[k] == old(rules[k + 1]) && lastSent[k] == old(lastSent[k + 1])
    {
      var i := index;
      while i + 1 < ruleCount
        invariant index <= i < ruleCount
        invariant forall k :: 0 <= k < index || i <= k < ruleCount ==> rules[k] == old(rules[k]) && lastSent[k] == old(lastSent[k])
        invariant forall k :: index <= k < i ==> rules[k] == old(rules[k + 1]) && lastSent[k] == old(lastSent[k + 1])
      {
        rules[i] := rules[i + 1];
        lastSent[i] := lastSent[i + 1];
        i := i + 1;
      }
    }

    /** The first locked region of notification_emit: the index of the rule, or -1. */
    method Look(event: int, now: int) returns (ruleIndex: int)
      requires Valid()
      ensures ruleIndex == if ready then FindWanting(View(), event, now) else -1
    {
      ruleIndex := FindWantingIndex(event, now);
      if ruleIndex < 0 || !ready {
        ruleIndex := -1;
      }
    }

    /** The third one; the second is that of enqueue_job. */
    method Note(ruleIndex: nat, now: int)
      requires Valid() && ruleIndex < ruleCount
      modifies lastSent
      ensures View() == old(View())[ruleIndex := old(View())[ruleIndex].(last := now)]
    {
      lastSent[ruleIndex] := now;
    }

    /** 0 also when no rule wants the event or the webhook is not ready. */
    method EmitEvent(event: int, text: string, now: int) returns (result: int)
      requires Valid() && queue.Valid() && queue.slots != (lastSent as object) && queue.slots != (rules as object)
      modifies lastSent, queue, queue.slots
      ensures queue.Valid()
      ensures var room := old(queue.running) && old(queue.count) < QueueSize;
        && View() == Emit(events, old(View()), event, now, ready, room)
        && queue.accepted == (if Sends(events, old(View()), event, now, ready, room)
                              then old(queue.accepted) + [Job(event, text, false)] else old(queue.accepted))
        && (result != 0 <==> !(0 <= event < events.count) || (FindWanting(old(View()), event, now) >= 0 && ready && !room))
    {
      if event < 0 || event >= events.count {
        return -1;
      }
      var ruleIndex := Look(event, now);
      if ruleIndex < 0 {
        return 0;
      }
      result := queue.Enqueue(Job(event, text, false));
      if result != 0 {
        return -1;
      }
      Note(ruleIndex, now);
      return 0;
    }
  }

  lemma {:induction false} FindRuleStays(slots: seq<Slot>, n: nat, id: int)
    requires n <= |slots| && FindRule(slots[..n], id) >= 0
    ensures FindRule(slots, id) == FindRule(slots[..n], id)
  {
    if n == |slots| {
      assert slots[..n] == slots;
    } else {
      FindRuleStays(slots[..|slots| - 1], n, id);
      assert slots[..|slots| - 1][..n] == slots[..n];
    }
  }

  lemma {:induction false} FindEventStays(slots: seq<Slot>, n: nat, event: int)
    requires n <= |slots| && FindEvent(slots[..n], event) >= 0
    ensures FindEvent(slots, event) == FindEvent(slots[..n], event)
  {
    if n == |slots| {
      assert slots[..n] == slots;
    } else {
      assert slots[..|slots| - 1][..n] == slots[..n];
      FindEventStays(slots[..|slots| - 1], n, event);
    }
  }

  lemma {:induction false} FindWantingStays(slots: seq<Slot>, n: nat, event: int, now: int)
    requires n <= |slots| && FindWanting(slots[..n], event, now) >= 0
    ensures FindWanting(slots, event, now) == FindWanting(slots[..n], event, now)
  {
    if n == |slots| {
      assert slots[..n] == slots;
    } else {
      assert slots[..|slots| - 1][..n] == slots[..n];
      FindWantingStays(slots[..|slots| - 1], n, event, now);
    }
  }

  // ---------- client sets ----------

  function MacSet(macs: seq<string>): set<string> {
    set m | m in macs
  }

  method MacExists(macs: seq<string>, mac: string) returns (found: bool)
    ensures found <==> mac in macs
  {
    for i := 0 to |macs|
      invariant mac !in macs[..i]
    {
      if macs[i] == mac {
        return true;
      }
    }
    return false;
  }

  /** notification_mac_set_changed. */
  method MacSetChanged(previous: seq<string>, current: seq<string>) returns (changed: bool)
    ensures changed <==> Changed(previous, current)
  {
    if |previous| != |current| {
      return true;
    }
    for i := 0 to |previous|
      invariant forall k :: 0 <= k < i ==> previous[k] in current
    {
      var found := MacExists(current, previous[i]);
      if !found {
        assert previous[i] in MacSet(previous) && previous[i] !in MacSet(current);
        return true;
      }
    }
    return false;
  }

  predicate Distinct(macs: seq<string>) {
    forall i, j :: 0 <= i < j < |macs| ==> macs[i] != macs[j]
  }

  /** The answer of MacSetChanged. */
  predicate Changed(previous: seq<string>, current: seq<string>) {
    |previous| != |current| || !(MacSet(previous) <= MacSet(current))
  }

  lemma {:induction false} SetSize(macs: seq<string>)
    ensures |MacSet(macs)| <= |macs|
    ensures Distinct(macs) <==> |MacSet(macs)| == |macs|
  {
    if macs != [] {
      var last, before := macs[|macs| - 1], macs[..|macs| - 1];
      SetSize(before);
      assert MacSet(macs) == MacSet(before) + {last};
      if last in MacSet(before) {
        var i :| 0 <= i < |before| && before[i] == last;
        assert macs[i] == macs[|macs| - 1];
      } else {
        assert forall i :: 0 <= i < |before| ==> macs[i] == before[i] && macs[i] in MacSet(before);
      }
    }
  }

  lemma SubsetOfSize(a: set<string>, b: set<string>)
    requires a <= b
    ensures a == b <==> |a| == |b|
  {
    assert b == a + (b - a);
  }

  /** Whether the answer is about the sets of addresses: it is if and only if some address went
      away, or the lists have as many entries exactly if they have as many addresses. */
  lemma ChangedIsExact(previous: seq<string>, current: seq<string>)
    ensures (Changed(previous, current) <==> MacSet(previous) != MacSet(current)) <==>
      !(MacSet(previous) <= MacSet(current)) ||
      (|previous| == |current| <==> |MacSet(previous)| == |MacSet(current)|)
  {
    if MacSet(previous) <= MacSet(current) {
      SubsetOfSize(MacSet(previous), MacSet(current));
    }
  }

  /** A list that names each address once. */
  function Listing(macs: seq<string>): (r: seq<string>)
    ensures Distinct(r) && MacSet(r) == MacSet(macs)
  {
    if macs == [] then []
    else
      var last, r := macs[|macs| - 1], Listing(macs[..|macs| - 1]);
      assert MacSet(macs) == MacSet(macs[..|macs| - 1]) + {last};
      if last in r then r
      else
        assert MacSet(r + [last]) == MacSet(r) + {last};
        r + [last]
  }

  /** Against every list without repeats the answer is right if and only if the list before has no
      repeats either. */
  lemma DistinctIsNeeded(previous: seq<string>)
    ensures (forall current :: Distinct(current) ==> (Changed(previous, current) <==> MacSet(previous) != MacSet(current)))
      <==> Distinct(previous)
  {
    SetSize(previous);
    if Distinct(previous) {
      forall current | Distinct(current) ensures Changed(previous, current) <==> MacSet(previous) != MacSet(current) {
        SetSize(current);
        ChangedIsExact(previous, current);
      }
    } else {
      var current := Listing(previous);
      SetSize(current);
      assert Changed(previous, current) && MacSet(previous) == MacSet(current);
    }
  }

  /** With inputs: of two addresses one was listed twice before. */
  lemma RepeatHidesChange(a: string, b: string)
    requires a != b
    ensures !Changed([a, a], [a, b]) && MacSet([a, a]) != MacSet([a, b])
  {
    assert b in [a, b] && b !in [a, a];
    assert b in MacSet([a, b]) && b !in MacSet([a, a]);
    assert a in [a, b];
  }
}

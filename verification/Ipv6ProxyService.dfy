/** The service with its own arrays and loops, each entry point proved against Ipv6ProxySpec. */
module Ipv6ProxyService {
  import opened Ipv6ProxySpec

  /** The recorded slots, from the four parallel arrays. */
  function Entries(pids: seq<int>, ids: seq<int>, ports: seq<int>, owned: seq<bool>): (r: seq<Entry>)
    requires |pids| == |ids| == |ports| == |owned|
    ensures |r| == |pids|
    ensures forall i :: 0 <= i < |r| ==> r[i] == Entry(pids[i], ids[i], ports[i], owned[i])
  {
    seq(|pids|, i requires 0 <= i < |pids| => Entry(pids[i], ids[i], ports[i], owned[i]))
  }

  class Service {
    const pids: array<int>
    const ids: array<int>
    const ports: array<int>
    const owned: array<bool>
    var ruleCount: nat
    var running: bool
    var initialized: bool
    var nativePort: int
    var nativeOwned: bool

    // ip6tables and the process table
    var firewall: multiset<int>
    var children: set<int>

    predicate Valid()
      reads this
    {
      && pids.Length == ids.Length == ports.Length == owned.Length
      && ids != pids && ports != pids && ports != ids
      && ruleCount <= pids.Length
    }

    function View(): State
      requires Valid()
      reads this, pids, ids, ports, owned
    {
      State(Entries(pids[..ruleCount], ids[..ruleCount], ports[..ruleCount], owned[..ruleCount]),
            running, initialized, nativePort, nativeOwned, firewall, children)
    }

    /** `capacity` is IPV6_PROXY_MAX_RULES. */
    constructor (capacity: nat, firewall: multiset<int>, children: set<int>)
      ensures Valid() && pids.Length == capacity
      ensures View() == State([], false, false, 0, false, firewall, children)
      ensures fresh(pids) && fresh(ids) && fresh(ports) && fresh(owned)
    {
      pids := new int[capacity];
      ids := new int[capacity];
      ports := new int[capacity];
      owned := new bool[capacity];
      ruleCount, running, initialized, nativePort, nativeOwned := 0, false, false, 0, false;
      this.firewall, this.children := firewall, children;
    }

    // ---------- the firewall ----------

    method AddFirewallRule(port: int, addable: bool) returns (result: int)
      modifies this`firewall
      ensures result == AddResult(old(firewall), port, addable)
      ensures firewall == Added(old(firewall), port, addable)
      ensures result == if port in old(firewall) then 0 else if addable then 1 else -1
      ensures firewall == if result == 1 then old(firewall) + multiset{port} else old(firewall)
    {
      if port in firewall {
        return 0;
      }
      if addable {
        firewall := firewall + multiset{port};
        return 1;
      }
      return -1;
    }

    method RemoveFirewallRule(port: int)
      modifies this`firewall
      ensures firewall == old(firewall) - multiset{port}
    {
      firewall := firewall - multiset{port};
    }

    method ReleaseNativeRule()
      requires Valid()
      modifies this`firewall, this`nativePort, this`nativeOwned
      ensures Valid() && View() == ReleaseNative(old(View()))
    {
      if nativeOwned && nativePort > 0 {
        RemoveFirewallRule(nativePort);
      }
      nativePort, nativeOwned := 0, false;
    }

    method Allow(port: int, addable: bool)
      requires Valid()
      modifies this`firewall, this`nativePort, this`nativeOwned
      ensures Valid() && View() == AllowPort(old(View()), port, addable)
      ensures 0 < port <= 65535 && port != old(nativePort) && (port in old(firewall) || addable) && !old(nativeOwned) ==>
        port in firewall && nativePort == port && (nativeOwned <==> port !in old(firewall))
      ensures !(0 < port <= 65535) || port == old(nativePort) ==>
        firewall == old(firewall) && nativePort == old(nativePort) && nativeOwned == old(nativeOwned)
    {
      if port <= 0 || port > 65535 || nativePort == port {
        return;
      }
      ReleaseNativeRule();
      var result := AddFirewallRule(port, addable);
      if result >= 0 {
        nativePort, nativeOwned := port, result == 1;
      }
    }

    // ---------- the slots ----------

    /** Fill the next slot: the child first, then what add_ipv6_firewall_rule says about ownership. */
    method RecordChild(r: Rule, pid: int, addable: bool)
      requires Valid() && ruleCount < pids.Length
      modifies this`ruleCount, this`firewall, this`children, pids, ids, ports, owned
      ensures Valid() && ruleCount == old(ruleCount) + 1
      ensures View() == Record(old(View()), r, pid, addable)
    {
      ghost var was := View();
      children := children + {pid};
      pids[ruleCount] := pid;
      ids[ruleCount] := r.id;
      ports[ruleCount] := r.ipv6Port;
      var result := AddFirewallRule(r.ipv6Port, addable);
      owned[ruleCount] := result == 1;
      ruleCount := ruleCount + 1;
      assert View().entries == was.entries + [Entry(pid, r.id, r.ipv6Port, result == 1)];
    }

    /** The loop that stop and a failed start share. */
    method KillRecorded()
      requires Valid()
      modifies this`firewall, this`children
      ensures StopAll(old(View()), old(View()).entries) == StopAll(View(), [])
    {
      var i := 0;
      while i < ruleCount
        invariant 0 <= i <= ruleCount
        invariant View().entries == old(View()).entries
        invariant StopAll(old(View()), old(View()).entries) == StopAll(View(), View().entries[i..])
      {
        ghost var was := View();
        assert was.entries[i..][1..] == was.entries[i + 1..];
        if pids[i] > 0 {
          if owned[i] {
            RemoveFirewallRule(ports[i]);
          }
          children := children - {pids[i]};
        }
        assert View() == if was.entries[i].pid > 0 then Kill(was, was.entries[i]) else was;
        i := i + 1;
      }
    }

    predicate Cleared()
      requires Valid()
      reads this, pids, ids, ports, owned
    {
      forall i :: 0 <= i < pids.Length ==> pids[i] == 0 && ids[i] == 0 && ports[i] == 0 && !owned[i]
    }

    method ClearSlots()
      requires Valid()
      modifies this`ruleCount, pids, ids, ports, owned
      ensures Valid() && View() == old(View()).(entries := []) && Cleared()
    {
      for i := 0 to pids.Length
        invariant Valid()
        invariant forall k :: 0 <= k < i ==> pids[k] == 0 && ids[k] == 0 && ports[k] == 0 && !owned[k]
      {
        pids[i], ids[i], ports[i], owned[i] := 0, 0, 0, false;
      }
      ruleCount := 0;
    }

    method StopRecorded()
      requires Valid()
      modifies this`firewall, this`children, this`ruleCount, this`running, pids, ids, ports, owned
      ensures Valid() && View() == StopAll(old(View()), old(View()).entries) && Cleared()
    {
      KillRecorded();
      ClearSlots();
      running := false;
    }

    // ---------- entry points ----------

    method StartService(rules: seq<Rule>, outcomes: seq<Outcome>) returns (result: int)
      requires Valid() && |rules| == |outcomes| && |rules| <= pids.Length
      modifies this, pids, ids, ports, owned
      ensures Valid() && View() == Start(old(View()), rules, outcomes)
      ensures result == StartResult(old(View()), rules, outcomes)
      ensures result != 0 && rules != [] ==> Cleared()
    {
      if running {
        return 0;
      }
      if |rules| == 0 {
        return -1;
      }
      ruleCount := 0;
      ghost var was := View();
      assert was == old(View()).(entries := []);
      var failed, native := false, false;
      var i := 0;
      while i < |rules|
        invariant Valid() && ruleCount <= i <= |rules|
        invariant !failed
        invariant LaunchAll(was, false, rules, outcomes) == LaunchAll(View(), native, rules[i..], outcomes[i..])
      {
        var r := rules[i];
        assert rules[i..][1..] == rules[i + 1..] && outcomes[i..][1..] == outcomes[i + 1..];
        if r.enabled {
          if Conflict(r) {
            failed := true;
            break;
          }
          if Native(r) {
            native := true;
          } else {
            match outcomes[i]
            case Ready(pid, addable) =>
              RecordChild(r, pid, addable);
            case _ =>
              failed := true;
              break;
          }
        }
        i := i + 1;
      }
      assert LaunchAll(was, false, rules, outcomes) == Launch(View(), native, failed);
      if failed || (ruleCount == 0 && !native) {
        StopRecorded();
        return -1;
      }
      running := true;
      return 0;
    }

    method StopService()
      requires Valid()
      modifies this, pids, ids, ports, owned
      ensures Valid() && View() == Stop(old(View()))
      ensures old(running) || old(ruleCount) > 0 ==> Cleared()
    {
      if !running && ruleCount == 0 {
        return;
      }
      StopRecorded();
    }

    method Restart(rules: seq<Rule>, outcomes: seq<Outcome>) returns (result: int)
      requires Valid() && |rules| == |outcomes| && |rules| <= pids.Length
      modifies this, pids, ids, ports, owned
      ensures Valid() && View() == Start(Stop(old(View())), rules, outcomes)
      ensures result == StartResult(Stop(old(View())), rules, outcomes)
    {
      StopService();
      result := StartService(rules, outcomes);
    }

    method InitService(autoStart: bool, rules: seq<Rule>, outcomes: seq<Outcome>)
      requires Valid() && |rules| == |outcomes| && |rules| <= pids.Length
      modifies this, pids, ids, ports, owned
      ensures Valid() && View() == Init(old(View()), autoStart, rules, outcomes)
    {
      if initialized {
        return;
      }
      ClearSlots();
      initialized := true;
      if autoStart {
        var _ := StartService(rules, outcomes);
      }
    }

    method DeinitService()
      requires Valid()
      modifies this, pids, ids, ports, owned
      ensures Valid() && View() == Deinit(old(View()))
    {
      if !initialized {
        ReleaseNativeRule();
        return;
      }
      StopService();
      ReleaseNativeRule();
      initialized := false;
    }
  }
}

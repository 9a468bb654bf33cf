/** Start is all or nothing, and over any run the firewall and the process table are what the
    module found plus exactly what it owns. */
module Ipv6ProxyRuns {
  import opened Basics
  import opened Ipv6ProxySpec

  // ---------- which rules should run ----------

  /** A rule the start loop can get past. */
  predicate Passes(r: Rule, o: Outcome) {
    !r.enabled || Native(r) || (!Conflict(r) && o.Ready?)
  }

  ghost predicate ShouldStart(rules: seq<Rule>, outcomes: seq<Outcome>)
    requires |rules| == |outcomes|
  {
    && (exists i :: 0 <= i < |rules| && rules[i].enabled)
    && (forall i :: 0 <= i < |rules| ==> Passes(rules[i], outcomes[i]))
  }

  datatype Listener = Listener(pid: int, id: int, port: int)

  /** One listener for each enabled rule that is not the management rule, in order. */
  function Listeners(rules: seq<Rule>, outcomes: seq<Outcome>): seq<Listener>
    requires |rules| == |outcomes|
  {
    if rules == [] then []
    else
      var r := rules[0];
      (if r.enabled && !Native(r) && outcomes[0].Ready? then [Listener(outcomes[0].pid, r.id, r.ipv6Port)] else [])
      + Listeners(rules[1..], outcomes[1..])
  }

  function Recorded(entries: seq<Entry>): seq<Listener> {
    if entries == [] then []
    else
      var e := entries[|entries| - 1];
      Recorded(entries[..|entries| - 1]) + [Listener(e.pid, e.id, e.port)]
  }

  // ---------- recording one child ----------

  lemma OwnedSnoc(entries: seq<Entry>, e: Entry)
    ensures OwnedPorts(entries + [e]) == OwnedPorts(entries) + OwnedBy(e)
    ensures Pids(entries + [e]) == Pids(entries) + {e.pid}
    ensures Recorded(entries + [e]) == Recorded(entries) + [Listener(e.pid, e.id, e.port)]
  {
    assert (entries + [e])[..|entries|] == entries;
    assert e in entries + [e];
  }

  /** Adding a rule: it is owned only if it was not there. */
  lemma AddOwned(firewall: multiset<int>, base: multiset<int>, owned: multiset<int>, port: int, addable: bool)
    requires FirewallIs(firewall, base, owned)
    ensures FirewallIs(Added(firewall, port, addable), base,
                       if AddResult(firewall, port, addable) == 1 then owned + multiset{port} else owned)
  {
  }

  lemma ChildAdded(children: set<int>, others: set<int>, entries: seq<Entry>, e: Entry)
    requires ChildrenAre(children, others, entries) && e.pid !in children
    ensures ChildrenAre(children + {e.pid}, others, entries + [e])
  {
    OwnedSnoc(entries, e);
    forall i | 0 <= i < |entries| ensures entries[i].pid != e.pid {
      assert entries[i] in entries;
    }
  }

  lemma OwnedWith(owned: multiset<int>, e: Entry, native: multiset<int>)
    ensures owned + OwnedBy(e) + native == if e.owned then owned + native + multiset{e.port} else owned + native
  {
  }

  lemma RecordConserves(s: State, r: Rule, pid: int, addable: bool, base: multiset<int>, others: set<int>)
    requires Conserved(s, base, others) && pid > 0 && pid !in s.children && r.ipv6Port != ManagementPort
    ensures Conserved(Record(s, r, pid, addable), base, others)
  {
    var e := Entry(pid, r.id, r.ipv6Port, AddResult(s.firewall, r.ipv6Port, addable) == 1);
    AddOwned(s.firewall, base, Owned(s), r.ipv6Port, addable);
    OwnedSnoc(s.entries, e);
    OwnedWith(OwnedPorts(s.entries), e, NativeOwned(s));
    ChildAdded(s.children, others, s.entries, e);
  }

  lemma FreshLater(outcomes: seq<Outcome>, children: set<int>)
    requires outcomes != [] && FreshPids(outcomes, children)
    ensures FreshPids(outcomes[1..], children)
    ensures outcomes[0].Ready? ==> FreshPids(outcomes[1..], children + {outcomes[0].pid})
  {
    var later := outcomes[1..];
    assert forall i :: 0 <= i < |later| ==> later[i] == outcomes[i + 1];
  }

  lemma {:induction false} LaunchConserves(s: State, native: bool, rules: seq<Rule>, outcomes: seq<Outcome>,
                                           base: multiset<int>, others: set<int>)
    requires |rules| == |outcomes| && FreshPids(outcomes, s.children) && Conserved(s, base, others)
    ensures Conserved(LaunchAll(s, native, rules, outcomes).state, base, others)
    decreases |rules|
  {
    if rules != [] {
      var r, rest, later := rules[0], rules[1..], outcomes[1..];
      FreshLater(outcomes, s.children);
      if !r.enabled {
        LaunchConserves(s, native, rest, later, base, others);
      } else if Native(r) {
        LaunchConserves(s, true, rest, later, base, others);
      } else if !Conflict(r) && outcomes[0].Ready? {
        var s' := Record(s, r, outcomes[0].pid, outcomes[0].ruleAddable);
        RecordConserves(s, r, outcomes[0].pid, outcomes[0].ruleAddable, base, others);
        LaunchConserves(s', native, rest, later, base, others);
      }
    }
  }

  /** The loop fails exactly at a rule it cannot pass. */
  lemma {:induction false} LaunchFailsWhere(s: State, native: bool, rules: seq<Rule>, outcomes: seq<Outcome>)
    requires |rules| == |outcomes|
    ensures LaunchAll(s, native, rules, outcomes).failed <==> exists i :: 0 <= i < |rules| && !Passes(rules[i], outcomes[i])
    decreases |rules|
  {
    if rules != [] {
      var r, rest, later := rules[0], rules[1..], outcomes[1..];
      PassesLater(rules, outcomes);
      if !r.enabled {
        LaunchFailsWhere(s, native, rest, later);
      } else if Native(r) {
        LaunchFailsWhere(s, true, rest, later);
      } else if !Conflict(r) && outcomes[0].Ready? {
        LaunchFailsWhere(Record(s, r, outcomes[0].pid, outcomes[0].ruleAddable), native, rest, later);
      }
    }
  }

  /** If it does not fail it records the listeners. */
  lemma {:induction false} LaunchRecords(s: State, native: bool, rules: seq<Rule>, outcomes: seq<Outcome>)
    requires |rules| == |outcomes|
    ensures var l := LaunchAll(s, native, rules, outcomes);
      !l.failed ==> Recorded(l.state.entries) == Recorded(s.entries) + Listeners(rules, outcomes)
    decreases |rules|
  {
    if rules == [] {
      assert Recorded(s.entries) + [] == Recorded(s.entries);
    } else {
      var r, rest, later := rules[0], rules[1..], outcomes[1..];
      if !r.enabled || Native(r) {
        LaunchRecords(s, native || r.enabled, rest, later);
        assert Listeners(rules, outcomes) == Listeners(rest, later);
      } else if !Conflict(r) && outcomes[0].Ready? {
        var s' := Record(s, r, outcomes[0].pid, outcomes[0].ruleAddable);
        OwnedSnoc(s.entries, s'.entries[|s.entries|]);
        LaunchRecords(s', native, rest, later);
        Regroup(Recorded(s.entries), [Listener(outcomes[0].pid, r.id, r.ipv6Port)], Listeners(rest, later));
      }
    }
  }

  /** If it does not fail, something is served exactly when some rule is enabled. */
  lemma {:induction false} LaunchServes(s: State, native: bool, rules: seq<Rule>, outcomes: seq<Outcome>)
    requires |rules| == |outcomes|
    ensures var l := LaunchAll(s, native, rules, outcomes);
      !l.failed ==> (l.native || l.state.entries != [] <==>
        native || s.entries != [] || exists i :: 0 <= i < |rules| && rules[i].enabled)
    decreases |rules|
  {
    if rules != [] {
      var r, rest, later := rules[0], rules[1..], outcomes[1..];
      PassesLater(rules, outcomes);
      if !r.enabled {
        LaunchServes(s, native, rest, later);
      } else if Native(r) {
        LaunchServes(s, true, rest, later);
      } else if !Conflict(r) && outcomes[0].Ready? {
        LaunchServes(Record(s, r, outcomes[0].pid, outcomes[0].ruleAddable), native, rest, later);
      }
    }
  }

  lemma {:induction false} LaunchFrame(s: State, native: bool, rules: seq<Rule>, outcomes: seq<Outcome>)
    requires |rules| == |outcomes|
    ensures var s' := LaunchAll(s, native, rules, outcomes).state;
      s' == s.(entries := s'.entries, firewall := s'.firewall, children := s'.children)
    decreases |rules|
  {
    if rules != [] {
      var r, rest, later := rules[0], rules[1..], outcomes[1..];
      if !r.enabled {
        LaunchFrame(s, native, rest, later);
      } else if Native(r) {
        LaunchFrame(s, true, rest, later);
      } else if !Conflict(r) && outcomes[0].Ready? {
        LaunchFrame(Record(s, r, outcomes[0].pid, outcomes[0].ruleAddable), native, rest, later);
      }
    }
  }

  lemma PassesLater(rules: seq<Rule>, outcomes: seq<Outcome>)
    requires |rules| == |outcomes| && rules != []
    ensures (exists i :: 0 <= i < |rules| && !Passes(rules[i], outcomes[i])) <==>
      !Passes(rules[0], outcomes[0]) || exists i :: 0 <= i < |rules[1..]| && !Passes(rules[1..][i], outcomes[1..][i])
    ensures (exists i :: 0 <= i < |rules| && rules[i].enabled) <==>
      rules[0].enabled || exists i :: 0 <= i < |rules[1..]| && rules[1..][i].enabled
  {
    if i :| 0 <= i < |rules| && !Passes(rules[i], outcomes[i]) && i > 0 {
      assert rules[1..][i - 1] == rules[i];
    }
    if i :| 0 <= i < |rules| && rules[i].enabled && i > 0 {
      assert rules[1..][i - 1] == rules[i];
    }
    if i :| 0 <= i < |rules[1..]| && !Passes(rules[1..][i], outcomes[1..][i]) {
      assert rules[1..][i] == rules[i + 1];
    }
    if i :| 0 <= i < |rules[1..]| && rules[1..][i].enabled {
      assert rules[1..][i] == rules[i + 1];
    }
  }

  // ---------- stopping ----------

  lemma {:induction false} OwnedCons(e: Entry, entries: seq<Entry>)
    ensures OwnedPorts([e] + entries) == OwnedBy(e) + OwnedPorts(entries)
  {
    var all := [e] + entries;
    if entries == [] {
      assert all[..0] == [] && all[|all| - 1] == e;
    } else {
      assert all[..|all| - 1] == [e] + entries[..|entries| - 1];
      OwnedCons(e, entries[..|entries| - 1]);
    }
  }

  lemma SubtractTwice(a: multiset<int>, b: multiset<int>, c: multiset<int>)
    ensures a - b - c == a - (b + c)
  {
  }

  /** Stopping gives back what the entries own and no more, and leaves no child of theirs. */
  lemma {:induction false} StopAllReturns(s: State, entries: seq<Entry>)
    requires forall e :: e in entries ==> e.pid > 0
    ensures var s' := StopAll(s, entries);
      && s'.firewall == s.firewall - OwnedPorts(entries)
      && s'.children == s.children - Pids(entries)
      && s' == s.(entries := [], running := false, firewall := s'.firewall, children := s'.children)
    decreases |entries|
  {
    if entries == [] {
      assert s.firewall - multiset{} == s.firewall && s.children - {} == s.children;
    } else {
      var e, rest := entries[0], entries[1..];
      assert entries == [e] + rest;
      StopAllReturns(Kill(s, e), rest);
      OwnedCons(e, rest);
      assert Pids(entries) == {e.pid} + Pids(rest);
      assert Kill(s, e).firewall == s.firewall - OwnedBy(e);
      SubtractTwice(s.firewall, OwnedBy(e), OwnedPorts(rest));
    }
  }

  lemma StopConserves(s: State, base: multiset<int>, others: set<int>)
    requires Conserved(s, base, others)
    ensures var s' := StopAll(s, s.entries);
      Conserved(s', base, others) && s'.entries == [] && s'.firewall == base + NativeOwned(s) && s'.children == others
  {
    StopAllReturns(s, s.entries);
    assert base + (OwnedPorts(s.entries) + NativeOwned(s)) - OwnedPorts(s.entries) == base + NativeOwned(s);
    var s' := StopAll(s, s.entries);
    assert forall p :: p in Owned(s') ==> p in Owned(s) && Owned(s')[p] <= Owned(s)[p];
  }

  // ---------- start: all or nothing ----------

  lemma StartResultIs(s: State, rules: seq<Rule>, outcomes: seq<Outcome>)
    requires |rules| == |outcomes| && !s.running && s.entries == []
    ensures StartResult(s, rules, outcomes) == 0 <==> ShouldStart(rules, outcomes)
  {
    assert s.(entries := []) == s;
    LaunchFailsWhere(s, false, rules, outcomes);
    LaunchServes(s, false, rules, outcomes);
  }

  /** A launch that is rolled back leaves no trace. */
  lemma RollbackUndoes(s: State, rules: seq<Rule>, outcomes: seq<Outcome>, base: multiset<int>, others: set<int>)
    requires |rules| == |outcomes| && FreshPids(outcomes, s.children)
    requires Conserved(s, base, others) && !s.running && s.entries == []
    ensures var l := LaunchAll(s, false, rules, outcomes).state; StopAll(l, l.entries) == s
  {
    var l := LaunchAll(s, false, rules, outcomes).state;
    LaunchFrame(s, false, rules, outcomes);
    LaunchConserves(s, false, rules, outcomes, base, others);
    StopConserves(l, base, others);
    StopAllReturns(l, l.entries);
    assert Owned(s) == NativeOwned(s);
  }

  /** For any rules and any failures of pipe, fork, bind or ip6tables: start succeeds exactly when
      some rule is enabled and every enabled rule can be served.  Then it has recorded, in order,
      one live child for each enabled rule that is not the management rule; otherwise nothing at
      all has changed. */
  lemma StartAllOrNothing(s: State, rules: seq<Rule>, outcomes: seq<Outcome>, base: multiset<int>, others: set<int>)
    requires |rules| == |outcomes| && FreshPids(outcomes, s.children)
    requires Conserved(s, base, others) && !s.running && s.entries == []
    ensures StartResult(s, rules, outcomes) == if ShouldStart(rules, outcomes) then 0 else -1
    ensures var s' := Start(s, rules, outcomes);
      if StartResult(s, rules, outcomes) == 0
      then s'.running && Conserved(s', base, others) && Recorded(s'.entries) == Listeners(rules, outcomes)
      else s' == s
  {
    StartResultIs(s, rules, outcomes);
    if rules != [] {
      assert s.(entries := []) == s;
      RollbackUndoes(s, rules, outcomes, base, others);
      LaunchRecords(s, false, rules, outcomes);
      LaunchConserves(s, false, rules, outcomes, base, others);
    }
  }

  /** Init starts the service exactly if it is so configured, was not initialised, and the rules can be
      served. */
  lemma InitStarts(s: State, autoStart: bool, rules: seq<Rule>, outcomes: seq<Outcome>, base: multiset<int>, others: set<int>)
    requires |rules| == |outcomes| && FreshPids(outcomes, s.children)
    requires Conserved(s, base, others) && !s.running && s.entries == []
    ensures var s' := Init(s, autoStart, rules, outcomes);
      s'.initialized && (s'.running <==> !s.initialized && autoStart && ShouldStart(rules, outcomes))
  {
    var s' := s.(initialized := true);
    assert s' == s.(entries := [], initialized := true) && Owned(s') == Owned(s);
    StartAllOrNothing(s', rules, outcomes, base, others);
    StartFrame(s', rules, outcomes);
  }

  // ---------- which ports are open ----------

  /** The firewall once the port that the module holds itself has been given back. */
  function Released(s: State): multiset<int> {
    if s.nativeOwned && s.nativePort > 0 then s.firewall - multiset{s.nativePort} else s.firewall
  }

  /** A valid port other than the one held is open afterwards if it was open or can be opened, and it
      is the one held, owned exactly if it was not open; otherwise none is held.  Any other port
      changes nothing. */
  lemma AllowOpens(s: State, port: int, addable: bool)
    ensures var s', before := AllowPort(s, port, addable), Released(s);
      if !(0 < port <= 65535) || port == s.nativePort then s' == s
      else if port in before then s' == s.(firewall := before, nativePort := port, nativeOwned := false)
      else if addable then s' == s.(firewall := before + multiset{port}, nativePort := port, nativeOwned := true)
      else s' == s.(firewall := before, nativePort := 0, nativeOwned := false)
  {
  }

  /** The call that http_server.c makes first opens the management port. */
  lemma AllowManagement(base: multiset<int>, others: set<int>)
    ensures var s := AllowPort(Found(base, others), 6677, true);
      6677 in s.firewall && s.nativePort == 6677 && (s.nativeOwned <==> 6677 !in base)
  {
  }

  /** Which rules the loop gets past, by their ports. */
  lemma PassesIs(r: Rule, o: Outcome)
    ensures Passes(r, o) <==>
      !r.enabled || (r.localPort == 6677 && r.ipv6Port == 6677) || (r.localPort != 6677 && r.ipv6Port != 6677 && o.Ready?)
  {
  }

  /** A rule that is served by a child opens its port, if ip6tables can. */
  predicate Opens(r: Rule, o: Outcome, port: int) {
    r.enabled && !(r.localPort == 6677 && r.ipv6Port == 6677) && o.Ready? && o.ruleAddable && r.ipv6Port == port
  }

  lemma OpensLater(rules: seq<Rule>, outcomes: seq<Outcome>, port: int)
    requires |rules| == |outcomes| && rules != []
    ensures (exists i :: 0 <= i < |rules| && Opens(rules[i], outcomes[i], port)) <==>
      Opens(rules[0], outcomes[0], port) || exists i :: 0 <= i < |rules[1..]| && Opens(rules[1..][i], outcomes[1..][i], port)
  {
    if i :| 0 <= i < |rules| && Opens(rules[i], outcomes[i], port) && i > 0 {
      assert rules[1..][i - 1] == rules[i] && outcomes[1..][i - 1] == outcomes[i];
    }
    if i :| 0 <= i < |rules[1..]| && Opens(rules[1..][i], outcomes[1..][i], port) {
      assert rules[1..][i] == rules[i + 1] && outcomes[1..][i] == outcomes[i + 1];
    }
  }

  lemma {:induction false} LaunchOpens(s: State, native: bool, rules: seq<Rule>, outcomes: seq<Outcome>, port: int)
    requires |rules| == |outcomes|
    ensures var l := LaunchAll(s, native, rules, outcomes);
      !l.failed ==> (port in l.state.firewall <==>
        port in s.firewall || exists i :: 0 <= i < |rules| && Opens(rules[i], outcomes[i], port))
    decreases |rules|
  {
    if rules != [] {
      var r, rest, later := rules[0], rules[1..], outcomes[1..];
      OpensLater(rules, outcomes, port);
      if !r.enabled {
        LaunchOpens(s, native, rest, later, port);
      } else if Native(r) {
        LaunchOpens(s, true, rest, later, port);
      } else if !Conflict(r) && outcomes[0].Ready? {
        LaunchOpens(Record(s, r, outcomes[0].pid, outcomes[0].ruleAddable), native, rest, later, port);
      }
    }
  }

  /** After a start that succeeds exactly these ports are open: those that were, and those of the rules
      that are served and could be opened. */
  lemma StartOpensPorts(s: State, rules: seq<Rule>, outcomes: seq<Outcome>, port: int)
    requires |rules| == |outcomes| && !s.running && s.entries == [] && StartResult(s, rules, outcomes) == 0
    ensures port in Start(s, rules, outcomes).firewall <==>
      port in s.firewall || exists i :: 0 <= i < |rules| && Opens(rules[i], outcomes[i], port)
  {
    assert s.(entries := []) == s;
    LaunchOpens(s, false, rules, outcomes, port);
  }

  // ---------- runs ----------

  datatype Op =
    | OpAllow(port: int, addable: bool)
    | OpStart(rules: seq<Rule>, outcomes: seq<Outcome>)
    | OpStop
    | OpRestart(rules: seq<Rule>, outcomes: seq<Outcome>)
    | OpInit(autoStart: bool, rules: seq<Rule>, outcomes: seq<Outcome>)
    | OpDeinit

  predicate Shaped(op: Op) {
    (op.OpStart? || op.OpRestart? || op.OpInit?) ==> |op.rules| == |op.outcomes|
  }

  /** What the operating system promises about an operation. */
  ghost predicate Environment(s: State, op: Op) {
    Shaped(op) && ((op.OpStart? || op.OpRestart? || op.OpInit?) ==> FreshPids(op.outcomes, s.children))
  }

  /** The one call that goes wrong: init clears the slots of a module that was started before. */
  predicate Forgets(s: State, op: Op) {
    op.OpInit? && !s.initialized && s.entries != []
  }

  function Apply(s: State, op: Op): State
    requires Shaped(op)
  {
    match op
    case OpAllow(port, addable) => AllowPort(s, port, addable)
    case OpStart(rules, outcomes) => Start(s, rules, outcomes)
    case OpStop => Stop(s)
    case OpRestart(rules, outcomes) => Start(Stop(s), rules, outcomes)
    case OpInit(autoStart, rules, outcomes) => Init(s, autoStart, rules, outcomes)
    case OpDeinit => Deinit(s)
  }

  /** The module before its first operation. */
  ghost function Found(base: multiset<int>, others: set<int>): State {
    State([], false, false, 0, false, base, others)
  }

  ghost predicate Kept(s: State, base: multiset<int>, others: set<int>) {
    Conserved(s, base, others) && (!s.running ==> s.entries == [])
  }

  lemma ReleaseNativeConserves(s: State, base: multiset<int>, others: set<int>)
    requires Conserved(s, base, others)
    ensures Conserved(ReleaseNative(s), base, others)
  {
    var s' := ReleaseNative(s);
    assert Owned(s') == OwnedPorts(s.entries) + multiset{};
    assert s.nativeOwned ==> base + (OwnedPorts(s.entries) + multiset{s.nativePort}) - multiset{s.nativePort} == base + OwnedPorts(s.entries);
    assert forall p :: p in Owned(s') ==> p in Owned(s) && Owned(s')[p] <= Owned(s)[p];
  }

  lemma AllowConserves(s: State, port: int, addable: bool, base: multiset<int>, others: set<int>)
    requires Conserved(s, base, others)
    ensures Conserved(AllowPort(s, port, addable), base, others)
  {
    ReleaseNativeConserves(s, base, others);
    var s1, s' := ReleaseNative(s), AllowPort(s, port, addable);
    AddOwned(s1.firewall, base, Owned(s1), port, addable);
    if s' != s {
      assert Owned(s') == if s'.nativeOwned then Owned(s1) + multiset{port} else Owned(s1);
    }
  }

  lemma StartKeeps(s: State, rules: seq<Rule>, outcomes: seq<Outcome>, base: multiset<int>, others: set<int>)
    requires |rules| == |outcomes| && FreshPids(outcomes, s.children) && Kept(s, base, others)
    ensures Kept(Start(s, rules, outcomes), base, others)
  {
    if !s.running {
      StartAllOrNothing(s, rules, outcomes, base, others);
      LaunchFrame(s.(entries := []), false, rules, outcomes);
    }
  }

  lemma StopKeeps(s: State, base: multiset<int>, others: set<int>)
    requires Kept(s, base, others)
    ensures Kept(Stop(s), base, others) && !Stop(s).running && Stop(s).children <= s.children
    ensures Stop(s) == s.(entries := [], running := false, firewall := Stop(s).firewall, children := Stop(s).children)
  {
    StopConserves(s, base, others);
    StopAllReturns(s, s.entries);
  }

  lemma RestartKeeps(s: State, rules: seq<Rule>, outcomes: seq<Outcome>, base: multiset<int>, others: set<int>)
    requires |rules| == |outcomes| && FreshPids(outcomes, s.children) && Kept(s, base, others)
    ensures Kept(Start(Stop(s), rules, outcomes), base, others)
  {
    StopKeeps(s, base, others);
    StartKeeps(Stop(s), rules, outcomes, base, others);
  }

  /** Every call keeps what is conserved, but for the one that forgets. */
  lemma OpKeeps(s: State, op: Op, base: multiset<int>, others: set<int>)
    requires Kept(s, base, others) && Environment(s, op) && !Forgets(s, op)
    ensures Kept(Apply(s, op), base, others)
  {
    if op.OpAllow? {
      AllowConserves(s, op.port, op.addable, base, others);
    } else if op.OpStart? {
      StartKeeps(s, op.rules, op.outcomes, base, others);
    } else if op.OpStop? {
      StopKeeps(s, base, others);
    } else if op.OpRestart? {
      RestartKeeps(s, op.rules, op.outcomes, base, others);
    } else if op.OpInit? {
      InitKeeps(s, op.autoStart, op.rules, op.outcomes, base, others);
    } else {
      DeinitKeeps(s, base, others);
    }
  }

  lemma InitKeeps(s: State, autoStart: bool, rules: seq<Rule>, outcomes: seq<Outcome>, base: multiset<int>, others: set<int>)
    requires |rules| == |outcomes| && FreshPids(outcomes, s.children) && Kept(s, base, others)
    requires s.initialized || s.entries == []
    ensures Kept(Init(s, autoStart, rules, outcomes), base, others)
  {
    if !s.initialized {
      var s' := s.(entries := [], initialized := true);
      assert s.entries == [] && Owned(s') == Owned(s);
      if autoStart {
        StartKeeps(s', rules, outcomes, base, others);
      }
    }
  }

  lemma DeinitKeeps(s: State, base: multiset<int>, others: set<int>)
    requires Kept(s, base, others)
    ensures Kept(Deinit(s), base, others)
  {
    var s' := if s.initialized then Stop(s) else s;
    StopKeeps(s, base, others);
    ReleaseNativeConserves(s', base, others);
    assert Owned(Deinit(s)) == Owned(ReleaseNative(s'));
  }

  // ---------- a child that nobody records any more ----------

  predicate Stray(p: int, s: State, others: set<int>) {
    p in s.children && p !in others && p !in Pids(s.entries)
  }

  lemma {:induction false} StopAllSpares(s: State, entries: seq<Entry>, p: int)
    requires p in s.children && p !in Pids(entries)
    ensures p in StopAll(s, entries).children && StopAll(s, entries).entries == []
    decreases |entries|
  {
    if entries != [] {
      assert entries[0].pid in Pids(entries);
      assert Pids(entries[1..]) <= Pids(entries);
      StopAllSpares(if entries[0].pid > 0 then Kill(s, entries[0]) else s, entries[1..], p);
    }
  }

  lemma {:induction false} LaunchSpares(s: State, native: bool, rules: seq<Rule>, outcomes: seq<Outcome>, p: int, others: set<int>)
    requires |rules| == |outcomes| && FreshPids(outcomes, s.children) && Stray(p, s, others)
    ensures Stray(p, LaunchAll(s, native, rules, outcomes).state, others)
    decreases |rules|
  {
    if rules != [] {
      var r, rest, later := rules[0], rules[1..], outcomes[1..];
      FreshLater(outcomes, s.children);
      if !r.enabled {
        LaunchSpares(s, native, rest, later, p, others);
      } else if Native(r) {
        LaunchSpares(s, true, rest, later, p, others);
      } else if !Conflict(r) && outcomes[0].Ready? {
        var s' := Record(s, r, outcomes[0].pid, outcomes[0].ruleAddable);
        OwnedSnoc(s.entries, s'.entries[|s.entries|]);
        LaunchSpares(s', native, rest, later, p, others);
      }
    }
  }

  lemma StopSpares(s: State, p: int, others: set<int>)
    requires Stray(p, s, others)
    ensures Stray(p, Stop(s), others) && Stop(s).children <= s.children
  {
    StopAllSpares(s, s.entries, p);
    StopAllShrinks(s, s.entries);
  }

  lemma {:induction false} StopAllShrinks(s: State, entries: seq<Entry>)
    ensures StopAll(s, entries).children <= s.children
    decreases |entries|
  {
    if entries != [] {
      StopAllShrinks(if entries[0].pid > 0 then Kill(s, entries[0]) else s, entries[1..]);
    }
  }

  lemma StartSpares(s: State, rules: seq<Rule>, outcomes: seq<Outcome>, p: int, others: set<int>)
    requires |rules| == |outcomes| && FreshPids(outcomes, s.children) && Stray(p, s, others)
    ensures Stray(p, Start(s, rules, outcomes), others)
  {
    if !s.running && rules != [] {
      var s' := s.(entries := []);
      var l := LaunchAll(s', false, rules, outcomes);
      LaunchSpares(s', false, rules, outcomes, p, others);
      StopAllSpares(l.state, l.state.entries, p);
    }
  }

  /** No call ever finds it again. */
  lemma OpSpares(s: State, op: Op, p: int, others: set<int>)
    requires Environment(s, op) && Stray(p, s, others)
    ensures Stray(p, Apply(s, op), others)
  {
    if op.OpStart? {
      StartSpares(s, op.rules, op.outcomes, p, others);
    } else if op.OpStop? {
      StopSpares(s, p, others);
    } else if op.OpRestart? {
      StopSpares(s, p, others);
      StartSpares(Stop(s), op.rules, op.outcomes, p, others);
    } else if op.OpInit? && !s.initialized && op.autoStart {
      StartSpares(s.(entries := [], initialized := true), op.rules, op.outcomes, p, others);
    } else if op.OpDeinit? && s.initialized {
      StopSpares(s, p, others);
    }
  }

  /** The call that forgets leaves such a child. */
  lemma ForgettingStrays(s: State, op: Op, base: multiset<int>, others: set<int>)
    requires Kept(s, base, others) && Environment(s, op) && Forgets(s, op)
    ensures Stray(s.entries[0].pid, Apply(s, op), others)
  {
    assert s.entries[0] in s.entries;
    assert s.entries[0].pid in Pids(s.entries);
  }

  // ---------- exactly when everything is conserved ----------

  /** A run from the state the module found, with the calls in any order. */
  ghost predicate Run(states: seq<State>, ops: seq<Op>, base: multiset<int>, others: set<int>) {
    && |states| == |ops| + 1 && states[0] == Found(base, others)
    && forall i :: 0 <= i < |ops| ==> Environment(states[i], ops[i]) && states[i + 1] == Apply(states[i], ops[i])
  }

  predicate NothingForgotten(states: seq<State>, ops: seq<Op>, n: nat)
    requires n <= |ops| < |states|
  {
    forall i :: 0 <= i < n ==> !Forgets(states[i], ops[i])
  }

  lemma {:induction false} RunKeeps(states: seq<State>, ops: seq<Op>, n: nat, base: multiset<int>, others: set<int>)
    requires Run(states, ops, base, others) && n < |states|
    ensures if NothingForgotten(states, ops, n) then Kept(states[n], base, others)
            else exists p :: Stray(p, states[n], others)
  {
    if n > 0 {
      RunKeeps(states, ops, n - 1, base, others);
      var s, op := states[n - 1], ops[n - 1];
      if !NothingForgotten(states, ops, n - 1) {
        var p :| Stray(p, s, others);
        OpSpares(s, op, p, others);
        assert Stray(p, states[n], others);
      } else if Forgets(s, op) {
        ForgettingStrays(s, op, base, others);
        assert Stray(s.entries[0].pid, states[n], others);
      } else {
        OpKeeps(s, op, base, others);
      }
    }
  }

  /** Over any run, with the calls in any order: the firewall is what the module found plus exactly
      the ports it owns, each once and none of them there before, and the children are those it
      found plus one for each entry, if and only if init was never called on a module that was not
      initialised and had entries. */
  lemma FirewallIsConserved(states: seq<State>, ops: seq<Op>, base: multiset<int>, others: set<int>)
    requires Run(states, ops, base, others)
    ensures var s := states[|ops|];
      Conserved(s, base, others) <==> NothingForgotten(states, ops, |ops|)
  {
    RunKeeps(states, ops, |ops|, base, others);
  }

  /** If deinit is the last call: it has given back every firewall entry and every child if and
      only if nothing was forgotten, and the module was initialised or had no entries. */
  lemma DeinitRestores(states: seq<State>, ops: seq<Op>, base: multiset<int>, others: set<int>)
    requires Run(states, ops, base, others) && ops != [] && ops[|ops| - 1].OpDeinit?
    ensures var before, after := states[|ops| - 1], states[|ops|];
      after.firewall == base && after.children == others <==>
        NothingForgotten(states, ops, |ops| - 1) && (before.initialized || before.entries == [])
  {
    var n := |ops| - 1;
    var before := states[n];
    RunKeeps(states, ops, n, base, others);
    if NothingForgotten(states, ops, n) {
      DeinitOnce(before, base, others);
    } else {
      var p :| Stray(p, before, others);
      OpSpares(before, ops[n], p, others);
    }
    assert states[n + 1] == Deinit(before);
  }

  lemma DeinitOnce(s: State, base: multiset<int>, others: set<int>)
    requires Kept(s, base, others)
    ensures Deinit(s).firewall == base <==> s.initialized || OwnedPorts(s.entries) == multiset{}
    ensures Deinit(s).children == others <==> s.initialized || s.entries == []
  {
    if s.initialized {
      StopConserves(s, base, others);
      ReleaseNativeConserves(Stop(s), base, others);
      assert Owned(Deinit(s)) == multiset{};
    } else {
      ReleaseNativeConserves(s, base, others);
      assert Owned(Deinit(s)) == OwnedPorts(s.entries);
      Surplus(base, OwnedPorts(s.entries));
      if s.entries != [] {
        assert s.entries[0].pid in Pids(s.entries);
      }
    }
  }

  lemma Surplus(base: multiset<int>, more: multiset<int>)
    ensures base + more == base <==> more == multiset{}
  {
    assert base + more - base == more && base - base == multiset{};
  }

  // ---------- an order of calls that is always right ----------

  /** Whether the last init or deinit among the first `n` calls is an init. */
  predicate InitialisedBy(ops: seq<Op>, n: nat)
    requires n <= |ops|
  {
    n > 0 && (ops[n - 1].OpInit? || (!ops[n - 1].OpDeinit? && InitialisedBy(ops, n - 1)))
  }

  predicate InOrder(ops: seq<Op>) {
    forall i :: 0 <= i < |ops| && (ops[i].OpStart? || ops[i].OpRestart?) ==> InitialisedBy(ops, i)
  }

  lemma StartFrame(s: State, rules: seq<Rule>, outcomes: seq<Outcome>)
    requires |rules| == |outcomes|
    ensures Start(s, rules, outcomes).initialized == s.initialized
  {
    if !s.running && rules != [] {
      var l := LaunchAll(s.(entries := []), false, rules, outcomes);
      LaunchFrame(s.(entries := []), false, rules, outcomes);
      StopAllFrame(l.state, l.state.entries);
    }
  }

  lemma {:induction false} StopAllFrame(s: State, entries: seq<Entry>)
    ensures var s' := StopAll(s, entries); s'.initialized == s.initialized && s'.entries == []
    decreases |entries|
  {
    if entries != [] {
      StopAllFrame(if entries[0].pid > 0 then Kill(s, entries[0]) else s, entries[1..]);
    }
  }

  lemma OpFrame(s: State, op: Op)
    requires Shaped(op)
    ensures Apply(s, op).initialized == (op.OpInit? || (!op.OpDeinit? && s.initialized))
    ensures (op.OpAllow? || op.OpStop? || op.OpDeinit?) && s.entries == [] ==> Apply(s, op).entries == []
    ensures op.OpDeinit? && s.initialized ==> Apply(s, op).entries == []
  {
    StopAllFrame(s, s.entries);
    if op.OpStart? {
      StartFrame(s, op.rules, op.outcomes);
    } else if op.OpRestart? {
      StartFrame(Stop(s), op.rules, op.outcomes);
    } else if op.OpInit? && !s.initialized && op.autoStart {
      StartFrame(s.(entries := [], initialized := true), op.rules, op.outcomes);
    }
  }

  /** If start and restart are only called between init and deinit, nothing is ever forgotten, and
      whenever deinit is called it restores everything. */
  lemma {:induction false} OrderSuffices(states: seq<State>, ops: seq<Op>, n: nat, base: multiset<int>, others: set<int>)
    requires Run(states, ops, base, others) && InOrder(ops) && n < |states|
    ensures NothingForgotten(states, ops, n)
    ensures states[n].initialized == InitialisedBy(ops, n) && (!states[n].initialized ==> states[n].entries == [])
  {
    if n > 0 {
      OrderSuffices(states, ops, n - 1, base, others);
      OpFrame(states[n - 1], ops[n - 1]);
    }
  }

  /** The other order, with inputs: a start, and then an init and a deinit. */
  lemma StartThenInitLeaks()
    ensures var s0 := Found(multiset{}, {});
      var s1 := Apply(s0, OpStart([Rule(1, 80, 8080, true)], [Ready(7, true)]));
      var s2 := Apply(s1, OpInit(false, [], []));
      var s3 := Apply(s2, OpDeinit);
      s2.initialized && 8080 in s3.firewall && 7 in s3.children
  {
    var s0, r := Found(multiset{}, {}), Rule(1, 80, 8080, true);
    assert LaunchAll(s0, false, [r], [Ready(7, true)]) == LaunchAll(Record(s0, r, 7, true), false, [], []);
  }

  /** And a start and a deinit without any init. */
  lemma DeinitWithoutInitLeaks()
    ensures var s0 := Found(multiset{}, {});
      var s1 := Apply(s0, OpStart([Rule(1, 80, 8080, true)], [Ready(7, true)]));
      var s2 := Apply(s1, OpDeinit);
      s1.running && 8080 in s2.firewall && 7 in s2.children
  {
    var s0, r := Found(multiset{}, {}), Rule(1, 80, 8080, true);
    assert LaunchAll(s0, false, [r], [Ready(7, true)]) == LaunchAll(Record(s0, r, 7, true), false, [], []);
  }

  /** Stopping never closes the management port. */
  lemma StopKeepsManagementPort(s: State, base: multiset<int>, others: set<int>)
    requires Conserved(s, base, others)
    ensures Stop(s).firewall[ManagementPort] == s.firewall[ManagementPort]
  {
    StopAllReturns(s, s.entries);
    NotManagement(s.entries);
  }

  lemma {:induction false} NotManagement(entries: seq<Entry>)
    requires forall e :: e in entries ==> e.port != ManagementPort
    ensures OwnedPorts(entries)[ManagementPort] == 0
  {
    if entries != [] {
      NotManagement(entries[..|entries| - 1]);
    }
  }
}

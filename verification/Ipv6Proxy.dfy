/** The IPv6 proxy service of ipv6_proxy.c: one child process and at most one firewall entry a
    rule, started and rolled back as a whole, next to one entry for the management listener.

    A database edit between two starts is simply a different `rules` argument.  What pipe, fork,
    the child's bind and ip6tables do is an `Outcome` the environment chooses for each rule. */
module Ipv6ProxySpec {
  const ManagementPort := 6677

  datatype Rule = Rule(id: int, localPort: int, ipv6Port: int, enabled: bool)

  datatype Outcome =
    | PipeFails
    | ForkFails
    | NotReady(pid: int)
    | Ready(pid: int, ruleAddable: bool)

  /** A recorded child. */
  datatype Entry = Entry(pid: int, id: int, port: int, owned: bool)

  datatype State = State(
    entries: seq<Entry>,
    running: bool,
    initialized: bool,
    nativePort: int,
    nativeOwned: bool,
    firewall: multiset<int>,
    children: set<int>)

  predicate Conflict(r: Rule) {
    (r.localPort == ManagementPort || r.ipv6Port == ManagementPort) && !Native(r)
  }

  predicate Native(r: Rule) {
    r.localPort == ManagementPort && r.ipv6Port == ManagementPort
  }

  // ---------- the firewall ----------

  /** add_ipv6_firewall_rule: 0 when the entry is there already, 1 when added, -1 on failure. */
  function AddResult(firewall: multiset<int>, port: int, addable: bool): int {
    if port in firewall then 0 else if addable then 1 else -1
  }

  function Added(firewall: multiset<int>, port: int, addable: bool): multiset<int> {
    if AddResult(firewall, port, addable) == 1 then firewall + multiset{port} else firewall
  }

  function ReleaseNative(s: State): State {
    s.(firewall := if s.nativeOwned && s.nativePort > 0 then s.firewall - multiset{s.nativePort} else s.firewall,
    nativePort := 0, nativeOwned := false)
  }

  function AllowPort(s: State, port: int, addable: bool): State {
    if port <= 0 || port > 65535 || s.nativePort == port then s
    else
      var s' := ReleaseNative(s);
      var result := AddResult(s'.firewall, port, addable);
      if result < 0 then s'
      else s'.(firewall := Added(s'.firewall, port, addable), nativePort := port, nativeOwned := result == 1)
  }

  // ---------- start ----------

  datatype Launch = Launch(state: State, native: bool, failed: bool)

  function Record(s: State, r: Rule, pid: int, addable: bool): State {
    s.(entries := s.entries + [Entry(pid, r.id, r.ipv6Port, AddResult(s.firewall, r.ipv6Port, addable) == 1)],
    firewall := Added(s.firewall, r.ipv6Port, addable),
    children := s.children + {pid})
  }

  /** The start loop over the rules that are left. */
  function LaunchAll(s: State, native: bool, rules: seq<Rule>, outcomes: seq<Outcome>): Launch
    requires |rules| == |outcomes|
    decreases |rules|
  {
    if rules == [] then Launch(s, native, false)
    else
      var r, rest, later := rules[0], rules[1..], outcomes[1..];
      if !r.enabled then LaunchAll(s, native, rest, later)
      else if Conflict(r) then Launch(s, native, true)
      else if Native(r) then LaunchAll(s, true, rest, later)
      else match outcomes[0]
        case Ready(pid, addable) => LaunchAll(Record(s, r, pid, addable), native, rest, later)
        case _ => Launch(s, native, true)
  }

  /** Close and kill the recorded children, in order. */
  function StopAll(s: State, entries: seq<Entry>): State
    decreases |entries|
  {
    if entries == [] then s.(entries := [], running := false)
    else
      var e := entries[0];
      StopAll(if e.pid > 0 then Kill(s, e) else s, entries[1..])
  }

  function Kill(s: State, e: Entry): State {
    s.(firewall := if e.owned then s.firewall - multiset{e.port} else s.firewall, children := s.children - {e.pid})
  }

  predicate LaunchFails(l: Launch) {
    l.failed || (l.state.entries == [] && !l.native)
  }

  function Start(s: State, rules: seq<Rule>, outcomes: seq<Outcome>): State
    requires |rules| == |outcomes|
  {
    if s.running || rules == [] then s
    else
      var l := LaunchAll(s.(entries := []), false, rules, outcomes);
      if LaunchFails(l) then StopAll(l.state, l.state.entries) else l.state.(running := true)
  }

  function StartResult(s: State, rules: seq<Rule>, outcomes: seq<Outcome>): int
    requires |rules| == |outcomes|
  {
    if s.running then 0
    else if rules == [] || LaunchFails(LaunchAll(s.(entries := []), false, rules, outcomes)) then -1
    else 0
  }

  function Stop(s: State): State {
    if !s.running && s.entries == [] then s else StopAll(s, s.entries)
  }

  function Deinit(s: State): State {
    if !s.initialized then ReleaseNative(s)
    else ReleaseNative(Stop(s)).(initialized := false)
  }

  /** ipv6_proxy_init forgets whatever is recorded, and then starts if so configured. */
  function Init(s: State, autoStart: bool, rules: seq<Rule>, outcomes: seq<Outcome>): State
    requires |rules| == |outcomes|
  {
    if s.initialized then s
    else
      var s' := s.(entries := [], initialized := true);
      if autoStart then Start(s', rules, outcomes) else s'
  }

  // ---------- what is owned ----------

  function OwnedPorts(entries: seq<Entry>): multiset<int> {
    if entries == [] then multiset{}
    else OwnedPorts(entries[..|entries| - 1]) + OwnedBy(entries[|entries| - 1])
  }

  function OwnedBy(e: Entry): multiset<int> {
    if e.owned then multiset{e.port} else multiset{}
  }

  function NativeOwned(s: State): multiset<int> {
    if s.nativeOwned then multiset{s.nativePort} else multiset{}
  }

  function Owned(s: State): multiset<int> {
    OwnedPorts(s.entries) + NativeOwned(s)
  }

  function Pids(entries: seq<Entry>): set<int> {
    set e | e in entries :: e.pid
  }

  /** The firewall is `base` plus exactly what is owned, each owned port once and absent from `base`. */
  ghost predicate FirewallIs(firewall: multiset<int>, base: multiset<int>, owned: multiset<int>) {
    firewall == base + owned && forall p :: p in owned ==> owned[p] == 1 && p !in base
  }

  /** The children are `others` plus exactly one for each entry. */
  ghost predicate ChildrenAre(children: set<int>, others: set<int>, entries: seq<Entry>) {
    && children == others + Pids(entries) && others !! Pids(entries)
    && forall i, j :: 0 <= i < j < |entries| ==> entries[i].pid != entries[j].pid
  }

  predicate Sound(entries: seq<Entry>) {
    forall e :: e in entries ==> e.pid > 0 && e.port != ManagementPort
  }

  /** `base` and `others` are the firewall and the child processes as this module found them. */
  ghost predicate Conserved(s: State, base: multiset<int>, others: set<int>) {
    && FirewallIs(s.firewall, base, Owned(s))
    && ChildrenAre(s.children, others, s.entries)
    && Sound(s.entries)
    && (s.nativeOwned ==> s.nativePort > 0)
  }

  /** fork returns positive ids that no unreaped child has. */
  ghost predicate FreshPids(outcomes: seq<Outcome>, children: set<int>) {
    && (forall i :: 0 <= i < |outcomes| && outcomes[i].Ready? ==> outcomes[i].pid > 0 && outcomes[i].pid !in children)
    && (forall i, j :: 0 <= i < j < |outcomes| && outcomes[i].Ready? && outcomes[j].Ready? ==>
          outcomes[i].pid != outcomes[j].pid)
  }
}

/** The power key of power_key.c: two quick presses toggle the lights, and a long press shuts the
    device down.  Times are milliseconds. */
module PowerKey {
  import opened Basics

  const LongPress := 2000
  const DoubleClick := 500

  /** `timer` is when the long-press timer was armed, `shutdowns` when shutdown sequences began and
      `toggles` how often the lights were toggled. */
  datatype State = State(pressTime: int, lastRelease: int, clicks: int, down: bool, timer: Option<int>,
                         lights: bool, toggles: nat, shutdowns: seq<int>)

  const Idle := State(0, 0, 0, false, None, true, 0, [])

  predicate Quick(s: State, now: int) {
    s.lastRelease > 0 && now - s.lastRelease < DoubleClick
  }

  function OnPress(s: State, now: int): State {
    var t := s.(pressTime := now, down := true);
    if Quick(s, now) && s.clicks + 1 >= 2 then
      t.(lights := !s.lights, toggles := s.toggles + 1, clicks := 0, lastRelease := 0)
    else t.(clicks := if Quick(s, now) then s.clicks + 1 else 1, timer := Some(now))
  }

  function OnRelease(s: State, now: int): State {
    s.(down := false, timer := None, lastRelease := now)
  }

  function OnTimer(s: State, now: int): State {
    s.(timer := None, shutdowns := if s.down then s.shutdowns + [now] else s.shutdowns)
  }

  class Monitor {
    var pressTime: int
    var lastRelease: int
    var clicks: int
    var down: bool
    var timer: Option<int>
    var lights: bool
    var toggles: nat
    var shutdowns: seq<int>

    function View(): State
      reads this
    {
      State(pressTime, lastRelease, clicks, down, timer, lights, toggles, shutdowns)
    }

    constructor ()
      ensures View() == Idle
    {
      pressTime, lastRelease, clicks, down, timer, lights, toggles, shutdowns := 0, 0, 0, false, None, true, 0, [];
    }

    method Press(now: int)
      modifies this
      ensures View() == OnPress(old(View()), now)
    {
      pressTime, down := now, true;
      if lastRelease > 0 && now - lastRelease < DoubleClick {
        clicks := clicks + 1;
        if clicks >= 2 {
          lights, toggles := !lights, toggles + 1;
          clicks, lastRelease := 0, 0;
          return;
        }
      } else {
        clicks := 1;
      }
      timer := Some(now);
    }

    method Release(now: int)
      modifies this
      ensures View() == OnRelease(old(View()), now)
    {
      down := false;
      if timer.Some? {
        timer := None;
      }
      lastRelease := now;
    }

    /** long_press_timer_callback. */
    method Fire(now: int)
      modifies this
      ensures View() == OnTimer(old(View()), now)
    {
      timer := None;
      if down {
        shutdowns := shutdowns + [now];
      }
    }
  }

  // ---------- traces ----------

  /** A press and its release.  If the timer is armed by it, it fires at `fired`, if at all. */
  datatype Push = Push(at: int, up: int, fired: Option<int>)

  function Play(s: State, p: Push): State {
    var t := OnPress(s, p.at);
    OnRelease(if t.timer.Some? && p.fired.Some? then OnTimer(t, p.fired.value) else t, p.up)
  }

  function PlayAll(trace: seq<Push>): State {
    if trace == [] then Idle else Play(PlayAll(trace[..|trace| - 1]), trace[|trace| - 1])
  }

  /** Presses and releases alternate, on a clock that is positive and does not go back. */
  predicate Alternates(trace: seq<Push>) {
    && (forall i :: 0 <= i < |trace| ==> 0 < trace[i].at <= trace[i].up)
    && (forall i :: 0 <= i < |trace| && trace[i].fired.Some? ==> trace[i].at + LongPress <= trace[i].fired.value <= trace[i].up)
    && forall i :: 0 < i < |trace| ==> trace[i - 1].up <= trace[i].at
  }

  /** The loop fires a timer at most `delay` after it is due, unless it is removed before. */
  predicate Punctual(trace: seq<Push>, delay: nat) {
    forall i :: 0 <= i < |trace| ==>
      && (trace[i].up - trace[i].at >= LongPress + delay ==> trace[i].fired.Some?)
      && (trace[i].fired.Some? ==> trace[i].fired.value <= trace[i].at + LongPress + delay)
  }

  /** The place of press `i` in its burst, from 1: a burst goes on as long as each press comes less
      than 500 ms after the release before it. */
  function Place(trace: seq<Push>, i: nat): (n: nat)
    requires i < |trace|
    ensures 1 <= n <= i + 1
  {
    if i > 0 && trace[i].at - trace[i - 1].up < DoubleClick then Place(trace, i - 1) + 1 else 1
  }

  // What the recogniser should have done after the first `n` presses.

  function Toggles(trace: seq<Push>, n: nat): nat
    requires n <= |trace|
  {
    if n == 0 then 0 else Toggles(trace, n - 1) + if Place(trace, n - 1) % 2 == 0 then 1 else 0
  }

  function Shutdowns(trace: seq<Push>, n: nat): seq<int>
    requires n <= |trace|
  {
    if n == 0 then []
    else
      var p := trace[n - 1];
      Shutdowns(trace, n - 1)
      + if Place(trace, n - 1) % 2 == 1 && p.fired.Some? then [p.fired.value] else []
  }

  /** The state after the first `n` presses. */
  predicate Exact(s: State, trace: seq<Push>, n: nat)
    requires n <= |trace|
  {
    && s.toggles == Toggles(trace, n) && s.shutdowns == Shutdowns(trace, n)
    && s.lights == (Toggles(trace, n) % 2 == 0) && !s.down && s.timer == None
    && (if n == 0 then s.lastRelease == 0 else s.lastRelease == trace[n - 1].up && s.clicks == Place(trace, n - 1) % 2)
  }

  lemma PlayStep(s: State, trace: seq<Push>, n: nat)
    requires Alternates(trace) && n < |trace| && Exact(s, trace, n)
    ensures Exact(Play(s, trace[n]), trace, n + 1)
  {
    assert n > 0 ==> trace[n - 1].up > 0;
    assert Quick(s, trace[n].at) <==> Place(trace, n) > 1;
  }

  /** After any trace, however late the timer fires, the recogniser has toggled the lights at exactly
      the presses with an even place in their burst, and has begun a shutdown at exactly those with
      an odd place that were held until the timer fired. */
  lemma {:induction false} PlayIsExact(trace: seq<Push>, n: nat)
    requires Alternates(trace) && n <= |trace|
    ensures Exact(PlayAll(trace[..n]), trace, n)
  {
    if n > 0 {
      PlayIsExact(trace, n - 1);
      assert trace[..n][..n - 1] == trace[..n - 1];
      PlayStep(PlayAll(trace[..n - 1]), trace, n - 1);
    }
  }

  lemma {:induction false} ShutdownBegins(trace: seq<Push>, delay: nat, n: nat, i: nat) returns (k: nat)
    requires Alternates(trace) && Punctual(trace, delay) && i < n <= |trace|
    requires Place(trace, i) % 2 == 1 && trace[i].up - trace[i].at >= 2000 + delay
    ensures var when := Shutdowns(trace, n); k < |when| && trace[i].at + 2000 <= when[k] <= trace[i].at + 2000 + delay
  {
    var before, when := Shutdowns(trace, n - 1), Shutdowns(trace, n);
    if i < n - 1 {
      k := ShutdownBegins(trace, delay, n - 1, i);
      assert when[k] == before[k];
    } else {
      k := |before|;
      assert when == before + [trace[i].fired.value];
    }
  }

  /** What must have begun when the timer fires at most `delay` late: every press with an odd place
      that was held that long begins a shutdown, and none that was held for less than 2000 ms. */
  lemma ShutdownsAreTimely(trace: seq<Push>, delay: nat, n: nat, i: nat)
    requires Alternates(trace) && Punctual(trace, delay) && i < n <= |trace|
    ensures var p, when := trace[i], Shutdowns(trace, n);
      && (Place(trace, i) % 2 == 1 && p.up - p.at >= 2000 + delay ==>
            exists k :: 0 <= k < |when| && p.at + 2000 <= when[k] <= p.at + 2000 + delay)
      && (Place(trace, i) % 2 == 0 || p.up - p.at < 2000 ==> Shutdowns(trace, i + 1) == Shutdowns(trace, i))
  {
    if Place(trace, i) % 2 == 1 && trace[i].up - trace[i].at >= 2000 + delay {
      var k := ShutdownBegins(trace, delay, n, i);
    }
  }

  /** A timer that is exactly on time: a shutdown begins at exactly the presses with an odd place
      that are held for 2000 ms, when they have been. */
  lemma PunctualShutdowns(trace: seq<Push>, n: nat)
    requires Alternates(trace) && Punctual(trace, 0) && n < |trace|
    ensures var p := trace[n];
      Shutdowns(trace, n + 1) == Shutdowns(trace, n)
        + if Place(trace, n) % 2 == 1 && p.up - p.at >= 2000 then [p.at + 2000] else []
  {
  }

  /** A burst goes on exactly when a press comes less than 500 ms after the release before it. */
  lemma BurstGoesOn(trace: seq<Push>, i: nat)
    requires 0 < i < |trace|
    ensures Place(trace, i) == if trace[i].at - trace[i - 1].up < 500 then Place(trace, i - 1) + 1 else 1
    ensures Place(trace, 0) == 1
  {
  }

  /** The first `k` presses of a burst toggle the lights k / 2 times, whatever came before. */
  lemma {:induction false} BurstToggles(trace: seq<Push>, i: nat)
    requires i < |trace|
    ensures var k := Place(trace, i); Toggles(trace, i + 1) - Toggles(trace, i + 1 - k) == k / 2
  {
    if Place(trace, i) > 1 {
      BurstToggles(trace, i - 1);
    }
  }

  // ---------- every moment of a trace ----------

  datatype Event = Down(at: int) | Up(at: int) | Timer(at: int)

  function Step(s: State, e: Event): State {
    match e
    case Down(at) => OnPress(s, at)
    case Up(at) => OnRelease(s, at)
    case Timer(at) => OnTimer(s, at)
  }

  /** The key goes down when it is up and up when it is down; the timer fires when it is armed. */
  predicate Possible(s: State, e: Event) {
    match e
    case Down(_) => !s.down
    case Up(_) => s.down
    case Timer(at) => s.timer.Some? && at >= s.timer.value + LongPress
  }

  predicate Run(states: seq<State>, events: seq<Event>) {
    && |states| == |events| + 1 && states[0] == Idle
    && forall i :: 0 <= i < |events| ==> Possible(states[i], events[i]) && states[i + 1] == Step(states[i], events[i])
  }

  /** A timer that is armed means that the key has been down since it was armed; so it never fires
      after the key was released. */
  lemma {:induction false} TimerMeansDown(states: seq<State>, events: seq<Event>, n: nat)
    requires Run(states, events) && n < |states|
    ensures states[n].timer.Some? ==> states[n].down && states[n].timer.value == states[n].pressTime
  {
    if n > 0 {
      TimerMeansDown(states, events, n - 1);
    }
  }

  /** A shutdown begins only when a press has lasted 2000 ms. */
  lemma ShutdownMeansHeld(states: seq<State>, events: seq<Event>, n: nat)
    requires Run(states, events) && n < |events| && states[n + 1].shutdowns != states[n].shutdowns
    ensures events[n].Timer? && states[n].down && events[n].at - states[n].pressTime >= 2000
  {
    TimerMeansDown(states, events, n);
  }
}

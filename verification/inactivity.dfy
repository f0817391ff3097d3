/**
  The idle watchdog (`InactivityService`) as a discrete-event state machine.

  Real timers and DOM listeners become explicit events:
  - `RawInput`: a mouse, keyboard or scroll event that got through the throttle;
    it reaches the service only while the raw-event listener is subscribed;
  - `UserIsActive`: a pulse on the `userIsActive` subject (from the listener,
    from `startMonitoring`, or from a caller such as "stay active" button);
  - `IdleTimerFired`: the pending idle timer armed by the last pulse expires;
  - `Tick(i)`: the i-th live countdown timer (`timer(0, 1000)`) emits;
  - `Stop`: `stopMonitoring()`.
  Each step yields the values emitted on `showWarning` and the `logout` pulses,
  in emission order.
 */
module Inactivity {
  import opened Common

  /** The two configured thresholds: idle minutes and warning seconds. */
  datatype Config = Config(timeoutMinutes: int, warningSeconds: int) {

    /** `INACTIVITY_TIMEOUT_MS`: minutes converted to milliseconds. */
    function InactivityTimeoutMs(): int {
      timeoutMinutes * 60 * 1000
    }

    /** The delay of the idle timer armed by each activity pulse. */
    function IdleDelayMs(): int {
      InactivityTimeoutMs() - warningSeconds * 1000
    }

    /** A negative timer delay is left to the timer library; the model excludes it. */
    predicate Valid() {
      IdleDelayMs() >= 0
    }

    /**
      When the logout fires, in ms after the last activity pulse: the idle
      delay, then `LastTick()` one-second ticks of `timer(0, 1000)`.
     */
    function LogoutAfterMs(): int {
      IdleDelayMs() + LastTick() * 1000
    }

    /** The tick index of the last countdown emission: the first `k` with `warningSeconds - k <= 0`. */
    function LastTick(): nat {
      if warningSeconds > 0 then warningSeconds else 0
    }
  }

  /**
    One warning-phase countdown together with its cancel-on-activity
    subscription. The element stays in the state as long as that
    subscription is live; `running` says whether the tick timer itself is
    still subscribed, and `tick` is the index of its next emission.
   */
  datatype Countdown = Countdown(tick: nat, running: bool)

  datatype State = State(
    listening: bool,          // raw-event listener subscribed (`activityEvents$`)
    pipeline: bool,           // `userIsActive` -> `switchMap` pipeline subscribed (`timer$`)
    idleTimer: Option<nat>,   // the pending idle timer of the pipeline, with its delay in ms
    countdowns: seq<Countdown>)

  datatype Event = RawInput | UserIsActive | IdleTimerFired | Tick(which: nat) | Stop

  datatype Output = Warning(seconds: int) | Logout

  datatype Step = Step(state: State, out: seq<Output>)

  /** The state right after construction: both subscriptions made, nothing pending. */
  const Initial := State(true, true, None, [])

  /**
    One pulse on `userIsActive`. Subscribers run in subscription order: first
    the pipeline (emit warning 0, replace the pending idle timer), then every
    live cancel subscription (unsubscribe its countdown and itself).
   */
  function Pulse(cfg: Config, s: State): (r: Step)
    requires cfg.Valid()
    ensures r.state.countdowns == []
    ensures r.state.listening == s.listening && r.state.pipeline == s.pipeline
    ensures s.pipeline ==> r.out == [Warning(0)] && r.state.idleTimer == Some(cfg.IdleDelayMs())
    ensures !s.pipeline ==> r.out == [] && r.state.idleTimer == s.idleTimer
  {
    var armed := if s.pipeline then s.(idleTimer := Some(cfg.IdleDelayMs())) else s;
    Step(armed.(countdowns := []), if s.pipeline then [Warning(0)] else [])
  }

  /** `startMonitoring()`: a single pulse on `userIsActive`. */
  function StartMonitoring(cfg: Config, s: State): (r: Step)
    requires cfg.Valid()
    ensures r.state.countdowns == []
    ensures s.pipeline ==> r.out == [Warning(0)] && r.state.idleTimer == Some(cfg.IdleDelayMs())
  {
    Pulse(cfg, s)
  }

  /**
    `stopMonitoring()`: unsubscribes the raw-event listener and the pipeline
    (dropping its pending idle timer) and emits warning 0. A countdown that is
    already running is not touched: its subscription is not tracked.
   */
  function StopMonitoring(s: State): (r: Step)
    ensures r.out == [Warning(0)]
    ensures !r.state.listening && !r.state.pipeline && r.state.idleTimer.None?
    ensures r.state.countdowns == s.countdowns
  {
    Step(s.(listening := false, pipeline := false, idleTimer := None), [Warning(0)])
  }

  /** The pending idle timer expires: show the warning and start a countdown. */
  function FireIdleTimer(cfg: Config, s: State): (r: Step)
    ensures s.idleTimer.None? ==> r == Step(s, [])
    ensures s.idleTimer.Some? ==>
              && r.out == [Warning(cfg.warningSeconds)]
              && r.state.idleTimer.None?
              && r.state.countdowns == s.countdowns + [Countdown(0, true)]
              && r.state.listening == s.listening && r.state.pipeline == s.pipeline
  {
    if s.idleTimer.None? then Step(s, [])
    else Step(s.(idleTimer := None, countdowns := s.countdowns + [Countdown(0, true)]),
              [Warning(cfg.warningSeconds)])
  }

  /**
    The i-th countdown emits its tick `k`: `remaining = W - k` is shown, and on
    the first non-positive value the countdown unsubscribes itself and
    `logout` fires. A countdown that is gone or stopped emits nothing.
   */
  function TickCountdown(cfg: Config, s: State, i: nat): (r: Step)
    ensures i >= |s.countdowns| || !s.countdowns[i].running ==> r == Step(s, [])
    ensures i < |s.countdowns| && s.countdowns[i].running ==>
              var k := s.countdowns[i].tick;
              var remaining := cfg.warningSeconds - k;
              && r.out == (if remaining <= 0 then [Warning(remaining), Logout] else [Warning(remaining)])
              && r.state == s.(countdowns := s.countdowns[i := Countdown(k + 1, remaining > 0)])
  {
    if i >= |s.countdowns| || !s.countdowns[i].running then Step(s, [])
    else
      var k := s.countdowns[i].tick;
      var remaining := cfg.warningSeconds - k;
      var next := s.(countdowns := s.countdowns[i := Countdown(k + 1, remaining > 0)]);
      if remaining <= 0 then Step(next, [Warning(remaining), Logout])
      else Step(next, [Warning(remaining)])
  }

  function StepOf(cfg: Config, s: State, e: Event): Step
    requires cfg.Valid()
  {
    match e
    case RawInput => if s.listening then Pulse(cfg, s) else Step(s, [])
    case UserIsActive => Pulse(cfg, s)
    case IdleTimerFired => FireIdleTimer(cfg, s)
    case Tick(i) => TickCountdown(cfg, s, i)
    case Stop => StopMonitoring(s)
  }

  /** Runs a sequence of events, concatenating what each step emits. */
  function Run(cfg: Config, s: State, events: seq<Event>): Step
    requires cfg.Valid()
    decreases |events|
  {
    if events == [] then Step(s, [])
    else
      var first := StepOf(cfg, s, events[0]);
      var rest := Run(cfg, first.state, events[1..]);
      Step(rest.state, first.out + rest.out)
  }

  // ---------------------------------------------------------------------------
  // Timing constants

  /** Each pulse arms an idle timer of `minutes*60*1000 - W*1000` ms, with warning 0 shown first. */
  lemma PulseArmsIdleDelay(cfg: Config, s: State)
    requires cfg.Valid() && s.pipeline
    ensures var r := StepOf(cfg, s, UserIsActive);
            && r.out == [Warning(0)]
            && r.state.idleTimer == Some(cfg.timeoutMinutes * 60 * 1000 - cfg.warningSeconds * 1000)
            && r.state.countdowns == []
  {
  }

  /**
    The logout comes exactly the configured inactivity timeout after the last
    activity when the warning length is not negative; a negative warning
    length postpones it beyond the timeout.
   */
  lemma LogoutAtInactivityTimeout(cfg: Config)
    ensures cfg.warningSeconds >= 0 ==> cfg.LogoutAfterMs() == cfg.InactivityTimeoutMs()
    ensures cfg.warningSeconds < 0 ==> cfg.LogoutAfterMs() > cfg.InactivityTimeoutMs()
  {
  }

  /**
    A throttled DOM event acts as an activity pulse while the listener is
    subscribed, and is not heard at all after `stopMonitoring()`.
   */
  lemma RawInputPulsesWhileListening(cfg: Config, s: State)
    requires cfg.Valid()
    ensures s.listening ==> StepOf(cfg, s, RawInput) == StepOf(cfg, s, UserIsActive)
    ensures !s.listening ==> StepOf(cfg, s, RawInput) == Step(s, [])
  {
  }

  /** A new idle timer is armed only by an activity pulse; every other event leaves it or drops it. */
  lemma IdleTimerArmedOnlyByActivity(cfg: Config, s: State, e: Event)
    requires cfg.Valid()
    requires !(e.RawInput? || e.UserIsActive?)
    ensures var after := StepOf(cfg, s, e).state.idleTimer;
            after == s.idleTimer || after.None?
  {
  }

  /** `startMonitoring()` is exactly one activity pulse. */
  lemma StartIsOnePulse(cfg: Config, s: State)
    requires cfg.Valid()
    ensures StartMonitoring(cfg, s) == StepOf(cfg, s, UserIsActive)
    ensures StartMonitoring(cfg, s) == Run(cfg, s, [UserIsActive])
  {
  }

  // ---------------------------------------------------------------------------
  // The warning phase

  function Ticks(i: nat, n: nat): (r: seq<Event>)
    ensures |r| == n
    ensures forall j :: 0 <= j < n ==> r[j] == Tick(i)
  {
    seq(n, _ => Tick(i))
  }

  /**
    Reference trace of `n` ticks of a countdown whose next tick index is `k`:
    the values `W-k, W-k-1, ...` for as long as the countdown runs, then one
    `Logout` right after the last of them, then silence.
   */
  function CountdownTrace(w: int, last: nat, k: nat, n: nat): (t: seq<Output>)
  {
    var m := if k > last then 0 else if n <= last - k then n else last - k + 1;
    seq(m, j => Warning(w - k - j)) + (if k <= last && n > last - k then [Logout] else [])
  }

  /** Number of `Logout` pulses in an output trace. */
  function Logouts(out: seq<Output>): nat
    decreases |out|
  {
    if out == [] then 0 else (if out[0] == Logout then 1 else 0) + Logouts(out[1..])
  }

  lemma {:induction false} LogoutsAppend(a: seq<Output>, b: seq<Output>)
    ensures Logouts(a + b) == Logouts(a) + Logouts(b)
    decreases |a|
  {
    if a == [] {
      assert a + b == b;
    } else {
      assert (a + b)[1..] == a[1..] + b;
      LogoutsAppend(a[1..], b);
    }
  }

  lemma {:induction false} NoLogoutAmongWarnings(t: seq<Output>)
    requires forall j :: 0 <= j < |t| ==> t[j].Warning?
    ensures Logouts(t) == 0
    decreases |t|
  {
    if t != [] {
      NoLogoutAmongWarnings(t[1..]);
    }
  }

  /** One tick of the only countdown, at index `k`, extends the reference trace by one step. */
  lemma TraceStep(w: int, last: nat, k: nat, n: nat)
    requires last == (if w > 0 then w else 0)
    requires k <= last
    ensures CountdownTrace(w, last, k, n + 1) ==
            (if w - k <= 0 then [Warning(w - k), Logout] else [Warning(w - k)]) + CountdownTrace(w, last, k + 1, n)
  {
  }

  /** A single countdown whose tick index is at least `k`, running exactly while its tick is at most `last`. */
  predicate SoleCountdownFrom(cds: seq<Countdown>, k: nat, last: nat) {
    |cds| == 1 && cds[0].tick >= k && cds[0].running == (cds[0].tick <= last)
  }

  /**
    Ticking the only countdown `n` times, from tick index `k`, emits exactly
    the reference trace, and the countdown keeps the shape "running iff its
    next tick is at most the last tick".
   */
  lemma {:induction false} TicksFollowTrace(cfg: Config, s: State, k: nat, n: nat)
    requires cfg.Valid()
    requires s.countdowns == [Countdown(k, k <= cfg.LastTick())]
    ensures var r := Run(cfg, s, Ticks(0, n));
            && r.out == CountdownTrace(cfg.warningSeconds, cfg.LastTick(), k, n)
            && r.state == s.(countdowns := r.state.countdowns)
            && SoleCountdownFrom(r.state.countdowns, k, cfg.LastTick())
    decreases n
  {
    var w, last := cfg.warningSeconds, cfg.LastTick();
    if n == 0 {
      assert Ticks(0, 0) == [];
    } else {
      var first := StepOf(cfg, s, Tick(0));
      assert Ticks(0, n)[1..] == Ticks(0, n - 1);
      if k <= last {
        var s1 := s.(countdowns := [Countdown(k + 1, k + 1 <= last)]);
        assert first.state == s1;
        TicksFollowTrace(cfg, s1, k + 1, n - 1);
        TraceStep(w, last, k, n - 1);
      } else {
        assert first == Step(s, []);
        TicksFollowTrace(cfg, s, k, n - 1);
      }
    }
  }

  /**
    A warning phase from a state with a pending idle timer and no countdown:
    the timer fires and then the countdown ticks `n` times. The trace is
    `W, W, W-1, ...` and, once `n` exceeds the last tick, exactly one `Logout`.
   */
  lemma WarningPhase(cfg: Config, s: State, n: nat)
    requires cfg.Valid()
    requires s.idleTimer.Some? && s.countdowns == []
    ensures Run(cfg, s, [IdleTimerFired] + Ticks(0, n)).out ==
            [Warning(cfg.warningSeconds)] + CountdownTrace(cfg.warningSeconds, cfg.LastTick(), 0, n)
  {
    var events := [IdleTimerFired] + Ticks(0, n);
    assert events[0] == IdleTimerFired && events[1..] == Ticks(0, n);
    var fired := StepOf(cfg, s, IdleTimerFired);
    assert fired.state.countdowns == [Countdown(0, true)];
    TicksFollowTrace(cfg, fired.state, 0, n);
  }

  /** The values shown during a warning phase never increase. */
  lemma WarningsNeverIncrease(cfg: Config, n: nat, i: nat, j: nat)
    requires cfg.Valid()
    requires var t := [Warning(cfg.warningSeconds)] + CountdownTrace(cfg.warningSeconds, cfg.LastTick(), 0, n);
             i <= j < |t| && t[i].Warning? && t[j].Warning?
    ensures var t := [Warning(cfg.warningSeconds)] + CountdownTrace(cfg.warningSeconds, cfg.LastTick(), 0, n);
            t[i].seconds >= t[j].seconds
  {
  }

  /**
    Within a warning phase `Logout` fires exactly once if the countdown got
    past its last tick and never otherwise; when it fires it is the final
    output, right after the first non-positive value and after only positive
    values before that.
   */
  lemma LogoutExactlyOnce(cfg: Config, n: nat)
    requires cfg.Valid()
    ensures var t := CountdownTrace(cfg.warningSeconds, cfg.LastTick(), 0, n);
            && Logouts(t) == (if n > cfg.LastTick() then 1 else 0)
            && (n > cfg.LastTick() ==>
                  && |t| >= 2 && t[|t| - 1] == Logout
                  && t[|t| - 2] == Warning(cfg.warningSeconds - cfg.LastTick())
                  && cfg.warningSeconds - cfg.LastTick() <= 0
                  && forall j :: 0 <= j < |t| - 2 ==> t[j].Warning? && t[j].seconds > 0)
  {
    var w, last := cfg.warningSeconds, cfg.LastTick();
    var m := if n <= last then n else last + 1;
    var warnings := seq(m, j => Warning(w - j));
    var t := CountdownTrace(w, last, 0, n);
    NoLogoutAmongWarnings(warnings);
    if n > last {
      assert t == warnings + [Logout];
      LogoutsAppend(warnings, [Logout]);
      assert Logouts([Logout]) == 1 by {
        assert [Logout][1..] == [];
      }
    } else {
      assert t == warnings;
    }
  }

  /** Once the countdown has logged out, further ticks of it emit nothing. */
  lemma SilentAfterLogout(cfg: Config, n: nat, more: nat)
    requires cfg.Valid()
    requires n > cfg.LastTick()
    ensures CountdownTrace(cfg.warningSeconds, cfg.LastTick(), 0, n + more) ==
            CountdownTrace(cfg.warningSeconds, cfg.LastTick(), 0, n)
  {
  }

  // ---------------------------------------------------------------------------
  // Cancellation and the single-countdown invariant

  /** No event in `events` is an expiry of the idle timer. */
  predicate NoIdleExpiry(events: seq<Event>) {
    forall j :: 0 <= j < |events| ==> events[j] != IdleTimerFired
  }

  /**
    After a pulse, no countdown is left and no `Logout` can be emitted until a
    new idle timer expires: an activity pulse during a warning phase cancels
    that phase for good.
   */
  lemma {:induction false} NoLogoutWithoutCountdown(cfg: Config, s: State, events: seq<Event>)
    requires cfg.Valid()
    requires s.countdowns == []
    requires NoIdleExpiry(events)
    ensures Logouts(Run(cfg, s, events).out) == 0
    ensures Run(cfg, s, events).state.countdowns == []
    decreases |events|
  {
    if events != [] {
      var first := StepOf(cfg, s, events[0]);
      assert first.out == [] || first.out == [Warning(0)];
      NoLogoutAmongWarnings(first.out);
      assert NoIdleExpiry(events[1..]) by {
        forall j | 0 <= j < |events[1..]|
          ensures events[1..][j] != IdleTimerFired
        {
          assert events[1..][j] == events[j + 1];
        }
      }
      NoLogoutWithoutCountdown(cfg, first.state, events[1..]);
      LogoutsAppend(first.out, Run(cfg, first.state, events[1..]).out);
    }
  }

  /** An activity pulse in the middle of a warning phase: that phase never logs out. */
  lemma ActivityCancelsWarning(cfg: Config, s: State, events: seq<Event>)
    requires cfg.Valid()
    requires NoIdleExpiry(events)
    ensures var r := Run(cfg, s, [UserIsActive] + events);
            Logouts(r.out) == 0
  {
    var all := [UserIsActive] + events;
    assert all[0] == UserIsActive && all[1..] == events;
    var pulsed := StepOf(cfg, s, UserIsActive);
    NoLogoutWithoutCountdown(cfg, pulsed.state, events);
    NoLogoutAmongWarnings(pulsed.out);
    LogoutsAppend(pulsed.out, Run(cfg, pulsed.state, events).out);
  }

  /**
    The watchdog's invariant: at most one countdown exists, a pending idle
    timer means no countdown and a live pipeline, and the listener and the
    pipeline are subscribed together.
   */
  predicate Inv(s: State) {
    && |s.countdowns| <= 1
    && (s.idleTimer.Some? ==> s.countdowns == [] && s.pipeline)
    && s.listening == s.pipeline
  }

  lemma StepKeepsInv(cfg: Config, s: State, e: Event)
    requires cfg.Valid() && Inv(s)
    ensures Inv(StepOf(cfg, s, e).state)
  {
  }

  lemma {:induction false} RunKeepsInv(cfg: Config, s: State, events: seq<Event>)
    requires cfg.Valid() && Inv(s)
    ensures Inv(Run(cfg, s, events).state)
    decreases |events|
  {
    if events != [] {
      StepKeepsInv(cfg, s, events[0]);
      RunKeepsInv(cfg, StepOf(cfg, s, events[0]).state, events[1..]);
    }
  }

  /** From construction on, whatever happens, at most one countdown is ever alive. */
  lemma AtMostOneCountdown(cfg: Config, events: seq<Event>)
    requires cfg.Valid()
    ensures |Run(cfg, Initial, events).state.countdowns| <= 1
  {
    RunKeepsInv(cfg, Initial, events);
  }

  // ---------------------------------------------------------------------------
  // Stopping

  /**
    After `stopMonitoring()` nothing re-arms the watchdog: raw input is no
    longer heard, no idle timer is pending, and a pulse emits nothing.
   */
  lemma StopSilencesPipeline(cfg: Config, s: State, e: Event)
    requires cfg.Valid()
    requires e.RawInput? || e.UserIsActive? || e.IdleTimerFired?
    ensures var stopped := StopMonitoring(s).state;
            && StepOf(cfg, stopped, e).out == []
            && StepOf(cfg, stopped, e).state.idleTimer.None?
  {
  }

  /**
    `stopMonitoring()` during a warning phase leaves the countdown running:
    its ticks go on, and it still logs out once past its last tick.
   */
  lemma StopKeepsRunningCountdown(cfg: Config, s: State, n: nat)
    requires cfg.Valid()
    requires s.countdowns == [Countdown(0, true)]
    ensures var stopped := StopMonitoring(s).state;
            && Run(cfg, stopped, Ticks(0, n)).out == CountdownTrace(cfg.warningSeconds, cfg.LastTick(), 0, n)
            && (n > cfg.LastTick() ==> Logouts(Run(cfg, stopped, Ticks(0, n)).out) == 1)
  {
    var stopped := StopMonitoring(s).state;
    TicksFollowTrace(cfg, stopped, 0, n);
    LogoutExactlyOnce(cfg, n);
  }
}

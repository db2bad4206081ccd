/** The deferred-close lifecycle of an OpenCloseDevice, as functions on
    its state: the playing(bool) transition, one wake-up of the closer
    thread, the destructor, the closer's polling loop, and interleaved runs
    of caller calls and worker wake-ups. Each step returns the events it
    logs; the invariant `Inv` ties the state to its log. */
module CloseLifecycle {
  import opened DeviceTrace

  /** The member fields of OpenCloseDevice, plus the state of the closer
      thread: `workerJoinable` is the thread object's joinable(), and
      `workerRunning` says closeAfterDelay has not returned yet.
      `stoppedTime` 0 is the clock's epoch, meaning no stop is recorded. */
  datatype DeviceState = DeviceState(
    playing: bool,          // m_playing
    deviceOpened: bool,     // m_device_opened
    stoppedTime: nat,       // m_playback_stopped_time
    closeFinished: bool,    // m_delayed_close_finished
    workerJoinable: bool,   // m_delayed_close_thread.joinable()
    workerRunning: bool)

  /** The state of a freshly constructed device. */
  const Initial := DeviceState(false, false, 0, false, false, false)

  /** What a caller-side step does: the new state and the calls it logs. */
  datatype Step = Step(state: DeviceState, events: seq<Event>)

  /** How one pass of the closer loop ends: it loops again, returns without
      closing (woken), or leaves the loop and closes the device. */
  datatype TickOutcome = Continue | Abort | Closed

  datatype TickResult = TickResult(state: DeviceState, events: seq<Event>, outcome: TickOutcome)

  /** One return from the closer's timed wait: the clock reading, and
      whether the wait ended before its deadline (a notify, or a spurious
      wake-up) rather than by timing out. */
  datatype Wakeup = Wakeup(now: nat, woken: bool)

  /** playing(p) at clock reading `now`. A call that does not change the
      playing flag does nothing. Starting opens the device only when it is
      not already open, then starts it. Stopping stops the device, records
      the stop time, reclaims a closer that has finished, and spawns a
      closer if the device is open and the slot is empty. */
  function Playing(s: DeviceState, p: bool, now: nat): (r: Step)
    // a call that repeats the current flag changes nothing and calls nothing
    ensures p == s.playing ==> r == Step(s, [])
    ensures r.state.playing == p
    // the close primitive is never called by playing()
    ensures Close !in r.events
    // open only when starting a closed device, and then the device is open
    ensures Open in r.events <==> p && !s.playing && !s.deviceOpened
    ensures p && !s.playing ==> r.state.deviceOpened && |r.events| > 0 && r.events[|r.events| - 1] == Start
    // stopping: stop is called first, the stop time is now, the device stays open
    ensures !p && s.playing ==> |r.events| > 0 && r.events[0] == Stop(now) && r.state.stoppedTime == now
    ensures !p ==> r.state.deviceOpened == s.deviceOpened
    // a finished closer is joined and its flag cleared
    ensures !p && s.playing && s.workerJoinable && s.closeFinished ==> Join in r.events && !r.state.closeFinished
    // starting: open (only for a closed device) then start; nothing else changes
    ensures p && !s.playing ==>
              && r.events == (if s.deviceOpened then [] else [Open]) + [Start]
              && r.state == s.(playing := true, deviceOpened := true)
    // stopping leaves the open flag alone and touches only the stop time and the slot
    ensures !p && s.playing ==> r.state.deviceOpened == s.deviceOpened && r.state.stoppedTime == now
    // a thread is spawned exactly when stopping an open device whose slot is
    // empty or holds a finished closer; the new closer is running, and it is
    // unfinished whenever the finished flag belonged to a reclaimed thread
    ensures Spawn in r.events <==> !p && s.playing && s.deviceOpened && (!s.workerJoinable || s.closeFinished)
    ensures Spawn in r.events ==>
              r.state.workerJoinable && r.state.workerRunning && (s.workerJoinable ==> !r.state.closeFinished)
    // a thread left in the slot is neither joined nor changed
    ensures !p && s.playing && s.workerJoinable && !s.closeFinished ==>
              && Join !in r.events && Spawn !in r.events
              && r.state.workerJoinable && r.state.workerRunning == s.workerRunning
    ensures !p && s.playing && s.workerJoinable && !s.closeFinished ==>
              r.state == s.(playing := false, stoppedTime := now) && r.events == [Stop(now)]
    ensures !p && s.playing && s.deviceOpened ==> r.state.workerJoinable
  {
    if s.playing == p then Step(s, [])
    else if p then
      Step(s.(playing := true, deviceOpened := true), (if s.deviceOpened then [] else [Open]) + [Start])
    else
      var stopped := s.(playing := false, stoppedTime := now);
      var reclaim := stopped.workerJoinable && stopped.closeFinished;
      var joined := if reclaim then stopped.(workerJoinable := false, closeFinished := false) else stopped;
      var spawn := joined.deviceOpened && !joined.workerJoinable;
      var armed := if spawn then joined.(workerJoinable := true, workerRunning := true) else joined;
      Step(armed, [Stop(now)] + (if reclaim then [Join] else []) + (if spawn then [Spawn] else []))
  }

  /** One pass of closeAfterDelay's loop, ending with the close when the
      loop is left. A woken wait returns without touching the device. On a
      timeout the stop time is moved to now while playing or while no stop
      is recorded, and the device is closed once now >= stop time + delay. */
  function Tick(s: DeviceState, delay: nat, now: nat, woken: bool): (r: TickResult)
    requires s.workerRunning
    // cancellation: no close, only the worker's own state changes
    ensures woken <==> r.outcome == Abort
    ensures r.outcome == Abort ==> r.events == [] && r.state == s.(workerRunning := false)
    // deferral: while playing, or with no stop recorded, the stop time becomes now
    ensures !woken && (s.playing || s.stoppedTime == 0) ==> r.state.stoppedTime == now
    ensures r.outcome == Continue ==>
              r.events == [] && r.state.workerRunning && r.state == s.(stoppedTime := r.state.stoppedTime)
    // with a positive delay a playing device is never closed, and a close
    // comes only after a recorded stop time plus the delay
    ensures r.outcome == Closed && delay > 0 ==> !s.playing && s.stoppedTime != 0 && now >= s.stoppedTime + delay
    ensures !woken && !s.playing && s.stoppedTime != 0 ==> (r.outcome == Closed <==> now >= s.stoppedTime + delay)
    // a recorded stop time is kept while the device is not playing
    ensures !woken && !s.playing && s.stoppedTime != 0 ==> r.state.stoppedTime == s.stoppedTime
    // with no delay the refreshed deadline is already due: a timeout closes
    // the device even while it is playing
    ensures !woken && delay == 0 && (s.playing || s.stoppedTime == 0) ==> r.outcome == Closed
    // closing: exactly one close, the device is closed and the closer finished
    ensures r.outcome == Closed ==>
              && r.events == [Close] && !r.state.deviceOpened && r.state.closeFinished
              && !r.state.workerRunning && r.state.workerJoinable == s.workerJoinable
              && r.state.playing == s.playing
  {
    if woken then TickResult(s.(workerRunning := false), [], Abort)
    else
      var stopped := if s.playing || s.stoppedTime == 0 then now else s.stoppedTime;
      if now < stopped + delay then TickResult(s.(stoppedTime := stopped), [], Continue)
      else TickResult(s.(stoppedTime := stopped, deviceOpened := false, closeFinished := true, workerRunning := false),
                      [Close], Closed)
  }

  /** The destructor: a thread in the slot is notified and joined. A closer
      still waiting wakes on the notification and returns without closing. */
  function Teardown(s: DeviceState): (r: Step)
    requires s.workerRunning ==> s.workerJoinable
    ensures !r.state.workerJoinable && !r.state.workerRunning
    ensures r.events == (if s.workerJoinable then [Join] else [])
    ensures r.state.deviceOpened == s.deviceOpened && r.state.playing == s.playing
  {
    if s.workerJoinable then Step(s.(workerJoinable := false, workerRunning := false), [Join])
    else Step(s, [])
  }

  /** The result of running the closer loop over a sequence of wake-ups:
      how it ended, the events it logged and how many wake-ups it used. */
  datatype WorkerRun = WorkerRun(state: DeviceState, events: seq<Event>, outcome: TickOutcome, ticks: nat)

  /** closeAfterDelay's loop with no caller interleaved: pass after pass
      until it aborts, closes, or the wake-ups run out (outcome Continue). */
  function RunWorker(s: DeviceState, delay: nat, wakes: seq<Wakeup>): (r: WorkerRun)
    requires s.workerRunning
    decreases |wakes|
  {
    if wakes == [] then WorkerRun(s, [], Continue, 0)
    else
      var t := Tick(s, delay, wakes[0].now, wakes[0].woken);
      if t.outcome == Continue then
        var rest := RunWorker(t.state, delay, wakes[1..]);
        rest.(ticks := rest.ticks + 1)
      else WorkerRun(t.state, t.events, t.outcome, 1)
  }

  /** Clock readings that never go backwards, starting at or after `clock`
      (the source reads a steady clock). */
  predicate Ascending(clock: nat, wakes: seq<Wakeup>)
    decreases |wakes|
  {
    wakes == [] || (clock <= wakes[0].now && Ascending(wakes[0].now, wakes[1..]))
  }

  predicate NoneWoken(wakes: seq<Wakeup>)
  {
    forall i :: 0 <= i < |wakes| ==> !wakes[i].woken
  }

  /** The invariant of a device and its log at clock reading `clock`. The
      flags agree with the log, the log is legal, a running closer has an
      open device to close and a recorded stop behind it, a finished flag
      belongs to a joinable thread, and the stop time is not before the
      last stop. */
  ghost predicate Inv(s: DeviceState, log: seq<Event>, clock: nat, delay: nat)
  {
    && LegalTrace(log, delay)
    && s.deviceOpened == DeviceOpen(log)
    && s.playing == Streaming(log)
    && s.workerJoinable == WorkerAlive(log)
    && (s.workerRunning ==> s.workerJoinable && s.deviceOpened && !s.closeFinished && HasStop(log))
    && (s.closeFinished ==> s.workerJoinable)
    && (delay > 0 && s.playing ==> s.deviceOpened)
    && s.stoppedTime <= clock
    && LastStopTime(log) <= clock
    && (!s.playing && s.stoppedTime != 0 ==> LastStopTime(log) <= s.stoppedTime)
  }

  /** playing(p) keeps the invariant when the clock does not go back. */
  lemma PlayingKeepsInv(s: DeviceState, log: seq<Event>, clock: nat, delay: nat, p: bool, now: nat)
    requires Inv(s, log, clock, delay) && clock <= now
    ensures Inv(Playing(s, p, now).state, log + Playing(s, p, now).events, now, delay)
  {
    if s.playing != p {
      if p {
        StartKeepsInv(s, log, clock, delay, now);
      } else {
        StopKeepsInv(s, log, clock, delay, now);
      }
    } else {
      assert log + Playing(s, p, now).events == log;
    }
  }

  lemma StartKeepsInv(s: DeviceState, log: seq<Event>, clock: nat, delay: nat, now: nat)
    requires Inv(s, log, clock, delay) && clock <= now && !s.playing
    ensures Inv(Playing(s, true, now).state, log + Playing(s, true, now).events, now, delay)
  {
    var r := Playing(s, true, now);
    if s.deviceOpened {
      assert r.events == [Start];
      Append(log, Start, delay);
    } else {
      assert r.events == [Open, Start];
      Append(log, Open, delay);
      Append(log + [Open], Start, delay);
      assert log + r.events == log + [Open] + [Start];
    }
  }

  lemma StopKeepsInv(s: DeviceState, log: seq<Event>, clock: nat, delay: nat, now: nat)
    requires Inv(s, log, clock, delay) && clock <= now && s.playing
    ensures Inv(Playing(s, false, now).state, log + Playing(s, false, now).events, now, delay)
  {
    var stopped := s.(playing := false, stoppedTime := now);
    var log1 := log + [Stop(now)];
    Append(log, Stop(now), delay);
    if s.workerJoinable && s.closeFinished {
      // the finished closer is joined, and a new one spawned if the device is open
      var joined := stopped.(workerJoinable := false, closeFinished := false);
      Append(log1, Join, delay);
      if s.deviceOpened {
        Append(log1 + [Join], Spawn, delay);
        StopResult(s, now, joined.(workerJoinable := true, workerRunning := true), [Stop(now), Join, Spawn]);
        assert log + [Stop(now), Join, Spawn] == log1 + [Join] + [Spawn];
      } else {
        StopResult(s, now, joined, [Stop(now), Join]);
        assert log + [Stop(now), Join] == log1 + [Join];
      }
    } else if s.deviceOpened && !s.workerJoinable {
      Append(log1, Spawn, delay);
      StopResult(s, now, stopped.(workerJoinable := true, workerRunning := true), [Stop(now), Spawn]);
      assert log + [Stop(now), Spawn] == log1 + [Spawn];
    } else {
      StopResult(s, now, stopped, [Stop(now)]);
    }
  }

  /** Only a proof helper: unfolds Playing's stop branch into a concrete
      result, so that StopKeepsInv's cases stay cheap to verify. */
  lemma StopResult(s: DeviceState, now: nat, st: DeviceState, events: seq<Event>)
    requires s.playing
    requires var reclaim := s.workerJoinable && s.closeFinished;
             var spawn := s.deviceOpened && (!s.workerJoinable || reclaim);
             var stopped := s.(playing := false, stoppedTime := now);
             var joined := if reclaim then stopped.(workerJoinable := false, closeFinished := false) else stopped;
             && st == (if spawn then joined.(workerJoinable := true, workerRunning := true) else joined)
             && events == [Stop(now)] + (if reclaim then [Join] else []) + (if spawn then [Spawn] else [])
    ensures Playing(s, false, now) == Step(st, events)
  {
  }

  /** A closer pass keeps the invariant when the clock does not go back. */
  lemma TickKeepsInv(s: DeviceState, log: seq<Event>, clock: nat, delay: nat, now: nat, woken: bool)
    requires Inv(s, log, clock, delay) && s.workerRunning && clock <= now
    ensures Inv(Tick(s, delay, now, woken).state, log + Tick(s, delay, now, woken).events, now, delay)
  {
    var r := Tick(s, delay, now, woken);
    if r.outcome == Closed {
      Append(log, Close, delay);
    } else {
      assert log + r.events == log;
    }
  }

  /** The destructor keeps the log legal, empties the worker slot and never
      closes the device: its log gains at most a Join. */
  lemma TeardownKeepsTrace(s: DeviceState, log: seq<Event>, clock: nat, delay: nat)
    requires Inv(s, log, clock, delay)
    ensures LegalTrace(log + Teardown(s).events, delay)
    ensures !WorkerAlive(log + Teardown(s).events)
    ensures DeviceOpen(log + Teardown(s).events) == s.deviceOpened
  {
    if s.workerJoinable {
      Append(log, Join, delay);
    } else {
      assert log + Teardown(s).events == log;
    }
  }

  /** With a positive delay the closer closes the device only once the
      clock has passed the most recent stop() by the whole delay. */
  lemma CloseOnlyAfterDelay(s: DeviceState, log: seq<Event>, clock: nat, delay: nat, now: nat, woken: bool)
    requires Inv(s, log, clock, delay) && s.workerRunning && delay > 0
    requires Tick(s, delay, now, woken).outcome == Closed
    ensures HasStop(log) && !Streaming(log) && now >= LastStopTime(log) + delay
  {
  }

  /** With a close delay of 0 a running closer closes the device on its
      first timeout even while it is playing: the refresh sets the stop time
      to now and the check now < now + 0 fails. The Close lands in the log
      while the device is still streaming. */
  lemma ZeroDelayClosesWhilePlaying(s: DeviceState, log: seq<Event>, clock: nat, now: nat)
    requires Inv(s, log, clock, 0) && s.workerRunning && s.playing
    ensures var r := Tick(s, 0, now, false);
            && r.outcome == Closed && r.events == [Close] && !r.state.deviceOpened && r.state.playing
            && var log' := log + r.events;
            LegalTrace(log', 0) && Streaming(log') && !DeviceOpen(log')
  {
    Append(log, Close, 0);
  }

  /** Released once idle: stopping an open device at a nonzero time, unless
      an early-returned closer still holds the slot, leaves a closer running
      with the stop time at now; if no wake-up ends early, that closer closes
      the device exactly at the first wake-up at or after now + delay. */
  lemma StopThenIdleCloses(s: DeviceState, log: seq<Event>, clock: nat, delay: nat, now: nat, wakes: seq<Wakeup>)
    requires Inv(s, log, clock, delay) && s.playing && s.deviceOpened && now > 0
    requires !(s.workerJoinable && !s.workerRunning && !s.closeFinished)
    requires NoneWoken(wakes)
    ensures var st := Playing(s, false, now).state;
            && st.workerRunning && st.stoppedTime == now
            && var r := RunWorker(st, delay, wakes);
            var k := FirstDue(wakes, now + delay);
            && (r.outcome == Closed <==> k < |wakes|)
            && (r.outcome == Closed ==> r.ticks == k + 1 && r.events == [Close] && !r.state.deviceOpened)
            && (r.outcome == Continue ==> r.ticks == |wakes| && r.events == [] && r.state.deviceOpened)
  {
    var st := Playing(s, false, now).state;
    assert st.workerRunning;
    CloseAtDeadline(st, delay, wakes);
  }

  /** Deferral: while playing, a closer that is never woken keeps looping
      and never closes, whatever the clock says. */
  lemma {:induction false} DeferWhilePlaying(s: DeviceState, delay: nat, wakes: seq<Wakeup>)
    requires s.workerRunning && s.playing && delay > 0 && NoneWoken(wakes)
    ensures RunWorker(s, delay, wakes).outcome == Continue
    ensures RunWorker(s, delay, wakes).events == []
    ensures RunWorker(s, delay, wakes).state.deviceOpened == s.deviceOpened
    ensures RunWorker(s, delay, wakes).ticks == |wakes|
    decreases |wakes|
  {
    if wakes != [] {
      var t := Tick(s, delay, wakes[0].now, false);
      assert t.outcome == Continue;
      DeferWhilePlaying(t.state, delay, wakes[1..]);
    }
  }

  /** The index of the first wake-up at or after `deadline`, |wakes| when
      there is none. */
  function FirstDue(wakes: seq<Wakeup>, deadline: nat): (k: nat)
    ensures k <= |wakes|
    ensures forall j :: 0 <= j < k ==> wakes[j].now < deadline
    ensures k < |wakes| ==> wakes[k].now >= deadline
  {
    if wakes == [] || wakes[0].now >= deadline then 0
    else 1 + FirstDue(wakes[1..], deadline)
  }

  /** Closing: after a stop at a nonzero time, with the device no longer
      playing and no wake-up early, the closer closes exactly at the first
      wake-up at or after stop time + delay, and keeps looping if there is
      none. */
  lemma {:induction false} CloseAtDeadline(s: DeviceState, delay: nat, wakes: seq<Wakeup>)
    requires s.workerRunning && !s.playing && s.stoppedTime != 0 && NoneWoken(wakes)
    ensures var r := RunWorker(s, delay, wakes);
            var k := FirstDue(wakes, s.stoppedTime + delay);
            && (r.outcome == Closed <==> k < |wakes|)
            && (r.outcome == Closed ==> r.ticks == k + 1 && r.events == [Close] && !r.state.deviceOpened)
            && (r.outcome == Continue ==> r.ticks == |wakes| && r.events == [] && r.state.deviceOpened == s.deviceOpened)
  {
    if wakes != [] {
      var t := Tick(s, delay, wakes[0].now, false);
      if t.outcome == Continue {
        assert t.state == s;
        CloseAtDeadline(t.state, delay, wakes[1..]);
      }
    }
  }

  /** Cancellation: a wake-up before the closer would close makes it return
      without closing; the device stays open. */
  lemma {:induction false} WokenBeforeDeadlineAborts(s: DeviceState, delay: nat, wakes: seq<Wakeup>, i: nat)
    requires s.workerRunning && !s.playing && s.stoppedTime != 0
    requires i < |wakes| && wakes[i].woken && NoneWoken(wakes[..i])
    requires forall j :: 0 <= j < i ==> wakes[j].now < s.stoppedTime + delay
    ensures RunWorker(s, delay, wakes).outcome == Abort
    ensures RunWorker(s, delay, wakes).events == []
    ensures RunWorker(s, delay, wakes).state.deviceOpened == s.deviceOpened
  {
    if i > 0 {
      var t := Tick(s, delay, wakes[0].now, false);
      assert !wakes[0].woken by { assert wakes[..i][0] == wakes[0]; }
      assert t.state == s;
      assert wakes[1..][..i - 1] == wakes[..i][1..];
      WokenBeforeDeadlineAborts(t.state, delay, wakes[1..], i - 1);
    }
  }

  /** The device, its log and the clock, for runs of interleaved calls. */
  datatype System = System(state: DeviceState, log: seq<Event>, clock: nat)

  /** What can happen to a device between construction and destruction: a
      caller calls playing(active), or the closer thread returns from its
      wait (nothing happens when there is no closer running). */
  datatype Action = CallPlaying(active: bool, at: nat) | WorkerWakes(wake: Wakeup)

  function ActionTime(a: Action): (t: nat)
  {
    match a
    case CallPlaying(_, at) => at
    case WorkerWakes(w) => w.now
  }

  function Apply(sys: System, delay: nat, a: Action): (next: System)
  {
    match a
    case CallPlaying(active, at) =>
      var r := Playing(sys.state, active, at);
      System(r.state, sys.log + r.events, at)
    case WorkerWakes(w) =>
      if sys.state.workerRunning then
        var r := Tick(sys.state, delay, w.now, w.woken);
        System(r.state, sys.log + r.events, w.now)
      else System(sys.state, sys.log, w.now)
  }

  function Run(sys: System, delay: nat, actions: seq<Action>): (final: System)
    decreases |actions|
  {
    if actions == [] then sys else Run(Apply(sys, delay, actions[0]), delay, actions[1..])
  }

  predicate InOrder(clock: nat, actions: seq<Action>)
    decreases |actions|
  {
    actions == [] || (clock <= ActionTime(actions[0]) && InOrder(ActionTime(actions[0]), actions[1..]))
  }

  /** Any run with a clock that does not go back keeps the invariant. */
  lemma {:induction false} RunKeepsInv(sys: System, delay: nat, actions: seq<Action>)
    requires Inv(sys.state, sys.log, sys.clock, delay) && InOrder(sys.clock, actions)
    ensures var e := Run(sys, delay, actions); Inv(e.state, e.log, e.clock, delay)
    decreases |actions|
  {
    if actions != [] {
      var a := actions[0];
      match a {
        case CallPlaying(active, at) =>
          PlayingKeepsInv(sys.state, sys.log, sys.clock, delay, active, at);
        case WorkerWakes(w) =>
          if sys.state.workerRunning {
            TickKeepsInv(sys.state, sys.log, sys.clock, delay, w.now, w.woken);
          }
      }
      RunKeepsInv(Apply(sys, delay, a), delay, actions[1..]);
    }
  }

  /** For every run from a fresh device, with any delay: open is never
      called on an open device nor close on a closed one (they alternate,
      starting with open), and at most one closer thread is ever alive;
      with a positive delay the device is never closed while streaming. */
  lemma DeviceLifecycle(delay: nat, actions: seq<Action>)
    requires InOrder(0, actions)
    ensures var e := Run(System(Initial, [], 0), delay, actions);
            && LegalTrace(e.log, delay)
            && Count(e.log, Open) == Count(e.log, Close) + (if e.state.deviceOpened then 1 else 0)
            && Count(e.log, Spawn) <= Count(e.log, Join) + 1
            && (delay > 0 && e.state.playing ==> e.state.deviceOpened)
  {
    var e := Run(System(Initial, [], 0), delay, actions);
    RunKeepsInv(System(Initial, [], 0), delay, actions);
    OpensAndCloses(e.log, delay);
    SpawnsAndJoins(e.log, delay);
  }

  /** A closer that returned because its wait ended early, while the caller
      still holds the device, is never replaced: it stays in the slot,
      unfinished, so later stops neither join it nor spawn a new closer, and
      the open device is never closed before destruction. */
  lemma {:induction false} AbortedCloserBlocksSlot(sys: System, delay: nat, actions: seq<Action>)
    requires var s := sys.state; s.workerJoinable && !s.workerRunning && !s.closeFinished && s.deviceOpened
    ensures var e := Run(sys, delay, actions);
            && e.state.workerJoinable && !e.state.workerRunning && !e.state.closeFinished && e.state.deviceOpened
            && Count(e.log, Close) == Count(sys.log, Close)
            && Count(e.log, Spawn) == Count(sys.log, Spawn)
            && Count(e.log, Join) == Count(sys.log, Join)
    decreases |actions|
  {
    if actions != [] {
      var next := Apply(sys, delay, actions[0]);
      match actions[0] {
        case CallPlaying(active, at) =>
          var r := Playing(sys.state, active, at);
          if active == sys.state.playing {
            assert next.log == sys.log;
          } else if active {
            assert r.events == [Start];
            CountAppend(sys.log, Start, Close);
            CountAppend(sys.log, Start, Spawn);
            CountAppend(sys.log, Start, Join);
          } else {
            assert r.events == [Stop(at)];
            CountAppend(sys.log, Stop(at), Close);
            CountAppend(sys.log, Stop(at), Spawn);
            CountAppend(sys.log, Stop(at), Join);
          }
        case WorkerWakes(w) =>
      }
      AbortedCloserBlocksSlot(next, delay, actions[1..]);
    }
  }
}

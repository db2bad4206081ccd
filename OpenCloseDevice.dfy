/** OpenCloseDevice as an object whose methods update its fields in place,
    each proved to do what the matching function of CloseLifecycle says.
    Playing, CloserTick and CloseAfterDelay keep the lifecycle invariant;
    Destroy does not (the finished flag stays set after joining a finished
    closer), and promises a legal log and an empty slot instead. The
    closer thread is driven by its caller: CloserTick is one pass of
    closeAfterDelay's loop and CloseAfterDelay runs that loop over a
    sequence of wake-ups. */
module OpenCloseDevices {
  import opened DeviceTrace
  import CloseLifecycle

  class OpenCloseDevice {
    const closeDelay: nat              // m_device_close_delay, in clock units
    var isPlaying: bool                // m_playing
    var deviceOpened: bool             // m_device_opened
    var playbackStoppedTime: nat       // m_playback_stopped_time; 0 = no stop recorded
    var delayedCloseFinished: bool     // m_delayed_close_finished
    var closerJoinable: bool           // m_delayed_close_thread.joinable()
    var closerRunning: bool            // closeAfterDelay has not returned yet

    // the backend and thread calls made so far, and the last clock reading
    ghost var log: seq<Event>
    ghost var clock: nat

    ghost function State(): CloseLifecycle.DeviceState
      reads this
    {
      CloseLifecycle.DeviceState(isPlaying, deviceOpened, playbackStoppedTime,
                                 delayedCloseFinished, closerJoinable, closerRunning)
    }

    ghost predicate Valid()
      reads this
    {
      CloseLifecycle.Inv(State(), log, clock, closeDelay)
    }

    constructor (delay: nat)
      ensures Valid() && closeDelay == delay
      ensures State() == CloseLifecycle.Initial && log == [] && clock == 0
    {
      closeDelay := delay;
      isPlaying, deviceOpened, playbackStoppedTime := false, false, 0;
      delayedCloseFinished, closerJoinable, closerRunning := false, false, false;
      log, clock := [], 0;
    }

    /** playing(playing) at clock reading `now`. */
    method Playing(playing: bool, now: nat)
      requires Valid() && clock <= now
      modifies this
      ensures Valid() && clock == now
      ensures State() == CloseLifecycle.Playing(old(State()), playing, now).state
      ensures log == old(log) + CloseLifecycle.Playing(old(State()), playing, now).events
    {
      ghost var s0, log0 := State(), log;
      if isPlaying != playing {
        isPlaying := playing;
        if playing {
          if !deviceOpened {
            log := log + [Open];
          }
          deviceOpened := true;
          log := log + [Start];
        } else {
          log := log + [Stop(now)];
          playbackStoppedTime := now;
          if closerJoinable && delayedCloseFinished {
            // the finished closer has returned, so the join does not wait
            closerJoinable := false;
            log := log + [Join];
            delayedCloseFinished := false;
          }
          if deviceOpened && !closerJoinable {
            closerJoinable, closerRunning := true, true;
            log := log + [Spawn];
          }
        }
      }
      clock := now;
      assert State() == CloseLifecycle.Playing(s0, playing, now).state;
      assert log == log0 + CloseLifecycle.Playing(s0, playing, now).events;
      CloseLifecycle.PlayingKeepsInv(s0, log0, old(clock), closeDelay, playing, now);
    }

    /** One pass of closeAfterDelay: the timed wait returns at clock reading
        `now`, woken early when `woken`; the loop is left by returning
        (Abort), by closing the device (Closed), or not at all (Continue). */
    method CloserTick(now: nat, woken: bool) returns (outcome: CloseLifecycle.TickOutcome)
      requires Valid() && closerRunning && clock <= now
      modifies this
      ensures Valid() && clock == now
      ensures State() == CloseLifecycle.Tick(old(State()), closeDelay, now, woken).state
      ensures log == old(log) + CloseLifecycle.Tick(old(State()), closeDelay, now, woken).events
      ensures outcome == CloseLifecycle.Tick(old(State()), closeDelay, now, woken).outcome
    {
      ghost var s0, log0 := State(), log;
      if woken {
        closerRunning := false;
        outcome := CloseLifecycle.Abort;
      } else {
        if isPlaying || playbackStoppedTime == 0 {
          playbackStoppedTime := now;
        }
        if now < playbackStoppedTime + closeDelay {
          outcome := CloseLifecycle.Continue;
        } else {
          log := log + [Close];
          delayedCloseFinished := true;
          deviceOpened := false;
          closerRunning := false;
          outcome := CloseLifecycle.Closed;
        }
      }
      clock := now;
      CloseLifecycle.TickKeepsInv(s0, log0, old(clock), closeDelay, now, woken);
    }

    /** closeAfterDelay's loop over the wake-ups `wakes`, with no call of
        Playing in between; `used` is the number of wake-ups consumed. */
    method CloseAfterDelay(wakes: seq<CloseLifecycle.Wakeup>) returns (outcome: CloseLifecycle.TickOutcome, used: nat)
      requires Valid() && closerRunning && CloseLifecycle.Ascending(clock, wakes)
      modifies this
      ensures Valid() && clock >= old(clock)
      ensures var r := CloseLifecycle.RunWorker(old(State()), closeDelay, wakes);
              && State() == r.state && log == old(log) + r.events
              && outcome == r.outcome && used == r.ticks
    {
      ghost var whole := CloseLifecycle.RunWorker(State(), closeDelay, wakes);
      outcome, used := CloseLifecycle.Continue, 0;
      while used < |wakes| && outcome == CloseLifecycle.Continue
        invariant used <= |wakes|
        invariant Valid() && clock >= old(clock)
        invariant outcome == CloseLifecycle.Continue ==>
                    && closerRunning && log == old(log) && CloseLifecycle.Ascending(clock, wakes[used..])
                    && var rest := CloseLifecycle.RunWorker(State(), closeDelay, wakes[used..]);
                    && rest.state == whole.state && rest.events == whole.events
                    && rest.outcome == whole.outcome && rest.ticks + used == whole.ticks
        invariant outcome != CloseLifecycle.Continue ==>
                    && State() == whole.state && log == old(log) + whole.events
                    && outcome == whole.outcome && used == whole.ticks
      {
        assert wakes[used..][1..] == wakes[used + 1..];
        outcome := CloserTick(wakes[used].now, wakes[used].woken);
        used := used + 1;
      }
    }

    /** ~OpenCloseDevice: a closer in the slot is notified and joined. A
        closer still waiting wakes and returns without closing the device. */
    method Destroy()
      requires Valid()
      modifies this
      ensures State() == CloseLifecycle.Teardown(old(State())).state
      ensures log == old(log) + CloseLifecycle.Teardown(old(State())).events
      ensures LegalTrace(log, closeDelay) && !WorkerAlive(log) && !closerJoinable
    {
      ghost var s0, log0 := State(), log;
      if closerJoinable {
        // notify_one, then join: the closer returns on the notification
        closerRunning := false;
        closerJoinable := false;
        log := log + [Join];
      }
      CloseLifecycle.TeardownKeepsTrace(s0, log0, clock, closeDelay);
    }
  }
}

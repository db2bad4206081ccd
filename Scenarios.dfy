/** Two concrete timelines with a close delay of 100 clock units. */
module LifecycleScenarios {
  import opened DeviceTrace
  import opened CloseLifecycle

  const Fresh := System(Initial, [], 0)

  /** The timeline of RestartDefersClose, up to the wake-up at 150. */
  const Timeline := [
    CallPlaying(true, 0), CallPlaying(false, 10),
    WorkerWakes(Wakeup(20, false)), WorkerWakes(Wakeup(40, false)),
    CallPlaying(true, 50), WorkerWakes(Wakeup(55, false)),
    CallPlaying(false, 60),
    WorkerWakes(Wakeup(110, false)), WorkerWakes(Wakeup(150, false))]

  /** A run of `a` then `b` is the run of `b` from where `a` ends. */
  lemma {:induction false} RunConcat(sys: System, delay: nat, a: seq<Action>, b: seq<Action>)
    ensures Run(sys, delay, a + b) == Run(Run(sys, delay, a), delay, b)
    decreases |a|
  {
    if a != [] {
      assert (a + b)[0] == a[0] && (a + b)[1..] == a[1..] + b;
      RunConcat(Apply(sys, delay, a[0]), delay, a[1..], b);
    } else {
      assert a + b == b;
    }
  }

  /** A run of three actions applies them in order. */
  lemma RunThree(sys: System, delay: nat, x: Action, y: Action, z: Action)
    ensures Run(sys, delay, [x, y, z]) == Apply(Apply(Apply(sys, delay, x), delay, y), delay, z)
  {
    var s1 := Apply(sys, delay, x);
    var s2 := Apply(s1, delay, y);
    assert [x, y, z][1..] == [y, z] && [y, z][1..] == [z] && [z][1..] == [];
    assert Run(sys, delay, [x, y, z]) == Run(s1, delay, [y, z]);
    assert Run(s1, delay, [y, z]) == Run(s2, delay, [z]);
    assert Run(s2, delay, [z]) == Run(Apply(s2, delay, z), delay, []);
  }

  /** Start at 0, stop at 10, closer wakes at 20: open, start, stop, spawn. */
  lemma FirstStop()
    ensures Run(Fresh, 100, Timeline[..3])
            == System(DeviceState(false, true, 10, false, true, true), [Open, Start, Stop(10), Spawn], 20)
  {
    RunThree(Fresh, 100, Timeline[0], Timeline[1], Timeline[2]);
    assert Timeline[..3] == [Timeline[0], Timeline[1], Timeline[2]];
  }

  /** Wake at 40, restart at 50 without open, wake at 55 moves the stop time. */
  lemma Restart(sys: System)
    requires sys == System(DeviceState(false, true, 10, false, true, true), [Open, Start, Stop(10), Spawn], 20)
    ensures Run(sys, 100, Timeline[3..6])
            == System(DeviceState(true, true, 55, false, true, true), [Open, Start, Stop(10), Spawn, Start], 55)
  {
    RunThree(sys, 100, Timeline[3], Timeline[4], Timeline[5]);
    assert Timeline[3..6] == [Timeline[3], Timeline[4], Timeline[5]];
  }

  /** Stop at 60 spawns nothing; the wakes at 110 and 150 do not close. */
  lemma SecondStop(sys: System)
    requires sys == System(DeviceState(true, true, 55, false, true, true), [Open, Start, Stop(10), Spawn, Start], 55)
    ensures Run(sys, 100, Timeline[6..])
            == System(DeviceState(false, true, 60, false, true, true), [Open, Start, Stop(10), Spawn, Start, Stop(60)], 150)
  {
    RunThree(sys, 100, Timeline[6], Timeline[7], Timeline[8]);
    assert Timeline[6..] == [Timeline[6], Timeline[7], Timeline[8]];
  }

  /** Where Timeline ends: still open, stop time 60, the first closer running. */
  lemma RunTimeline()
    ensures Run(Fresh, 100, Timeline)
            == System(DeviceState(false, true, 60, false, true, true), [Open, Start, Stop(10), Spawn, Start, Stop(60)], 150)
  {
    assert Timeline == Timeline[..3] + Timeline[3..6] + Timeline[6..];
    RunConcat(Fresh, 100, Timeline[..3] + Timeline[3..6], Timeline[6..]);
    RunConcat(Fresh, 100, Timeline[..3], Timeline[3..6]);
    FirstStop();
    Restart(Run(Fresh, 100, Timeline[..3]));
    SecondStop(Run(Fresh, 100, Timeline[..3] + Timeline[3..6]));
  }

  /** Start at 0, stop at 10, restart at 50, stop again at 60. The closer
      spawned at 10 sees the restart and moves the stop time forward; the
      second stop spawns no second closer; the device is not closed at 110
      or 150 but at the first wake-up at or after 60 + 100, and open is
      called once. */
  lemma RestartDefersClose()
    ensures var e := Run(Fresh, 100, Timeline);
            e.log == [Open, Start, Stop(10), Spawn, Start, Stop(60)] && e.state.deviceOpened && e.state.workerRunning
    ensures var e := Run(Fresh, 100, Timeline + [WorkerWakes(Wakeup(160, false))]);
            e.log == [Open, Start, Stop(10), Spawn, Start, Stop(60), Close] && !e.state.deviceOpened
            && e.state.closeFinished && e.state.workerJoinable
  {
    RunTimeline();
    var e := System(DeviceState(false, true, 60, false, true, true), [Open, Start, Stop(10), Spawn, Start, Stop(60)], 150);
    var last := WorkerWakes(Wakeup(160, false));
    RunConcat(Fresh, 100, Timeline, [last]);
    assert Run(e, 100, [last])
        == System(DeviceState(false, false, 60, true, true, false),
                  [Open, Start, Stop(10), Spawn, Start, Stop(60), Close], 160) by {
      assert [last][1..] == [];
    }
  }

  /** Start at 0, stop at 10, destroy after the wake-up at 20. The
      destructor's notification makes the waiting closer return without
      calling close: the log ends with the join and the device is still
      open. */
  lemma TeardownCancelsClose()
    ensures var e := Run(Fresh, 100, [CallPlaying(true, 0), CallPlaying(false, 10), WorkerWakes(Wakeup(20, false))]);
            var d := Teardown(e.state);
            e.log + d.events == [Open, Start, Stop(10), Spawn, Join]
            && d.state.deviceOpened && !d.state.workerJoinable
  {
  }
}

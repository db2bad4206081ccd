# Deferred device close of audaspace's OpenCloseDevice

This project models the deferred-close lifecycle of `OpenCloseDevice`, the audio
output device base that opens its backend device lazily and closes it only after it
has been idle for a configured delay. The state is four member fields:

- `m_playing`;
- `m_device_opened`;
- `m_playback_stopped_time`, where 0 (the clock's epoch) means no stop is recorded;
- `m_delayed_close_finished`.

There is also one closer-thread slot, `m_delayed_close_thread`. The operations are
`playing(bool)`, the closer's loop `closeAfterDelay()` and the destructor.

The backend primitives `open`, `close`, `start` and `stop` are recorded as events in
a log. Spawning and joining the closer thread are recorded too. The steady clock
becomes a `nat` reading passed to each step. The closer thread becomes a step that
the caller drives: one return from its timed wait, with the clock reading and
whether the wait ended early.

Files:

- `DeviceTrace.dfy` defines the event log. It states when a log is a legal use of
  the device and the thread slot: Open only on a closed device, Close only on an open
  one, and Spawn only into an empty slot. It proves that Open and Close alternate
  and that Spawn and Join alternate, so at most one closer is ever alive.
- `CloseLifecycle.dfy` holds the state machine as functions:
  - `Playing` for `playing(bool)`;
  - `Tick` for one pass of the closer loop;
  - `Teardown` for the destructor;
  - `RunWorker` for the closer loop with no caller in between;
  - `Run` for any interleaving of caller calls and closer wake-ups.

  The invariant `Inv` ties the state to its log. The file proves that `Playing`
  and `Tick`, the steps of `Run`, keep `Inv`. `Teardown` does not keep it, because
  the destructor leaves the finished flag set after joining a finished closer. The
  file proves that `Teardown` keeps the log legal and empties the slot. It also
  proves the timing properties: deferral while playing, closing exactly at the
  deadline, and cancellation.
- `OpenCloseDevice.dfy` is the class. Its fields are the member fields. Its methods
  `Playing`, `CloserTick`, `CloseAfterDelay` (a `while` loop over wake-ups) and
  `Destroy` update the fields in place. Each is proved equal to the matching function.
  The first three also keep the invariant. `Destroy` keeps the log legal and leaves
  no worker. It does not keep the invariant, because the destructor leaves
  `m_delayed_close_finished` set after joining a finished closer.
- `Scenarios.dfy` holds two concrete timelines with a delay of 100.

Three behaviours of the code are worth knowing. Each is proved, and in each case
the model follows the code rather than what one might expect of a deferred close:

- A destructor call during the idle window does not close the device, provided
  the notification reaches the waiting closer. The destructor notifies and joins. The woken closer returns at src/devices/OpenCloseDevice.cpp:30 without
  calling `close()`, so the device stays open (`TeardownCancelsClose`, `Teardown`).
- The closer returns on any wait that does not time out, not only on the
  destructor's notification, and that includes a spurious wake-up. The aborted
  thread stays joinable with `m_delayed_close_finished` false. From then on,
  `playing(false)` neither joins it nor spawns a replacement, so the device is never
  closed until destruction (`AbortedCloserBlocksSlot`).
- With a close delay of 0, a timeout pass sets the stop time to now and then finds
  `now >= now + 0`. It therefore closes the device even while playing, and the
  Close lands in the log while the device is streaming
  (`ZeroDelayClosesWhilePlaying`, `Tick`). The "never closed while playing"
  properties are proved for a positive delay.

## Model

| member | source | states |
|---|---|---|
| CloseLifecycle.Playing | src/devices/OpenCloseDevice.cpp:46-68 | A call that repeats the current flag changes nothing and logs nothing. Starting logs exactly Open (only for a closed device) then Start, and changes only the playing and open flags. Stopping logs Stop first, sets the stop time to now and leaves the open flag as it was. It joins a finished closer and clears its flag. It spawns exactly when an open device's slot is empty or holds a finished closer, and the spawned closer is running. A closer that has not finished is neither joined nor replaced, and keeps running if it was. In that case the stop logs only Stop and changes only the playing flag and the stop time. playing() never calls close |
| CloseLifecycle.Tick | src/devices/OpenCloseDevice.cpp:22-44 | A wait that ends early returns (Abort) with no event, and only the worker stops. On a timeout while playing, or with no stop recorded, the stop time becomes now. Otherwise a recorded stop time is kept. A Continue pass logs nothing and changes only the stop time. A Closed pass logs exactly one Close, clears the open flag and sets the finished flag. With a positive delay it never closes while playing, and it closes exactly when now >= stop time + delay. With a delay of 0, a timeout while playing or with no stop recorded closes the device |
| CloseLifecycle.Teardown | src/devices/OpenCloseDevice.cpp:70-76 | Afterwards no thread is in the slot or running. The only event is a Join, made when a thread was joinable. The open and playing flags are unchanged, so the destructor never closes the device |
| CloseLifecycle.PlayingKeepsInv | src/devices/OpenCloseDevice.cpp:46-68 | playing(p) keeps the invariant when the clock does not go back. The invariant covers a legal log, flags that match the log, a running closer that has an open device and a recorded stop, a finished flag only on a joinable thread, and a stop time not before the last stop |
| CloseLifecycle.StartKeepsInv | src/devices/OpenCloseDevice.cpp:49-55 | Starting keeps the invariant: Open is logged only for a closed device, and Start only for an open, idle one |
| CloseLifecycle.StopKeepsInv | src/devices/OpenCloseDevice.cpp:56-66 | Stopping keeps the invariant: a Join only for a thread in the slot, and a Spawn only into an empty slot of an open device |
| CloseLifecycle.TickKeepsInv | src/devices/OpenCloseDevice.cpp:22-44 | Every closer pass keeps the invariant. Close is logged only on an open device and, with a positive delay, only on a stopped one |
| CloseLifecycle.TeardownKeepsTrace | src/devices/OpenCloseDevice.cpp:70-76 | The destructor keeps the log legal, leaves no live worker and does not change whether the device is open |
| CloseLifecycle.CloseOnlyAfterDelay | src/devices/OpenCloseDevice.cpp:32-38 | With a positive delay, a closing pass happens after some stop(), while not streaming, and no earlier than the most recent stop time plus the delay |
| CloseLifecycle.ZeroDelayClosesWhilePlaying | src/devices/OpenCloseDevice.cpp:32-43 | With a close delay of 0, a running closer's first timeout while playing closes the device. The log stays legal, ends with a Close while the device is still streaming, and the device is closed |
| CloseLifecycle.StopThenIdleCloses | src/devices/OpenCloseDevice.cpp:22-65 | Stopping an open device at a nonzero time leaves a closer running with the stop time at now, unless a closer that returned early still holds the slot. If no later wake-up ends early, that closer closes the device exactly at the first wake-up at or after now + delay, with one Close. If there is no such wake-up, it keeps looping and the device stays open |
| CloseLifecycle.DeferWhilePlaying | src/devices/OpenCloseDevice.cpp:24-36 | While playing with a positive delay, a closer that is never woken loops through every wake-up and never closes |
| CloseLifecycle.CloseAtDeadline | src/devices/OpenCloseDevice.cpp:32-43 | After a recorded stop, when not playing and never woken, the loop closes exactly at the first wake-up at or after stop time + delay, with one Close. It keeps looping, logging nothing, when no such wake-up exists |
| CloseLifecycle.WokenBeforeDeadlineAborts | src/devices/OpenCloseDevice.cpp:26-31 | A wake-up that ends early before the deadline makes the loop return without close, and the device stays open |
| CloseLifecycle.RunKeepsInv | src/devices/OpenCloseDevice.cpp:22-68 | Any interleaving of playing() calls and closer wake-ups, with a clock that does not go back, keeps the invariant |
| CloseLifecycle.DeviceLifecycle | src/devices/OpenCloseDevice.cpp:22-68 | From a fresh device, every run gives a legal log. Opens equal closes, plus one while the device is open. Spawns exceed joins by at most one, so at most one closer is alive. With a positive delay, playing implies open |
| CloseLifecycle.AbortedCloserBlocksSlot | src/devices/OpenCloseDevice.cpp:26-65 | A closer that returned early and is still unjoined stays in the slot forever. Later calls add no Close, Spawn or Join, and the device stays open |
| DeviceTrace.StreamingImpliesOpen | src/devices/OpenCloseDevice.cpp:32-55 | In a legal log with a positive delay, the device streams only while it is open |
| DeviceTrace.OpensAndCloses | src/devices/OpenCloseDevice.cpp:41-53 | In a legal log, Open and Close alternate starting with Open: the number of Opens is the number of Closes, plus one while the device is open |
| DeviceTrace.SpawnsAndJoins | src/devices/OpenCloseDevice.cpp:59-65 | In a legal log, Spawn and Join alternate starting with Spawn, so at most one closer thread is alive at any point |
| OpenCloseDevices.OpenCloseDevice.Playing | src/devices/OpenCloseDevice.cpp:46-68 | Updates the fields in place. The new state and the calls it makes are those of CloseLifecycle.Playing, and the invariant is kept |
| OpenCloseDevices.OpenCloseDevice.CloserTick | src/devices/OpenCloseDevice.cpp:25-43 | One pass of the loop body and its epilogue. The new state, events and outcome are those of CloseLifecycle.Tick, and the invariant is kept |
| OpenCloseDevices.OpenCloseDevice.CloseAfterDelay | src/devices/OpenCloseDevice.cpp:22-44 | The for(;;) loop over a sequence of wake-ups. The final state, events, outcome and number of passes are those of CloseLifecycle.RunWorker |
| OpenCloseDevices.OpenCloseDevice.Destroy | src/devices/OpenCloseDevice.cpp:70-76 | Notifies and joins a joinable closer. Afterwards the slot is empty, the log is legal and no worker is alive |
| LifecycleScenarios.RestartDefersClose | src/devices/OpenCloseDevice.cpp:22-68 | Delay 100: start at 0, stop at 10, restart at 50, stop at 60. There is one Open and one Spawn. There is no close at 110, and the close comes at the wake-up at 160 |
| LifecycleScenarios.TeardownCancelsClose | src/devices/OpenCloseDevice.cpp:26-76 | Delay 100: start at 0, stop at 10, destroy at 20. The closer is joined without close, and the device is still open |

## Left out

- Threads, the mutex and the condition variable are left out. Each playing() call and each closer pass is one atomic step, and runs are interleavings of these steps. Races inside a step are not modelled. This includes the unguarded reads and writes of the shared flags from both threads.
- OpenCloseDevices.OpenCloseDevice.Destroy: assumes the notification reaches a closer that is waiting. In the source, a notify that arrives while the closer is between two waits is lost. If the device is not playing, the join at src/devices/OpenCloseDevice.cpp:74 then waits until the closer closes the device after the full delay. If it is playing, every timeout pass moves the stop time to now (lines 32-35), so the closer never leaves its loop and the join never returns. Neither path is modelled.
- CloseLifecycle.Teardown: "the destructor never closes the device" rests on the same assumption that the notification is delivered. With a lost notify the closer can still close the device before the join returns.
- LifecycleScenarios.TeardownCancelsClose: the same assumption. The closer is taken to be woken by the notification, so it returns without closing.
- The wait quantum `delay / 10` and `wait_until` timing are left out. Each wake-up is an input with its clock reading and whether it ended early. A notify and a spurious wake-up are the same input.
- A closer pass reads the steady clock twice, on lines 33 and 34. The model uses one reading for both. "Never closes while playing with a positive delay" depends on this. That claim is made by `Tick`, `DeferWhilePlaying`, `CloseOnlyAfterDelay`, `DeviceLifecycle` and `StreamingImpliesOpen`. In the source, if a pass stalls for at least the delay between the two readings while `m_playing` is true, it reaches line 41 and closes a playing device.
- Clock readings are `nat` values that never go back. This is the steady clock's promise. The invariant records the last reading, so `PlayingKeepsInv`, `StopKeepsInv`, `StartKeepsInv`, `TickKeepsInv`, `RunKeepsInv`, `DeviceLifecycle` and the class methods require readings that do not go back. `DeferWhilePlaying`, `CloseAtDeadline`, `WokenBeforeDeadlineAborts` and `StopThenIdleCloses` do not require it.
- The backend primitives `open`, `close`, `start` and `stop` are recorded as events only. Nothing is assumed about their failure. The source ignores failures and so does the model.
- src/devices/OpenCloseDevice.h is not part of this model. The constructor starts from not playing, not open, stop time 0, no finished flag and an empty slot. These initial values are assumed, since the header that sets them is not part of this model.
- plugins/ffmpeg/FFMPEG.cpp is left out. It is a thin wrapper that registers the FFmpeg reader and writer with the file manager and has no logic of its own.

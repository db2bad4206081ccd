/** The calls an OpenCloseDevice makes, recorded as a log, and the rules a
    log must follow to be a legal use of a backend device and of the single
    closer-thread slot.

    The four device primitives (open, close, start, stop) are backend
    virtuals; they are recorded here and nothing is assumed about what they
    do. Spawn and Join record what happens to the closer-thread slot. */
module DeviceTrace {

  datatype Event =
    | Open            // backend open()
    | Close           // backend close()
    | Start           // backend start()
    | Stop(at: nat)   // backend stop(), with the clock reading stored as the stop time
    | Spawn           // a closer thread is created in the worker slot
    | Join            // the thread in the worker slot is joined

  /** Whether the device is open after the calls in `log`: the last of the
      Open/Close events is an Open. */
  function DeviceOpen(log: seq<Event>): (isOpen: bool)
  {
    if log == [] then false
    else match log[|log| - 1]
      case Open => true
      case Close => false
      case _ => DeviceOpen(log[..|log| - 1])
  }

  /** Whether the device is streaming after `log`: the last of the
      Start/Stop events is a Start. */
  function Streaming(log: seq<Event>): (streaming: bool)
  {
    if log == [] then false
    else match log[|log| - 1]
      case Start => true
      case Stop(_) => false
      case _ => Streaming(log[..|log| - 1])
  }

  /** Whether a thread occupies the worker slot after `log`: the last of the
      Spawn/Join events is a Spawn. */
  function WorkerAlive(log: seq<Event>): (alive: bool)
  {
    if log == [] then false
    else match log[|log| - 1]
      case Spawn => true
      case Join => false
      case _ => WorkerAlive(log[..|log| - 1])
  }

  /** Whether `log` holds a Stop. */
  function HasStop(log: seq<Event>): (found: bool)
  {
    if log == [] then false
    else log[|log| - 1].Stop? || HasStop(log[..|log| - 1])
  }

  /** The time of the most recent Stop in `log`, 0 when there is none. */
  function LastStopTime(log: seq<Event>): (t: nat)
  {
    if log == [] then 0
    else if log[|log| - 1].Stop? then log[|log| - 1].at
    else LastStopTime(log[..|log| - 1])
  }

  /** May `e` follow the calls in `prefix`? Open only on a closed device and
      Close only on an open one; Start only on an open, idle device and
      Stop only on a streaming one; a thread is spawned only into an empty
      slot and only while the device is open, and joined only when present.
      When the close delay is positive the device is never closed while
      streaming and never stopped once closed. */
  predicate Legal(prefix: seq<Event>, e: Event, delay: nat)
  {
    match e
    case Open => !DeviceOpen(prefix)
    case Close => DeviceOpen(prefix) && (delay > 0 ==> !Streaming(prefix))
    case Start => DeviceOpen(prefix) && !Streaming(prefix)
    case Stop(_) => Streaming(prefix) && (delay > 0 ==> DeviceOpen(prefix))
    case Spawn => DeviceOpen(prefix) && !WorkerAlive(prefix)
    case Join => WorkerAlive(prefix)
  }

  /** Every event of `log` is legal after the events before it. */
  predicate LegalTrace(log: seq<Event>, delay: nat)
  {
    log == [] || (LegalTrace(log[..|log| - 1], delay) && Legal(log[..|log| - 1], log[|log| - 1], delay))
  }

  /** How each view of the log changes when one event is appended. */
  lemma Append(log: seq<Event>, e: Event, delay: nat)
    ensures DeviceOpen(log + [e]) == (if e == Open then true else if e == Close then false else DeviceOpen(log))
    ensures Streaming(log + [e]) == (if e == Start then true else if e.Stop? then false else Streaming(log))
    ensures WorkerAlive(log + [e]) == (if e == Spawn then true else if e == Join then false else WorkerAlive(log))
    ensures HasStop(log + [e]) == (e.Stop? || HasStop(log))
    ensures LastStopTime(log + [e]) == (if e.Stop? then e.at else LastStopTime(log))
    ensures LegalTrace(log + [e], delay) == (LegalTrace(log, delay) && Legal(log, e, delay))
  {
    assert (log + [e])[..|log|] == log;
  }

  /** In a legal trace with a positive delay the device streams only while
      it is open: Start needs an open device and Close needs a stopped one. */
  lemma {:induction false} StreamingImpliesOpen(log: seq<Event>, delay: nat)
    requires delay > 0 && LegalTrace(log, delay)
    ensures Streaming(log) ==> DeviceOpen(log)
  {
    if log != [] {
      var prefix := log[..|log| - 1];
      StreamingImpliesOpen(prefix, delay);
      Append(prefix, log[|log| - 1], delay);
      assert prefix + [log[|log| - 1]] == log;
    }
  }

  /** In a legal trace Open and Close alternate, starting with Open: the
      number of Opens is the number of Closes, plus one while the device
      is open. */
  lemma {:induction false} OpensAndCloses(log: seq<Event>, delay: nat)
    requires LegalTrace(log, delay)
    ensures Count(log, Open) == Count(log, Close) + (if DeviceOpen(log) then 1 else 0)
  {
    if log != [] {
      var prefix, e := log[..|log| - 1], log[|log| - 1];
      assert prefix + [e] == log;
      OpensAndCloses(prefix, delay);
      Append(prefix, e, delay);
      CountAppend(prefix, e, Open);
      CountAppend(prefix, e, Close);
    }
  }

  /** In a legal trace Spawn and Join alternate, starting with Spawn: at
      most one closer thread is ever alive. */
  lemma {:induction false} SpawnsAndJoins(log: seq<Event>, delay: nat)
    requires LegalTrace(log, delay)
    ensures Count(log, Spawn) == Count(log, Join) + (if WorkerAlive(log) then 1 else 0)
  {
    if log != [] {
      var prefix, e := log[..|log| - 1], log[|log| - 1];
      assert prefix + [e] == log;
      SpawnsAndJoins(prefix, delay);
      Append(prefix, e, delay);
      CountAppend(prefix, e, Spawn);
      CountAppend(prefix, e, Join);
    }
  }

  /** The number of occurrences of `e` in `log`. */
  function Count(log: seq<Event>, e: Event): (n: nat)
  {
    if log == [] then 0
    else Count(log[..|log| - 1], e) + (if log[|log| - 1] == e then 1 else 0)
  }

  lemma CountAppend(log: seq<Event>, e: Event, x: Event)
    ensures Count(log + [e], x) == Count(log, x) + (if e == x then 1 else 0)
  {
    assert (log + [e])[..|log|] == log;
  }
}

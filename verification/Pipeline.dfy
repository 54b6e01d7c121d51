/**
  The concurrent run of smoke.c: camera threads ticking into bounded queues that may
  refuse, and a drain loop reading from any of them. One step relation over values.
 */
module Pipeline {
  import opened Machine
  import opened Frames
  import opened Wire
  import opened SinkModel
  import opened Backends

  /** Where a camera thread stands in cam_run. */
  datatype Place = NotStarted | AtGuard | InTick | AfterTick | Finished

  /**
    A camera, its thread and its queue. The last two fields are history: every frame the
    queue accepted, and for every frame acquired whether it was.
   */
  datatype Producer = Producer(
    id: u32,
    capacity: u32,
    backend: Backend,
    place: Place,
    ticks: nat,
    sent: nat,
    dropped: nat,
    timeouts: nat,
    failed: bool,
    queue: seq<seq<byte>>,
    log: seq<FrameValue>,
    fates: seq<bool>)

  datatype Exit = Stopped | SinkFailed | ByCount | ByQuiet | TimedOut

  /** Where the main thread stands: starting threads, then the parts of the drain loop. */
  datatype MainPlace =
    | Spawning(next: nat)
    | Polling(quiet: nat)
    | Counting(quiet: nat)
    | Scanning(quiet: nat, at: nat)
    | Watching(quiet: nat)
    | Exited(why: Exit)

  /** The whole run. `trace` is history: the messages received so far. */
  datatype Run = Run(
    producers: seq<Producer>,
    main: MainPlace,
    stop: bool,
    sink: SinkState,
    trace: seq<seq<byte>>)

  /**
    What was configured: the sink's checks, frames per camera (0 means until stopped), and
    whether there is a deadline.
   */
  datatype Setup = Setup(sinkConfig: Config, want: u32, watched: bool)

  datatype Action =
    | Spawn
    | SpawnFails
    | EnterTick(i: nat)
    | LeaveLoop(i: nat)
    | Send(i: nat, arrival: Arrival, clock: i64)
    | Refuse(i: nat, arrival: Arrival, clock: i64)
    | SendFails(i: nat, arrival: Arrival, clock: i64)
    | AcquireTimesOut(i: nat, arrival: Arrival)
    | AcquireFails(i: nat, arrival: Arrival)
    | CountTick(i: nat)
    | SeeStop
    | ReceiveFrom(i: nat)
    | ReceiveNothing
    | ReceiveFails
    | CheckCount
    | ScanProducer
    | ScanEnds
    | WatchdogFires
    | WatchdogWaits
    | Interrupt

  // ---- camera threads ----

  predicate WantsMore(setup: Setup, p: Producer) {
    setup.want == 0 || p.ticks < setup.want
  }

  /** An acquire that brings a frame. */
  predicate Acquires(p: Producer, a: Arrival) {
    CanTake(p.backend, a) && CodeOf(p.backend, a) == 0
  }

  function FrameOf(p: Producer, a: Arrival, clock: i64): (f: FrameValue)
    requires Acquires(p, a)
    ensures |f.support| < U32
  {
    Stamped(Filled(p.backend, a, p.id, p.capacity), clock)
  }

  function Sent(p: Producer, a: Arrival, clock: i64): Producer
    requires Acquires(p, a)
  {
    var f := FrameOf(p, a, clock);
    p.(backend := AfterTaking(p.backend, a), place := AfterTick, sent := p.sent + 1,
       queue := p.queue + [Encode(f)], log := p.log + [f], fates := p.fates + [true])
  }

  function Refused(p: Producer, a: Arrival): Producer
    requires Acquires(p, a)
  {
    p.(backend := AfterTaking(p.backend, a), place := AfterTick, dropped := p.dropped + 1, fates := p.fates + [false])
  }

  function Broken(p: Producer, a: Arrival): Producer
    requires Acquires(p, a)
  {
    p.(backend := AfterTaking(p.backend, a), place := Finished, failed := true, fates := p.fates + [false])
  }

  /** What a thread action does to its own camera. */
  predicate ThreadEnabled(setup: Setup, stop: bool, p: Producer, a: Action) {
    match a
    case EnterTick(_) => p.place == AtGuard && !stop && WantsMore(setup, p)
    case LeaveLoop(_) => p.place == AtGuard && (stop || !WantsMore(setup, p))
    case Send(_, arrival, _) => p.place == InTick && Acquires(p, arrival)
    case Refuse(_, arrival, _) => p.place == InTick && Acquires(p, arrival)
    case SendFails(_, arrival, _) => p.place == InTick && Acquires(p, arrival)
    case AcquireTimesOut(_, arrival) =>
      p.place == InTick && CanTake(p.backend, arrival) && CodeOf(p.backend, arrival) > 0
    case AcquireFails(_, arrival) =>
      p.place == InTick && CanTake(p.backend, arrival) && CodeOf(p.backend, arrival) < 0
    case CountTick(_) => p.place == AfterTick
    case _ => false
  }

  function ThreadAct(setup: Setup, stop: bool, p: Producer, a: Action): Producer
    requires ThreadEnabled(setup, stop, p, a)
  {
    match a
    case EnterTick(_) => p.(place := InTick)
    case LeaveLoop(_) => p.(place := Finished)
    case Send(_, arrival, clock) => Sent(p, arrival, clock)
    case Refuse(_, arrival, _) => Refused(p, arrival)
    case SendFails(_, arrival, _) => Broken(p, arrival)
    case AcquireTimesOut(_, arrival) =>
      p.(backend := AfterTaking(p.backend, arrival), place := AfterTick, timeouts := p.timeouts + 1)
    case AcquireFails(_, arrival) =>
      p.(backend := AfterTaking(p.backend, arrival), place := Finished, failed := true)
    case CountTick(_) => p.(place := AtGuard, ticks := p.ticks + 1)
  }

  /** The drain loop's view of a camera that may still send. */
  predicate Producing(setup: Setup, p: Producer) {
    p.place != NotStarted && !p.failed && WantsMore(setup, p)
  }

  // ---- the whole run ----

  predicate IsThreadAction(a: Action) {
    a.EnterTick? || a.LeaveLoop? || a.Send? || a.Refuse? || a.SendFails? || a.AcquireTimesOut?
    || a.AcquireFails? || a.CountTick?
  }

  function Total(setup: Setup, s: Run): nat {
    setup.want * |s.producers|
  }

  predicate Enabled(setup: Setup, s: Run, a: Action) {
    if IsThreadAction(a) then a.i < |s.producers| && ThreadEnabled(setup, s.stop, s.producers[a.i], a)
    else
      match a
      case Spawn => s.main.Spawning? && s.main.next < |s.producers|
      case SpawnFails => s.main.Spawning? && s.main.next < |s.producers|
      case SeeStop => s.main.Polling? && s.stop
      case ReceiveFrom(i) => s.main.Polling? && !s.stop && i < |s.producers| && s.producers[i].queue != []
      case ReceiveNothing => s.main.Polling? && !s.stop
      case ReceiveFails => s.main.Polling? && !s.stop
      case CheckCount => s.main.Counting?
      case ScanProducer => s.main.Scanning? && s.main.at < |s.producers|
      case ScanEnds => s.main.Scanning? && s.main.at == |s.producers|
      case WatchdogFires => s.main.Watching? && setup.watched
      case WatchdogWaits => s.main.Watching?
      case Interrupt => true
  }

  function Leave(s: Run, why: Exit): Run {
    s.(main := Exited(why), stop := true)
  }

  function StartNext(s: Run): Run
    requires s.main.Spawning? && s.main.next < |s.producers|
  {
    var k := s.main.next;
    s.(producers := s.producers[k := s.producers[k].(place := AtGuard)],
       main := if k + 1 == |s.producers| then Polling(0) else Spawning(k + 1))
  }

  function Took(setup: Setup, s: Run, i: nat): Run
    requires i < |s.producers| && s.producers[i].queue != [] && |s.sink.table.ids| == |s.sink.table.slots|
  {
    var p := s.producers[i];
    s.(producers := s.producers[i := p.(queue := p.queue[1..])],
       main := Counting(0),
       sink := Deliver(setup.sinkConfig, s.sink, p.queue[0]),
       trace := s.trace + [p.queue[0]])
  }

  function Act(setup: Setup, s: Run, a: Action): Run
    requires Enabled(setup, s, a) && |s.sink.table.ids| == |s.sink.table.slots|
  {
    if IsThreadAction(a) then
      s.(producers := s.producers[a.i := ThreadAct(setup, s.stop, s.producers[a.i], a)])
    else
      match a
      case Spawn => StartNext(s)
      case SpawnFails => s.(stop := true, main := Polling(0))
      case SeeStop => Leave(s, Stopped)
      case ReceiveFrom(i) => Took(setup, s, i)
      case ReceiveNothing => s.(main := Counting(s.main.quiet + 1))
      case ReceiveFails => Leave(s, SinkFailed)
      case CheckCount =>
        if Total(setup, s) > 0 && s.sink.received >= Total(setup, s) then Leave(s, ByCount)
        else s.(main := Scanning(s.main.quiet, 0))
      case ScanProducer =>
        if Producing(setup, s.producers[s.main.at]) then s.(main := Watching(s.main.quiet))
        else s.(main := Scanning(s.main.quiet, s.main.at + 1))
      case ScanEnds => if s.main.quiet >= 2 then Leave(s, ByQuiet) else s.(main := Watching(s.main.quiet))
      case WatchdogFires => Leave(s, TimedOut)
      case WatchdogWaits => s.(main := Polling(s.main.quiet))
      case Interrupt => s.(stop := true)
  }

  /** What build_cameras and sink_expect leave behind. */
  ghost predicate Initial(setup: Setup, s: Run) {
    && 0 < |s.producers| <= 16
    && s.main == Spawning(0) && !s.stop && s.sink == EMPTY && s.trace == []
    && |setup.sinkConfig.specs| == |s.producers|
    && (forall i, j :: 0 <= i < j < |s.producers| ==> s.producers[i].id != s.producers[j].id)
    && forall i :: 0 <= i < |s.producers| ==>
         && setup.sinkConfig.specs[i].cameraId == s.producers[i].id
         && setup.sinkConfig.specs[i].maxSites == s.producers[i].capacity
         && FreshProducer(s.producers[i])
  }

  ghost predicate FreshProducer(p: Producer) {
    && p.place == NotStarted && p.ticks == p.sent == p.dropped == p.timeouts == 0 && !p.failed
    && p.queue == [] && p.log == [] && p.fates == []
    && 0 < p.backend.Sites() == p.capacity
    && (p.backend.Mock? ==>
          p.backend.st.period > 0 && p.backend.st.next > 0 && p.backend.st.sequence == 0)
  }

  /** The run after these actions, all of them enabled in turn. */
  ghost predicate Happens(setup: Setup, start: Run, actions: seq<Action>)
    requires Initial(setup, start)
    decreases |actions|, 0
  {
    actions == [] ||
    (Happens(setup, start, actions[..|actions| - 1])
     && Enabled(setup, After(setup, start, actions[..|actions| - 1]), actions[|actions| - 1]))
  }

  ghost function After(setup: Setup, start: Run, actions: seq<Action>): (s: Run)
    requires Initial(setup, start) && Happens(setup, start, actions)
    ensures |s.sink.table.ids| == |s.sink.table.slots|
    decreases |actions|, 1
  {
    if actions == [] then start
    else Act(setup, After(setup, start, actions[..|actions| - 1]), actions[|actions| - 1])
  }

  /** One more action, if it is enabled where the run has come to. */
  lemma Then(setup: Setup, start: Run, before: seq<Action>, a: Action)
    requires Initial(setup, start) && Happens(setup, start, before)
    requires Enabled(setup, After(setup, start, before), a)
    ensures Happens(setup, start, before + [a])
    ensures After(setup, start, before + [a]) == Act(setup, After(setup, start, before), a)
  {
    assert (before + [a])[..|before|] == before;
  }
}

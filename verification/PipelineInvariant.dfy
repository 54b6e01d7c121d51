/** What every state of every run keeps: accounting, queues, healthy logs, an honest sink. */
module PipelineInvariant {
  import opened Machine
  import opened Frames
  import opened Wire
  import opened FanIn
  import opened SinkModel
  import opened SinkTrace
  import opened MockModel
  import opened Backends
  import opened Pipeline
  import Binary32
  import SinkLaws

  // ---- one camera and its thread ----

  /** Every counted tick sent, dropped or timed out, and there are never more than asked for. */
  ghost predicate Accounted(want: u32, p: Producer) {
    && p.sent == |p.log|
    && p.sent + p.dropped + p.timeouts == p.ticks + One(p.place == AfterTick)
    && (want != 0 ==> p.ticks + One(p.place == InTick || p.place == AfterTick || p.failed) <= want)
    && (p.failed ==> p.place == Finished)
  }

  ghost predicate Fits(id: u32, capacity: u32, f: FrameValue) {
    f.WellFormed() && f.cameraId == id && |f.support| <= capacity
  }

  ghost predicate AllFit(id: u32, capacity: u32, log: seq<FrameValue>) {
    forall j :: 0 <= j < |log| ==> Fits(id, capacity, log[j])
  }

  /** The queue holds the last frames accepted, encoded, oldest first. */
  ghost predicate Queued(queue: seq<seq<byte>>, log: seq<FrameValue>) {
    && |queue| <= |log|
    && forall j :: 0 <= j < |queue| ==> Carries(queue[j], log[|log| - |queue| + j])
  }

  ghost predicate Carries(m: seq<byte>, f: FrameValue) {
    f.WellFormed() && m == Encode(f)
  }

  /** The frames the sink has taken from this camera. */
  function Taken(p: Producer): seq<FrameValue> {
    if |p.queue| <= |p.log| then p.log[..|p.log| - |p.queue|] else []
  }

  /** Among all frames acquired, the positions of those the queue accepted. */
  function Positions(fates: seq<bool>): (ps: seq<nat>)
    ensures forall j :: 0 <= j < |ps| ==> ps[j] < |fates|
    ensures forall j, k :: 0 <= j < k < |ps| ==> ps[j] < ps[k]
  {
    if fates == [] then []
    else Positions(fates[..|fates| - 1]) + (if fates[|fates| - 1] then [|fates| - 1] else [])
  }

  ghost predicate SequencesArePositions(log: seq<FrameValue>, fates: seq<bool>) {
    && |Positions(fates)| == |log|
    && forall j :: 0 <= j < |log| ==> log[j].sequence == Positions(fates)[j] % U64
  }

  /** How long apart frames acquired at these positions are, at the least. */
  function Apart(period: nat, from: nat, until: nat): int {
    (until - from - 1) * period
  }

  /** Logged stamps are spread by the positions of their frames, refused frames in between included. */
  ghost predicate Spaced(log: seq<FrameValue>, ps: seq<nat>, period: nat) {
    |ps| == |log| &&
    forall j, k :: 0 <= j < k < |log| ==> log[k].tNs - log[j].tNs > Apart(period, ps[j], ps[k])
  }

  /** And so is the next deadline, before the n-th acquire. */
  ghost predicate DueAfter(log: seq<FrameValue>, ps: seq<nat>, period: nat, next: int, n: nat) {
    |ps| == |log| && forall j :: 0 <= j < |log| ==> next - log[j].tNs > Apart(period, ps[j], n)
  }

  /** A synthetic camera's history is what its state says. */
  ghost predicate Timed(p: Producer)
    requires p.backend.Mock?
  {
    var st := p.backend.st;
    && st.period > 0 && st.next > 0
    && p.timeouts == 0
    && |p.fates| == p.sent + p.dropped + One(p.failed)
    && st.sequence == |p.fates| % U64
    && SequencesArePositions(p.log, p.fates)
    && Spaced(p.log, Positions(p.fates), st.period)
    && DueAfter(p.log, Positions(p.fates), st.period, st.next, |p.fates|)
  }

  /** Whatever the backend, indices stay below its site count; values too if it is safe. */
  ghost predicate Healthy(p: Producer) {
    && 0 < p.backend.Sites() == p.capacity
    && IndicesBelow(p.capacity, p.log)
    && (p.backend.Safe() ==> ValuesInRange(p.log))
    && (p.backend.Mock? ==> Timed(p))
  }

  ghost predicate Sound(want: u32, p: Producer) {
    Accounted(want, p) && AllFit(p.id, p.capacity, p.log) && Queued(p.queue, p.log) && Healthy(p)
  }

  // ---- what a thread's own action does ----

  lemma PositionsSnoc(fates: seq<bool>, fate: bool)
    ensures Positions(fates + [fate]) == Positions(fates) + (if fate then [|fates|] else [])
  {
    Snoc(fates, fate);
  }

  lemma QueueGrows(queue: seq<seq<byte>>, log: seq<FrameValue>, f: FrameValue)
    requires Queued(queue, log) && f.WellFormed()
    ensures Queued(queue + [Encode(f)], log + [f])
  {
    var longer, after := queue + [Encode(f)], log + [f];
    forall j | 0 <= j < |longer|
      ensures Carries(longer[j], after[|after| - |longer| + j])
    {
      if j < |queue| {
        assert longer[j] == queue[j] && after[|after| - |longer| + j] == log[|log| - |queue| + j];
      }
    }
  }

  lemma SequencesGrow(log: seq<FrameValue>, fates: seq<bool>, f: FrameValue)
    requires SequencesArePositions(log, fates) && f.sequence == |fates| % U64
    ensures SequencesArePositions(log + [f], fates + [true])
  {
    PositionsSnoc(fates, true);
  }

  lemma SequencesStay(log: seq<FrameValue>, fates: seq<bool>)
    requires SequencesArePositions(log, fates)
    ensures SequencesArePositions(log, fates + [false])
  {
    PositionsSnoc(fates, false);
  }

  lemma OneFurther(period: nat, from: nat, until: nat)
    ensures Apart(period, from, until + 1) == Apart(period, from, until) + period
    ensures Apart(period, until, until + 1) == 0
  {
  }

  lemma DueLater(log: seq<FrameValue>, ps: seq<nat>, period: nat, next: int, n: nat, later: int)
    requires DueAfter(log, ps, period, next, n) && later >= next + period
    ensures DueAfter(log, ps, period, later, n + 1)
  {
    forall j | 0 <= j < |log|
      ensures later - log[j].tNs > Apart(period, ps[j], n + 1)
    {
      OneFurther(period, ps[j], n);
    }
  }

  lemma SpacedGrows(log: seq<FrameValue>, ps: seq<nat>, period: nat, next: int, n: nat, f: FrameValue)
    requires Spaced(log, ps, period) && DueAfter(log, ps, period, next, n) && f.tNs >= next
    ensures Spaced(log + [f], ps + [n], period)
  {
  }

  lemma DueGrows(log: seq<FrameValue>, ps: seq<nat>, period: nat, n: nat, f: FrameValue, later: int)
    requires DueAfter(log, ps, period, later, n + 1) && later > f.tNs
    ensures DueAfter(log + [f], ps + [n], period, later, n + 1)
  {
    OneFurther(period, n, n);
  }

  lemma IndicesGrow(capacity: u32, log: seq<FrameValue>, f: FrameValue)
    requires IndicesBelow(capacity, log) && forall k :: 0 <= k < |f.support| ==> f.support[k] < capacity
    ensures IndicesBelow(capacity, log + [f])
  {
  }

  lemma ValuesGrow(log: seq<FrameValue>, f: FrameValue)
    requires ValuesInRange(log) && forall k :: 0 <= k < |f.signal| ==> !Binary32.OutsideUnitInterval(f.signal[k])
    ensures ValuesInRange(log + [f])
  {
  }

  /** After the n-th acquire the counter reads n, modulo 2^64. */
  lemma CountsOn(n: nat)
    ensures (n % U64 + 1) % U64 == (n + 1) % U64
  {
  }

  /** A synthetic frame is stamped by its wake and numbered by the counter. */
  lemma MockFrame(p: Producer, a: Arrival, clock: i64)
    requires Acquires(p, a) && p.backend.Mock? && Timed(p)
    ensures var f := FrameOf(p, a, clock);
            f.tNs == a.wake >= p.backend.st.next && f.sequence == |p.fates| % U64
  {
  }

  lemma SentTimed(p: Producer, a: Arrival, clock: i64)
    requires Acquires(p, a) && p.backend.Mock? && Timed(p) && !p.failed
    ensures Timed(Sent(p, a, clock))
  {
    var f, st := FrameOf(p, a, clock), p.backend.st;
    MockFrame(p, a, clock);
    CountsOn(|p.fates|);
    SequencesGrow(p.log, p.fates, f);
    FrameSpaced(p.log, p.fates, st.period, st.next, f, AfterAcquire(st, a.wake).next);
  }

  /** A frame stamped at or after the deadline, the next one at least a period on and past the stamp. */
  lemma FrameSpaced(log: seq<FrameValue>, fates: seq<bool>, period: nat, next: int, f: FrameValue, later: int)
    requires Spaced(log, Positions(fates), period) && DueAfter(log, Positions(fates), period, next, |fates|)
    requires f.tNs >= next && later >= next + period && later > f.tNs
    ensures Spaced(log + [f], Positions(fates + [true]), period)
    ensures DueAfter(log + [f], Positions(fates + [true]), period, later, |fates| + 1)
  {
    PositionsSnoc(fates, true);
    SpacedGrows(log, Positions(fates), period, next, |fates|, f);
    DueLater(log, Positions(fates), period, next, |fates|, later);
    DueGrows(log, Positions(fates), period, |fates|, f, later);
  }

  lemma UnsentTimed(p: Producer, a: Arrival)
    requires Acquires(p, a) && p.backend.Mock? && Timed(p) && !p.failed
    ensures Timed(Refused(p, a)) && Timed(Broken(p, a))
  {
    var st := p.backend.st;
    CountsOn(|p.fates|);
    PositionsSnoc(p.fates, false);
    SequencesStay(p.log, p.fates);
    DueLater(p.log, Positions(p.fates), st.period, st.next, |p.fates|, AfterAcquire(st, a.wake).next);
  }

  lemma SentSound(want: u32, p: Producer, a: Arrival, clock: i64)
    requires Sound(want, p) && p.place == InTick && Acquires(p, a)
    ensures Sound(want, Sent(p, a, clock)) && Taken(Sent(p, a, clock)) == Taken(p)
  {
    var f := FrameOf(p, a, clock);
    FilledHealthy(p.backend, a, p.id, p.capacity);
    QueueGrows(p.queue, p.log, f);
    IndicesGrow(p.capacity, p.log, f);
    if p.backend.Safe() {
      ValuesGrow(p.log, f);
    }
    if p.backend.Mock? {
      SentTimed(p, a, clock);
    }
  }

  lemma UnsentHealthy(p: Producer, a: Arrival)
    requires Healthy(p) && !p.failed && Acquires(p, a)
    ensures Healthy(Refused(p, a)) && Healthy(Broken(p, a))
  {
    if p.backend.Mock? {
      UnsentTimed(p, a);
    }
  }

  /** What a run never changes about a camera. */
  ghost predicate SameCamera(p: Producer, q: Producer) {
    && q.id == p.id && q.capacity == p.capacity && q.backend.Mock? == p.backend.Mock?
    && q.backend.Sites() == p.backend.Sites() && q.backend.Safe() == p.backend.Safe()
  }

  lemma UnsentSound(want: u32, p: Producer, a: Arrival)
    requires Sound(want, p) && p.place == InTick && Acquires(p, a)
    ensures Sound(want, Refused(p, a)) && Taken(Refused(p, a)) == Taken(p)
    ensures Sound(want, Broken(p, a)) && Taken(Broken(p, a)) == Taken(p)
  {
    UnsentHealthy(p, a);
  }

  /** The steps of a thread that bring no frame. */
  lemma MovesSound(setup: Setup, stop: bool, p: Producer, a: Action)
    requires Sound(setup.want, p) && ThreadEnabled(setup, stop, p, a) && !a.Send? && !a.Refuse? && !a.SendFails?
    ensures var q := ThreadAct(setup, stop, p, a);
            Sound(setup.want, q) && Taken(q) == Taken(p) && SameCamera(p, q)
  {
  }

  lemma ThreadKeepsSound(setup: Setup, stop: bool, p: Producer, a: Action)
    requires Sound(setup.want, p) && ThreadEnabled(setup, stop, p, a)
    ensures var q := ThreadAct(setup, stop, p, a);
            Sound(setup.want, q) && Taken(q) == Taken(p) && SameCamera(p, q)
  {
    match a
    case Send(_, arrival, clock) => SentSound(setup.want, p, arrival, clock);
    case Refuse(_, arrival, _) => UnsentSound(setup.want, p, arrival);
    case SendFails(_, arrival, _) => UnsentSound(setup.want, p, arrival);
    case _ => MovesSound(setup, stop, p, a);
  }

  /** Once a camera has nothing more to send, it never will have. */
  lemma DoneStaysDone(setup: Setup, stop: bool, p: Producer, a: Action)
    requires Sound(setup.want, p) && ThreadEnabled(setup, stop, p, a) && !Producing(setup, p)
    ensures !Producing(setup, ThreadAct(setup, stop, p, a))
  {
  }

  // ---- the whole state ----

  function TakenTotal(ps: seq<Producer>): nat {
    if ps == [] then 0 else TakenTotal(ps[..|ps| - 1]) + |Taken(ps[|ps| - 1])|
  }

  /** The sink was told about exactly these cameras, sixteen at most, with their own bounds. */
  ghost predicate Named(specs: seq<CamSpec>, ps: seq<Producer>) {
    && |specs| == |ps| <= 16
    && (forall i, j :: 0 <= i < j < |specs| ==> specs[i].cameraId != specs[j].cameraId)
    && forall i :: 0 <= i < |ps| ==> ps[i].id == specs[i].cameraId && ps[i].capacity == specs[i].maxSites
  }

  ghost predicate AllSound(want: u32, ps: seq<Producer>) {
    forall i :: 0 <= i < |ps| ==> Sound(want, ps[i])
  }

  /** What was received is what was taken, camera by camera and in total. */
  ghost predicate Conveyed(ps: seq<Producer>, fs: seq<FrameValue>) {
    && |fs| == TakenTotal(ps)
    && forall i :: 0 <= i < |ps| ==> FramesOf(ps[i].id, fs) == Taken(ps[i])
  }

  ghost predicate AllConfigured(cfg: Config, fs: seq<FrameValue>) {
    forall k :: 0 <= k < |fs| ==> Configured(cfg, fs[k].cameraId)
  }

  ghost predicate Honest(cfg: Config, s: Run) {
    && s.sink == Receive(cfg, s.trace)
    && |Parsed(s.trace)| == |s.trace|
    && AllConfigured(cfg, Parsed(s.trace))
    && Conveyed(s.producers, Parsed(s.trace))
  }

  ghost predicate NoneProducing(setup: Setup, ps: seq<Producer>, n: nat) {
    forall i :: 0 <= i < |ps| && i < n ==> !Producing(setup, ps[i])
  }

  ghost predicate NotYetStarted(ps: seq<Producer>, from: nat) {
    forall i :: from <= i < |ps| ==> ps[i].place == NotStarted
  }

  /** Not everything asked for has arrived, or nothing in particular was asked for. */
  ghost predicate Short(setup: Setup, s: Run) {
    Pipeline.Total(setup, s) == 0 || |s.trace| < Pipeline.Total(setup, s)
  }

  ghost predicate MainAgrees(setup: Setup, s: Run) {
    match s.main
    case Spawning(next) => next < |s.producers| && NotYetStarted(s.producers, next) && Short(setup, s)
    case Polling(_) => Short(setup, s)
    case Scanning(_, at) => at <= |s.producers| && NoneProducing(setup, s.producers, at) && Short(setup, s)
    case Watching(_) => Short(setup, s)
    case Exited(why) =>
      && s.stop
      && (why == ByCount ==> 0 < Pipeline.Total(setup, s) <= |s.trace|)
      && (why == ByQuiet ==> NoneProducing(setup, s.producers, |s.producers|))
    case _ => true
  }

  ghost predicate Inv(setup: Setup, s: Run) {
    && Named(setup.sinkConfig.specs, s.producers)
    && AllSound(setup.want, s.producers)
    && Honest(setup.sinkConfig, s)
    && MainAgrees(setup, s)
  }

  // ---- preservation ----

  lemma {:induction false} TakenUpdate(ps: seq<Producer>, k: nat, p: Producer)
    requires k < |ps|
    ensures TakenTotal(ps[k := p]) == TakenTotal(ps) - |Taken(ps[k])| + |Taken(p)|
    decreases |ps|
  {
    var last := |ps| - 1;
    if k == last {
      assert ps[k := p][..last] == ps[..last];
    } else {
      TakenUpdate(ps[..last], k, p);
      assert ps[k := p][..last] == ps[..last][k := p];
    }
  }

  /** A camera changed, but not in what the sink has taken from it. */
  lemma ConveyedStays(ps: seq<Producer>, fs: seq<FrameValue>, k: nat, p: Producer)
    requires Conveyed(ps, fs) && k < |ps| && p.id == ps[k].id && Taken(p) == Taken(ps[k])
    ensures Conveyed(ps[k := p], fs)
  {
    TakenUpdate(ps, k, p);
  }

  lemma NoneProducingStays(setup: Setup, ps: seq<Producer>, n: nat, k: nat, p: Producer)
    requires NoneProducing(setup, ps, n) && k < |ps|
    requires !Producing(setup, ps[k]) ==> !Producing(setup, p)
    ensures NoneProducing(setup, ps[k := p], n)
  {
  }

  /** Replacing one camera by a sound one that kept its name and what was taken from it. */
  ghost predicate Replaces(want: u32, p: Producer, q: Producer) {
    Sound(want, q) && Taken(q) == Taken(p) && q.id == p.id && q.capacity == p.capacity
  }

  lemma NamedStays(specs: seq<CamSpec>, ps: seq<Producer>, k: nat, q: Producer)
    requires Named(specs, ps) && k < |ps| && q.id == ps[k].id && q.capacity == ps[k].capacity
    ensures Named(specs, ps[k := q])
  {
  }

  lemma AllSoundStays(want: u32, ps: seq<Producer>, k: nat, q: Producer)
    requires AllSound(want, ps) && k < |ps| && Sound(want, q)
    ensures AllSound(want, ps[k := q])
  {
  }

  lemma HonestStays(cfg: Config, want: u32, s: Run, k: nat, q: Producer, t: Run)
    requires Honest(cfg, s) && k < |s.producers| && Replaces(want, s.producers[k], q)
    requires t.producers == s.producers[k := q] && t.sink == s.sink && t.trace == s.trace
    ensures Honest(cfg, t)
  {
    ConveyedStays(s.producers, Parsed(s.trace), k, q);
  }

  lemma MainStays(setup: Setup, s: Run, a: Action)
    requires AllSound(setup.want, s.producers) && MainAgrees(setup, s)
    requires IsThreadAction(a) && a.i < |s.producers| && ThreadEnabled(setup, s.stop, s.producers[a.i], a)
    ensures MainAgrees(setup, s.(producers := s.producers[a.i := ThreadAct(setup, s.stop, s.producers[a.i], a)]))
  {
    var p := s.producers[a.i];
    var q := ThreadAct(setup, s.stop, p, a);
    assert p.place != NotStarted;
    if !Producing(setup, p) {
      DoneStaysDone(setup, s.stop, p, a);
    }
    match s.main
    case Scanning(_, at) => NoneProducingStays(setup, s.producers, at, a.i, q);
    case Exited(why) =>
      if why == ByQuiet {
        NoneProducingStays(setup, s.producers, |s.producers|, a.i, q);
      }
    case _ =>
  }

  lemma ThreadStep(setup: Setup, s: Run, a: Action)
    requires Inv(setup, s) && IsThreadAction(a) && Enabled(setup, s, a)
    ensures Inv(setup, Act(setup, s, a))
  {
    var q := ThreadAct(setup, s.stop, s.producers[a.i], a);
    ThreadKeepsSound(setup, s.stop, s.producers[a.i], a);
    NamedStays(setup.sinkConfig.specs, s.producers, a.i, q);
    AllSoundStays(setup.want, s.producers, a.i, q);
    HonestStays(setup.sinkConfig, setup.want, s, a.i, q, Act(setup, s, a));
    MainStays(setup, s, a);
  }

  lemma StartedReplaces(want: u32, p: Producer)
    requires Sound(want, p) && p.place == NotStarted
    ensures Replaces(want, p, p.(place := AtGuard))
  {
  }

  lemma StartStep(setup: Setup, s: Run)
    requires Inv(setup, s) && Enabled(setup, s, Spawn)
    ensures Inv(setup, StartNext(s))
  {
    var k := s.main.next;
    var q := s.producers[k].(place := AtGuard);
    StartedReplaces(setup.want, s.producers[k]);
    NamedStays(setup.sinkConfig.specs, s.producers, k, q);
    AllSoundStays(setup.want, s.producers, k, q);
    HonestStays(setup.sinkConfig, setup.want, s, k, q, StartNext(s));
  }

  // ---- receiving ----

  /** The oldest message in a queue is the next frame of the log. */
  lemma QueuedHead(queue: seq<seq<byte>>, log: seq<FrameValue>)
    requires Queued(queue, log) && queue != []
    ensures Carries(queue[0], log[|log| - |queue|]) && Queued(queue[1..], log)
  {
    assert Carries(queue[0], log[|log| - |queue| + 0]);
    forall j | 0 <= j < |queue[1..]|
      ensures Carries(queue[1..][j], log[|log| - |queue[1..]| + j])
    {
      assert Carries(queue[j + 1], log[|log| - |queue| + (j + 1)]);
    }
  }

  lemma TakenHead(p: Producer, q: Producer)
    requires 0 < |p.queue| <= |p.log| && q.queue == p.queue[1..] && q.log == p.log
    ensures Taken(q) == Taken(p) + [p.log[|p.log| - |p.queue|]]
  {
  }

  lemma HeadOfQueue(want: u32, p: Producer)
    requires Sound(want, p) && p.queue != []
    ensures var f := p.log[|p.log| - |p.queue|];
            var q := p.(queue := p.queue[1..]);
            && f.WellFormed() && f.cameraId == p.id && p.queue[0] == Encode(f)
            && Sound(want, q) && Taken(q) == Taken(p) + [f]
  {
    var q := p.(queue := p.queue[1..]);
    QueuedHead(p.queue, p.log);
    TakenHead(p, q);
    assert Fits(p.id, p.capacity, p.log[|p.log| - |p.queue|]);
    assert Healthy(q);
  }

  lemma ConveyedGrows(specs: seq<CamSpec>, ps: seq<Producer>, fs: seq<FrameValue>, k: nat, q: Producer, f: FrameValue)
    requires Named(specs, ps) && Conveyed(ps, fs) && k < |ps|
    requires q.id == ps[k].id == f.cameraId && Taken(q) == Taken(ps[k]) + [f]
    ensures Conveyed(ps[k := q], fs + [f])
  {
    var after := ps[k := q];
    TakenUpdate(ps, k, q);
    forall i | 0 <= i < |after|
      ensures FramesOf(after[i].id, fs + [f]) == Taken(after[i])
    {
      SinkLaws.FramesOfSnoc(ps[i].id, fs, f);
      assert i < k ==> specs[i].cameraId != specs[k].cameraId;
      assert i > k ==> specs[k].cameraId != specs[i].cameraId;
    }
  }

  lemma ReceiveSnoc(cfg: Config, ms: seq<seq<byte>>, m: seq<byte>)
    ensures Receive(cfg, ms + [m]) == Deliver(cfg, Receive(cfg, ms), m)
  {
    Snoc(ms, m);
  }

  lemma ConfiguredGrows(cfg: Config, fs: seq<FrameValue>, f: FrameValue, k: nat)
    requires AllConfigured(cfg, fs) && k < |cfg.specs| && cfg.specs[k].cameraId == f.cameraId
    ensures AllConfigured(cfg, fs + [f])
  {
  }

  lemma HonestGrows(cfg: Config, s: Run, k: nat, q: Producer, f: FrameValue, t: Run)
    requires Named(cfg.specs, s.producers) && Honest(cfg, s) && k < |s.producers|
    requires q.id == s.producers[k].id == f.cameraId && Taken(q) == Taken(s.producers[k]) + [f] && f.WellFormed()
    requires t.producers == s.producers[k := q] && t.trace == s.trace + [Encode(f)]
    requires t.sink == Deliver(cfg, s.sink, Encode(f))
    ensures Honest(cfg, t)
  {
    SinkLaws.ParsedSnoc(s.trace, f);
    ReceiveSnoc(cfg, s.trace, Encode(f));
    ConveyedGrows(cfg.specs, s.producers, Parsed(s.trace), k, q, f);
    ConfiguredGrows(cfg, Parsed(s.trace), f, k);
  }

  lemma TakeStep(setup: Setup, s: Run, i: nat)
    requires Inv(setup, s) && Enabled(setup, s, ReceiveFrom(i))
    requires |s.sink.table.ids| == |s.sink.table.slots|
    ensures Inv(setup, Took(setup, s, i))
  {
    var p, t := s.producers[i], Took(setup, s, i);
    var q := p.(queue := p.queue[1..]);
    HeadOfQueue(setup.want, p);
    NamedStays(setup.sinkConfig.specs, s.producers, i, q);
    AllSoundStays(setup.want, s.producers, i, q);
    HonestGrows(setup.sinkConfig, s, i, q, p.log[|p.log| - |p.queue|], t);
    assert MainAgrees(setup, t);
  }

  // ---- the drain loop ----

  /** Steps of the main thread that touch neither cameras nor sink. */
  predicate IsQuiet(a: Action) {
    !IsThreadAction(a) && !a.Spawn? && !a.ReceiveFrom?
  }

  lemma QuietAgrees(setup: Setup, s: Run, a: Action)
    requires MainAgrees(setup, s) && IsQuiet(a) && Enabled(setup, s, a)
    requires |s.sink.table.ids| == |s.sink.table.slots| && s.sink.received == |s.trace|
    ensures MainAgrees(setup, Act(setup, s, a))
  {
  }

  lemma QuietStep(setup: Setup, s: Run, a: Action)
    requires Inv(setup, s) && IsQuiet(a) && Enabled(setup, s, a)
    requires |s.sink.table.ids| == |s.sink.table.slots|
    ensures Inv(setup, Act(setup, s, a))
  {
    MessagesAreFrames(setup.sinkConfig, s.trace);
    QuietAgrees(setup, s, a);
    var t := Act(setup, s, a);
    assert t.producers == s.producers && t.sink == s.sink && t.trace == s.trace;
  }

  lemma Step(setup: Setup, s: Run, a: Action)
    requires Inv(setup, s) && Enabled(setup, s, a)
    requires |s.sink.table.ids| == |s.sink.table.slots|
    ensures Inv(setup, Act(setup, s, a))
  {
    if IsThreadAction(a) {
      ThreadStep(setup, s, a);
    } else if a.Spawn? {
      StartStep(setup, s);
    } else if a.ReceiveFrom? {
      TakeStep(setup, s, a.i);
    } else {
      QuietStep(setup, s, a);
    }
  }

  // ---- every reachable state ----

  lemma {:induction false} NothingTaken(ps: seq<Producer>)
    requires forall i :: 0 <= i < |ps| ==> |Taken(ps[i])| == 0
    ensures TakenTotal(ps) == 0
  {
    if ps != [] {
      NothingTaken(ps[..|ps| - 1]);
    }
  }

  lemma FreshIsSound(want: u32, p: Producer)
    requires FreshProducer(p)
    ensures Sound(want, p) && |Taken(p)| == 0
  {
  }

  lemma InitialInv(setup: Setup, s: Run)
    requires Initial(setup, s)
    ensures Inv(setup, s)
  {
    forall i | 0 <= i < |s.producers|
      ensures Sound(setup.want, s.producers[i]) && |Taken(s.producers[i])| == 0
    {
      FreshIsSound(setup.want, s.producers[i]);
    }
    NothingTaken(s.producers);
  }

  /** Every state of every run keeps the invariant. */
  lemma {:induction false} Reachable(setup: Setup, start: Run, actions: seq<Action>)
    requires Initial(setup, start) && Happens(setup, start, actions)
    ensures Inv(setup, After(setup, start, actions))
    decreases |actions|
  {
    if actions == [] {
      InitialInv(setup, start);
    } else {
      var before := actions[..|actions| - 1];
      Reachable(setup, start, before);
      Step(setup, After(setup, start, before), actions[|actions| - 1]);
    }
  }
}

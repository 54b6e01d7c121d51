/**
  What the whole pipeline promises: safety over every run, losses that are exactly the
  refusals, and what each way of leaving the drain loop entitles one to conclude.
 */
module PipelineLaws {
  import opened Machine
  import opened Frames
  import opened FanIn
  import opened SinkModel
  import opened SinkTrace
  import opened Backends
  import opened Pipeline
  import opened PipelineInvariant
  import Band
  import Binary32
  import MockModel
  import SinkLaws

  ghost predicate AllMock(s: Run) {
    forall i :: 0 <= i < |s.producers| ==> s.producers[i].backend.Mock?
  }

  /** The cameras of a run, whatever happened to them. */
  ghost predicate SameCameras(ps: seq<Producer>, qs: seq<Producer>) {
    |ps| == |qs| && forall i :: 0 <= i < |ps| ==> SameCamera(ps[i], qs[i])
  }

  lemma OneChanges(start: seq<Producer>, ps: seq<Producer>, k: nat, q: Producer)
    requires SameCameras(start, ps) && k < |ps| && SameCamera(ps[k], q)
    ensures SameCameras(start, ps[k := q])
  {
  }

  lemma ActKeepsCameras(setup: Setup, start: seq<Producer>, s: Run, a: Action)
    requires SameCameras(start, s.producers) && Inv(setup, s) && Enabled(setup, s, a)
    requires |s.sink.table.ids| == |s.sink.table.slots|
    ensures SameCameras(start, Act(setup, s, a).producers)
  {
    if IsThreadAction(a) {
      ThreadKeepsSound(setup, s.stop, s.producers[a.i], a);
      OneChanges(start, s.producers, a.i, ThreadAct(setup, s.stop, s.producers[a.i], a));
    } else if a.Spawn? {
      OneChanges(start, s.producers, s.main.next, s.producers[s.main.next].(place := AtGuard));
    } else if a.ReceiveFrom? {
      OneChanges(start, s.producers, a.i, s.producers[a.i].(queue := s.producers[a.i].queue[1..]));
    }
  }

  /** A run keeps its cameras: their ids, capacities and kinds of backend. */
  lemma {:induction false} CamerasStay(setup: Setup, start: Run, actions: seq<Action>)
    requires Initial(setup, start) && Happens(setup, start, actions)
    ensures SameCameras(start.producers, After(setup, start, actions).producers)
    decreases |actions|
  {
    if actions != [] {
      var before := actions[..|actions| - 1];
      CamerasStay(setup, start, before);
      Reachable(setup, start, before);
      ActKeepsCameras(setup, start.producers, After(setup, start, before), actions[|actions| - 1]);
    }
  }

  lemma MockStaysMock(setup: Setup, start: Run, actions: seq<Action>)
    requires Initial(setup, start) && Happens(setup, start, actions) && AllMock(start)
    ensures AllMock(After(setup, start, actions))
  {
    CamerasStay(setup, start, actions);
  }

  // ---- cameras and their specs ----

  lemma OwnSpec(cfg: Config, ps: seq<Producer>, i: nat)
    requires Named(cfg.specs, ps) && i < |ps|
    ensures SpecIndex(cfg.specs, ps[i].id, 0) == i
    ensures Bound(cfg, ps[i].id) == ps[i].capacity && !Unexpected(cfg, ps[i].id)
  {
    assert cfg.specs[i].cameraId == ps[i].id;
  }

  /** Whoever sent a received frame is one of the cameras. */
  lemma SenderIsProducer(cfg: Config, s: Run, k: nat)
    requires Named(cfg.specs, s.producers) && Honest(cfg, s)
    requires k < |Admitted(Validation(cfg), Parsed(s.trace))|
    ensures exists i :: 0 <= i < |s.producers| && s.producers[i].id == Admitted(Validation(cfg), Parsed(s.trace))[k]
  {
    var fs := Parsed(s.trace);
    SinkLaws.AdmittedAppear(cfg, fs, k);
    var id := Admitted(Validation(cfg), fs)[k];
    var j :| 0 <= j < |fs| && fs[j].cameraId == id;
    assert Configured(cfg, fs[j].cameraId);
    assert s.producers[SpecIndex(cfg.specs, id, 0)].id == id;
  }

  /** The sink's sixteen slots are enough for these cameras. */
  lemma FewSenders(cfg: Config, s: Run)
    requires Named(cfg.specs, s.producers) && Honest(cfg, s)
    ensures |SinkLaws.IdsOf(Parsed(s.trace))| <= MAX_SOURCES
  {
    var fs := Parsed(s.trace);
    forall id | id in SinkLaws.IdsOf(fs)
      ensures id in SinkLaws.NamedIds(cfg.specs)
    {
      var j :| 0 <= j < |fs| && fs[j].cameraId == id;
      assert Configured(cfg, fs[j].cameraId);
      assert cfg.specs[SpecIndex(cfg.specs, id, 0)].cameraId == id;
    }
    SinkLaws.NamedCount(cfg.specs);
    SinkLaws.SubsetCount(SinkLaws.IdsOf(fs), SinkLaws.NamedIds(cfg.specs));
  }

  // ---- safety ----

  /** The findings a camera with this backend can never cause, whatever is dropped. */
  ghost predicate NeverBy(b: Backend, kind: Finding) {
    match kind
    case StampBackward => b.Mock?
    case IndexBad => true
    case ValueBad => b.Safe()
    case CameraUnexpected => true
    case _ => false
  }

  lemma PositionsApart(period: nat, from: nat, until: nat)
    requires from < until
    ensures Apart(period, from, until) >= 0
  {
    MockModel.NonNegative(until - from - 1, period);
  }

  /** Stamps spread by positions increase. */
  lemma SpacedIncreases(log: seq<FrameValue>, fates: seq<bool>, period: nat)
    requires Spaced(log, Positions(fates), period)
    ensures StampsIncrease(log)
  {
    var ps := Positions(fates);
    forall j, k | 0 <= j < k < |log|
      ensures log[j].tNs < log[k].tNs
    {
      PositionsApart(period, ps[j], ps[k]);
    }
  }

  lemma PrefixIncreases(log: seq<FrameValue>, n: nat)
    requires n <= |log| && StampsIncrease(log)
    ensures StampsIncrease(log[..n])
  {
  }

  lemma ShareIsSafe(cfg: Config, id: u32, fs: seq<FrameValue>, kind: Finding)
    requires kind != SequenceGap && kind != FrameLost && kind != CadenceJitter && !Unexpected(cfg, id)
    requires kind == StampBackward ==> StampsIncrease(fs)
    requires kind == IndexBad ==> IndicesBelow(Bound(cfg, id), fs)
    requires kind == ValueBad ==> ValuesInRange(fs)
    ensures Share(Validation(cfg), id, fs)[kind] == 0
  {
    LossesAdd(cfg, id, fs);
    if kind != CameraUnexpected {
      NowhereFound(cfg, id, fs, kind);
      FoundMeans(cfg, id, fs);
      StampsIncreaseIff(fs);
      IndicesIff(Bound(cfg, id), fs);
      ValuesIff(fs);
    }
  }

  lemma TakenIsSafe(cfg: Config, want: u32, ps: seq<Producer>, i: nat, kind: Finding)
    requires Named(cfg.specs, ps) && i < |ps| && Sound(want, ps[i]) && NeverBy(ps[i].backend, kind)
    ensures Share(Validation(cfg), ps[i].id, Taken(ps[i]))[kind] == 0
  {
    OwnSpec(cfg, ps, i);
    if kind == StampBackward {
      SpacedIncreases(ps[i].log, ps[i].fates, ps[i].backend.st.period);
      PrefixIncreases(ps[i].log, |ps[i].log| - |ps[i].queue|);
    }
    ShareIsSafe(cfg, ps[i].id, Taken(ps[i]), kind);
  }

  ghost predicate NeverByAny(ps: seq<Producer>, kind: Finding) {
    forall i :: 0 <= i < |ps| ==> NeverBy(ps[i].backend, kind)
  }

  lemma FoundSafe(setup: Setup, s: Run, kind: Finding)
    requires Inv(setup, s) && NeverByAny(s.producers, kind)
    ensures s.sink.table.found[kind] == 0
  {
    var cfg, fs := setup.sinkConfig, Parsed(s.trace);
    var ids := Admitted(Validation(cfg), fs);
    MessagesAreFrames(cfg, s.trace);
    Decompose(Validation(cfg), fs);
    forall k | 0 <= k < |ids|
      ensures Shares(Validation(cfg), ids, fs)[k][kind] == 0
    {
      SenderIsProducer(cfg, s, k);
      var i :| 0 <= i < |s.producers| && s.producers[i].id == ids[k];
      SubstreamIsFramesOf(cfg, ids[k], fs);
      TakenIsSafe(cfg, setup.want, s.producers, i, kind);
    }
    SumContains(Shares(Validation(cfg), ids, fs), kind);
  }

  /**
    Whole-run safety, for any mix of up to sixteen cameras and any interleaving of ticks,
    refusals and receives: no reachable state has counted a bad message, an index out of
    range or an unexpected camera; none a value out of range if the webcams' blocks are of
    safe sizes; none a stamp going backward if there are no webcams.
   */
  lemma RunsAreSafe(setup: Setup, start: Run, actions: seq<Action>)
    requires Initial(setup, start) && Happens(setup, start, actions)
    ensures var sink := After(setup, start, actions).sink;
            sink.badParse == 0 && forall kind :: NeverByAny(start.producers, kind) ==> sink.table.found[kind] == 0
  {
    var s := After(setup, start, actions);
    Reachable(setup, start, actions);
    CamerasStay(setup, start, actions);
    MessagesAreFrames(setup.sinkConfig, s.trace);
    forall kind | NeverByAny(start.producers, kind)
      ensures s.sink.table.found[kind] == 0
    {
      FoundSafe(setup, s, kind);
    }
  }

  /** What sink_report judges and synthetic cameras can never cause. */
  predicate NeverByMock(kind: Finding) {
    kind == StampBackward || kind == IndexBad || kind == ValueBad || kind == CameraUnexpected
  }

  /** With synthetic cameras only, bad_parse and all of these stay 0. */
  lemma MockRunsAreSafe(setup: Setup, start: Run, actions: seq<Action>)
    requires Initial(setup, start) && Happens(setup, start, actions) && AllMock(start)
    ensures var sink := After(setup, start, actions).sink;
            sink.badParse == 0 && forall kind :: NeverByMock(kind) ==> sink.table.found[kind] == 0
  {
    RunsAreSafe(setup, start, actions);
    assert forall kind :: NeverByMock(kind) ==> NeverByAny(start.producers, kind);
  }

  // ---- pacing ----

  /**
    In every reachable state, two frames a synthetic camera sent are stamped further apart
    than the periods between their acquires, refused ones included: no stall ever bursts a
    backlog.
   */
  lemma StampsPaced(setup: Setup, start: Run, actions: seq<Action>, i: nat, j: nat, k: nat)
    requires Initial(setup, start) && Happens(setup, start, actions)
    requires i < |After(setup, start, actions).producers|
    requires After(setup, start, actions).producers[i].backend.Mock?
    requires j < k < |After(setup, start, actions).producers[i].log|
    ensures var p := After(setup, start, actions).producers[i]; var ps := Positions(p.fates);
            && |ps| == |p.log|
            && p.log[k].tNs - p.log[j].tNs > (ps[k] - ps[j] - 1) * p.backend.st.period
  {
    CameraIsSound(setup, start, actions, i);
    var p := After(setup, start, actions).producers[i];
    assert p.log[k].tNs - p.log[j].tNs > Apart(p.backend.st.period, Positions(p.fates)[j], Positions(p.fates)[k]);
  }

  // ---- accounting ----

  lemma CameraIsSound(setup: Setup, start: Run, actions: seq<Action>, i: nat)
    requires Initial(setup, start) && Happens(setup, start, actions)
    requires i < |After(setup, start, actions).producers|
    ensures Sound(setup.want, After(setup, start, actions).producers[i])
  {
    Reachable(setup, start, actions);
  }

  lemma CounterReads(want: u32, p: Producer)
    requires Sound(want, p) && p.backend.Mock?
    ensures p.backend.st.sequence == (p.sent + p.dropped + One(p.failed)) % U64 && p.timeouts == 0
  {
  }

  /** The frames the sink's slot for this camera has counted; none without a slot. */
  function HeldFor(t: CamTable, id: u32): nat
    requires |t.ids| == |t.slots|
  {
    var k := IndexOf(t.ids, id, 0);
    if k < |t.ids| then t.slots[k].frames else 0
  }

  lemma HeldIsReceived(cfg: Config, fs: seq<FrameValue>, id: u32)
    requires |SinkLaws.IdsOf(fs)| <= MAX_SOURCES
    ensures HeldFor(FanIn.Run(Validation(cfg), fs), id) == |FramesOf(id, fs)|
  {
    Decompose(Validation(cfg), fs);
    SubstreamIsFramesOf(cfg, id, fs);
    SlotRemembers(cfg, id, FramesOf(id, fs));
    if FramesOf(id, fs) != [] {
      SinkLaws.EveryCameraHasSlot(cfg, fs, id);
    } else {
      NoSlotWithoutFrames(cfg, fs, id);
    }
  }

  lemma NoSlotWithoutFrames(cfg: Config, fs: seq<FrameValue>, id: u32)
    requires FramesOf(id, fs) == []
    ensures IndexOf(Admitted(Validation(cfg), fs), id, 0) == |Admitted(Validation(cfg), fs)|
  {
    var ids := Admitted(Validation(cfg), fs);
    var k := IndexOf(ids, id, 0);
    if k < |ids| {
      SinkLaws.AdmittedAppear(cfg, fs, k);
    }
  }

  /**
    In every state, for every camera: what it sent is what the sink validated and what is
    still queued, and every tick it counted sent, dropped or timed out.
   */
  lemma SentIsValidatedPlusQueued(setup: Setup, start: Run, actions: seq<Action>, i: nat)
    requires Initial(setup, start) && Happens(setup, start, actions)
    requires i < |After(setup, start, actions).producers|
    ensures var s := After(setup, start, actions); var p := s.producers[i];
            && p.sent == HeldFor(s.sink.table, p.id) + |p.queue|
            && p.sent + p.dropped + p.timeouts == p.ticks + One(p.place == AfterTick)
  {
    var s := After(setup, start, actions);
    Reachable(setup, start, actions);
    CameraIsSound(setup, start, actions, i);
    MessagesAreFrames(setup.sinkConfig, s.trace);
    FewSenders(setup.sinkConfig, s);
    HeldIsReceived(setup.sinkConfig, Parsed(s.trace), s.producers[i].id);
  }

  /**
    A synthetic camera's counter is what it sent plus what it dropped, and one more only
    after a send that failed outright; it never times out.
   */
  lemma SequenceCountsSends(setup: Setup, start: Run, actions: seq<Action>, i: nat)
    requires Initial(setup, start) && Happens(setup, start, actions)
    requires i < |After(setup, start, actions).producers|
    requires After(setup, start, actions).producers[i].backend.Mock?
    ensures var p := After(setup, start, actions).producers[i];
            p.backend.st.sequence == (p.sent + p.dropped + One(p.failed)) % U64 && p.timeouts == 0
  {
    CameraIsSound(setup, start, actions, i);
    CounterReads(setup.want, After(setup, start, actions).producers[i]);
  }

  // ---- losses are refusals ----

  /** Frames acquired at these positions and not accepted. */
  function Refusals(fates: seq<bool>, from: nat, until: nat): nat
    requires until <= |fates|
    decreases fates, until
  {
    if until <= from then 0 else Refusals(fates, from, until - 1) + One(!fates[until - 1])
  }

  lemma {:induction false} RefusalsSplit(fates: seq<bool>, from: nat, mid: nat, until: nat)
    requires from <= mid <= until <= |fates|
    ensures Refusals(fates, from, until) == Refusals(fates, from, mid) + Refusals(fates, mid, until)
    decreases until
  {
    if mid < until {
      RefusalsSplit(fates, from, mid, until - 1);
    }
  }

  lemma {:induction false} RefusalsPrefix(fates: seq<bool>, n: nat, until: nat)
    requires until <= n <= |fates|
    ensures Refusals(fates, 0, until) == Refusals(fates[..n], 0, until)
    decreases until
  {
    if until > 0 {
      RefusalsPrefix(fates, n, until - 1);
    }
  }

  lemma {:induction false} AllCounted(fates: seq<bool>)
    ensures |Positions(fates)| + Refusals(fates, 0, |fates|) == |fates|
  {
    if fates != [] {
      var n := |fates| - 1;
      AllCounted(fates[..n]);
      RefusalsPrefix(fates, n, n);
    }
  }

  /** Before the j-th accepted frame, everything but j frames was refused. */
  lemma {:induction false} RefusedBefore(fates: seq<bool>, j: nat)
    requires j < |Positions(fates)|
    ensures Refusals(fates, 0, Positions(fates)[j]) == Positions(fates)[j] - j
  {
    var n := |fates| - 1;
    RefusalsPrefix(fates, n, Positions(fates)[j]);
    if j < |Positions(fates[..n])| {
      RefusedBefore(fates[..n], j);
    } else {
      AllCounted(fates[..n]);
    }
  }

  lemma RefusedBetween(fates: seq<bool>, j: nat, k: nat)
    requires j <= k < |Positions(fates)|
    ensures var ps := Positions(fates);
            Refusals(fates, ps[j], ps[k]) == ps[k] - ps[j] - (k - j)
  {
    var ps := Positions(fates);
    RefusedBefore(fates, j);
    RefusedBefore(fates, k);
    RefusalsSplit(fates, 0, ps[j], ps[k]);
  }

  /** Frames refused between the first and the last that the sink took. */
  function RefusedWithin(p: Producer): nat {
    var ps, r := Positions(p.fates), |Taken(p)|;
    if 0 < r <= |ps| then Refusals(p.fates, ps[0], ps[r - 1]) else 0
  }

  /** No wrap of the sequence counter so far. */
  predicate Unwrapped(p: Producer) {
    |p.fates| <= U64
  }

  predicate AllUnwrapped(ps: seq<Producer>) {
    forall i :: 0 <= i < |ps| ==> Unwrapped(ps[i])
  }

  lemma TakenSequences(p: Producer)
    requires SequencesArePositions(p.log, p.fates) && Unwrapped(p)
    ensures |Taken(p)| <= |Positions(p.fates)|
    ensures forall j :: 0 <= j < |Taken(p)| ==> Taken(p)[j].sequence == Positions(p.fates)[j]
    ensures SinkLaws.SequencesIncrease(Taken(p))
  {
    var s, ps := Taken(p), Positions(p.fates);
    forall j | 0 <= j < |s|
      ensures s[j].sequence == ps[j]
    {
      assert s[j] == p.log[j];
      Band.ModSmall(ps[j], U64);
    }
  }

  lemma LossesOf(p: Producer)
    requires SequencesArePositions(p.log, p.fates) && Unwrapped(p)
    ensures LostIn(Taken(p)) == RefusedWithin(p)
  {
    var s, ps := Taken(p), Positions(p.fates);
    TakenSequences(p);
    if s != [] {
      SinkLaws.SequenceConserved(s);
      RefusedBetween(p.fates, 0, |s| - 1);
    }
  }

  // ---- when an all-synthetic run passes ----

  lemma {:induction false} NoGapsNoJumps(s: seq<FrameValue>, ps: seq<nat>, j: nat)
    requires Contiguous(s) && |s| <= |ps| && j < |s|
    requires forall i :: 0 <= i < |s| ==> s[i].sequence == ps[i]
    requires forall i, k :: 0 <= i < k < |ps| ==> ps[i] < ps[k]
    ensures ps[j] == ps[0] + j
    decreases j
  {
    if j > 0 {
      NoGapsNoJumps(s, ps, j - 1);
      assert s[j].sequence == (s[0].sequence as int + j) % U64;
      assert ps[j - 1] < ps[j];
    }
  }

  lemma {:induction false} JumpsAtLeast(ps: seq<nat>, j: nat, k: nat)
    requires j <= k < |ps| && forall i, k :: 0 <= i < k < |ps| ==> ps[i] < ps[k]
    ensures ps[k] >= ps[j] + (k - j)
    decreases k
  {
    if j < k {
      JumpsAtLeast(ps, j, k - 1);
      assert ps[k - 1] < ps[k];
    }
  }

  lemma ContiguousIsUnrefused(p: Producer)
    requires SequencesArePositions(p.log, p.fates) && Unwrapped(p) && Contiguous(Taken(p))
    ensures RefusedWithin(p) == 0
  {
    var s, ps := Taken(p), Positions(p.fates);
    TakenSequences(p);
    if s != [] {
      RefusedBetween(p.fates, 0, |s| - 1);
      NoGapsNoJumps(s, ps, |s| - 1);
    }
  }

  lemma UnrefusedAt(p: Producer, j: nat)
    requires SequencesArePositions(p.log, p.fates) && Unwrapped(p) && RefusedWithin(p) == 0 && j < |Taken(p)|
    ensures Taken(p)[j].sequence == (Taken(p)[0].sequence as int + j) % U64
  {
    var s, ps := Taken(p), Positions(p.fates);
    TakenSequences(p);
    RefusedBetween(p.fates, 0, |s| - 1);
    JumpsAtLeast(ps, 0, j);
    JumpsAtLeast(ps, j, |s| - 1);
    Band.ModSmall(ps[j], U64);
  }

  /** Contiguous sequences and no refusals in between are the same thing. */
  lemma ContiguousIffUnrefused(p: Producer)
    requires SequencesArePositions(p.log, p.fates) && Unwrapped(p)
    ensures Contiguous(Taken(p)) <==> RefusedWithin(p) == 0
  {
    if Contiguous(Taken(p)) {
      ContiguousIsUnrefused(p);
    }
    if RefusedWithin(p) == 0 {
      forall j | 0 <= j < |Taken(p)|
        ensures Taken(p)[j].sequence == (Taken(p)[0].sequence as int + j) % U64
      {
        UnrefusedAt(p, j);
      }
    }
  }

  /** A camera's gap counter is zero exactly when its sequences are contiguous. */
  lemma NoGapsFound(cfg: Config, id: u32, fs: seq<FrameValue>)
    ensures Share(Validation(cfg), id, fs)[SequenceGap] == 0 <==> Contiguous(fs)
  {
    NowhereFound(cfg, id, fs, SequenceGap);
    FoundMeans(cfg, id, fs);
    ContiguousIff(fs);
  }

  /**
    What the sink counts as lost from a synthetic camera is exactly what was refused
    between its first and its last received frame, and it counts gaps exactly when
    there was any.
   */
  lemma LossesAreRefusals(setup: Setup, start: Run, actions: seq<Action>, i: nat)
    requires Initial(setup, start) && Happens(setup, start, actions)
    requires i < |After(setup, start, actions).producers|
    requires var p := After(setup, start, actions).producers[i]; p.backend.Mock? && Unwrapped(p)
    ensures var s := After(setup, start, actions); var p := s.producers[i];
            var share := Share(Validation(setup.sinkConfig), p.id, FramesOf(p.id, Parsed(s.trace)));
            share[FrameLost] == RefusedWithin(p) && (share[SequenceGap] == 0 <==> RefusedWithin(p) == 0)
  {
    var s := After(setup, start, actions);
    var p := s.producers[i];
    Reachable(setup, start, actions);
    CameraIsSound(setup, start, actions, i);
    LossesAdd(setup.sinkConfig, p.id, Taken(p));
    LossesOf(p);
    NoGapsFound(setup.sinkConfig, p.id, Taken(p));
    ContiguousIffUnrefused(p);
  }

  lemma TakenIsGoodIff(cfg: Config, want: u32, ps: seq<Producer>, i: nat)
    requires Named(cfg.specs, ps) && i < |ps| && Sound(want, ps[i]) && ps[i].backend.Mock? && Unwrapped(ps[i])
    ensures GoodCamera(cfg, ps[i].id, Taken(ps[i])) <==> RefusedWithin(ps[i]) == 0
  {
    OwnSpec(cfg, ps, i);
    SpacedIncreases(ps[i].log, ps[i].fates, ps[i].backend.st.period);
    PrefixIncreases(ps[i].log, |ps[i].log| - |ps[i].queue|);
    ContiguousIffUnrefused(ps[i]);
  }

  lemma SenderOf(cfg: Config, s: Run, id: u32)
    requires Named(cfg.specs, s.producers) && Honest(cfg, s) && FramesOf(id, Parsed(s.trace)) != []
    ensures exists i :: 0 <= i < |s.producers| && s.producers[i].id == id
  {
    SinkLaws.AppearsIfFrames(id, Parsed(s.trace));
    var j :| 0 <= j < |Parsed(s.trace)| && Parsed(s.trace)[j].cameraId == id;
    assert Configured(cfg, Parsed(s.trace)[j].cameraId);
    assert s.producers[SpecIndex(cfg.specs, id, 0)].id == id;
  }

  ghost predicate NothingRefusedWithin(ps: seq<Producer>) {
    forall i :: 0 <= i < |ps| ==> RefusedWithin(ps[i]) == 0
  }

  /** Every camera of the run is good exactly when nothing was refused within what it delivered. */
  lemma SenderIsGoodIff(setup: Setup, s: Run, i: nat)
    requires Inv(setup, s) && i < |s.producers| && s.producers[i].backend.Mock? && Unwrapped(s.producers[i])
    ensures var id := s.producers[i].id;
            GoodCamera(setup.sinkConfig, id, FramesOf(id, Parsed(s.trace))) <==> RefusedWithin(s.producers[i]) == 0
  {
    TakenIsGoodIff(setup.sinkConfig, setup.want, s.producers, i);
    assert FramesOf(s.producers[i].id, Parsed(s.trace)) == Taken(s.producers[i]);
  }

  lemma GoodTraceUnrefused(setup: Setup, s: Run, i: nat)
    requires Inv(setup, s) && i < |s.producers| && s.producers[i].backend.Mock? && Unwrapped(s.producers[i])
    requires GoodTrace(setup.sinkConfig, s.trace)
    ensures RefusedWithin(s.producers[i]) == 0
  {
    SenderIsGoodIff(setup, s, i);
    assert FramesOf(s.producers[i].id, Parsed(s.trace)) == Taken(s.producers[i]);
  }

  lemma UnrefusedSenderGood(setup: Setup, s: Run, id: u32)
    requires Inv(setup, s) && AllMock(s) && AllUnwrapped(s.producers)
    requires NothingRefusedWithin(s.producers) && FramesOf(id, Parsed(s.trace)) != []
    ensures GoodCamera(setup.sinkConfig, id, FramesOf(id, Parsed(s.trace)))
  {
    SenderOf(setup.sinkConfig, s, id);
    var i :| 0 <= i < |s.producers| && s.producers[i].id == id;
    SenderIsGoodIff(setup, s, i);
  }

  lemma GoodTraceIff(setup: Setup, s: Run)
    requires Inv(setup, s) && AllMock(s) && AllUnwrapped(s.producers)
    ensures GoodTrace(setup.sinkConfig, s.trace) <==> |s.trace| > 0 && NothingRefusedWithin(s.producers)
  {
    AllParse(s.trace);
    if GoodTrace(setup.sinkConfig, s.trace) {
      forall i | 0 <= i < |s.producers|
        ensures RefusedWithin(s.producers[i]) == 0
      {
        GoodTraceUnrefused(setup, s, i);
      }
    }
    if |s.trace| > 0 && NothingRefusedWithin(s.producers) {
      forall id: u32 | FramesOf(id, Parsed(s.trace)) != []
        ensures GoodCamera(setup.sinkConfig, id, FramesOf(id, Parsed(s.trace)))
      {
        UnrefusedSenderGood(setup, s, id);
      }
    }
  }

  lemma VerdictIff(setup: Setup, s: Run)
    requires Inv(setup, s) && AllMock(s) && AllUnwrapped(s.producers)
    ensures Verdict(s.sink) == 0 <==> |s.trace| > 0 && NothingRefusedWithin(s.producers)
  {
    FewSenders(setup.sinkConfig, s);
    SinkLaws.VerdictDecidesTrace(setup.sinkConfig, s.trace);
    GoodTraceIff(setup, s);
  }

  /**
    An all-synthetic run passes exactly when something arrived and no camera had a frame
    refused between the first and the last the sink took from it.
   */
  lemma MockVerdict(setup: Setup, start: Run, actions: seq<Action>)
    requires Initial(setup, start) && Happens(setup, start, actions) && AllMock(start)
    requires AllUnwrapped(After(setup, start, actions).producers)
    ensures var s := After(setup, start, actions);
            Verdict(s.sink) == 0 <==> s.sink.received > 0 && NothingRefusedWithin(s.producers)
  {
    var s := After(setup, start, actions);
    Reachable(setup, start, actions);
    MockStaysMock(setup, start, actions);
    VerdictIff(setup, s);
    MessagesAreFrames(setup.sinkConfig, s.trace);
  }

  // ---- the sink's totals ----

  /** The cameras that got a frame through, in their own order. */
  function Senders(ps: seq<Producer>): seq<u32> {
    if ps == [] then []
    else
      var p := ps[|ps| - 1];
      Senders(ps[..|ps| - 1]) + (if Taken(p) != [] then [p.id] else [])
  }

  function RefusedTotal(ps: seq<Producer>): nat {
    if ps == [] then 0 else RefusedTotal(ps[..|ps| - 1]) + RefusedWithin(ps[|ps| - 1])
  }

  lemma {:induction false} SendersListed(ps: seq<Producer>, k: nat)
    requires k < |Senders(ps)|
    ensures exists i :: 0 <= i < |ps| && ps[i].id == Senders(ps)[k] && Taken(ps[i]) != []
    decreases |ps|
  {
    var front, last := ps[..|ps| - 1], |ps| - 1;
    if k < |Senders(front)| {
      SendersListed(front, k);
      var i :| 0 <= i < |front| && front[i].id == Senders(front)[k] && Taken(front[i]) != [];
      assert ps[i].id == Senders(ps)[k] && Taken(ps[i]) != [];
    } else {
      assert ps[last].id == Senders(ps)[k] && Taken(ps[last]) != [];
    }
  }

  lemma {:induction false} SenderFound(ps: seq<Producer>, i: nat)
    requires i < |ps| && Taken(ps[i]) != []
    ensures IndexOf(Senders(ps), ps[i].id, 0) < |Senders(ps)|
    decreases |ps|
  {
    var front, last := ps[..|ps| - 1], |ps| - 1;
    var at: nat := |Senders(front)|;
    if i < last {
      SenderFound(front, i);
      at := IndexOf(Senders(front), ps[i].id, 0);
    }
    assert Senders(ps)[at] == ps[i].id;
  }

  ghost predicate DistinctIds(ps: seq<Producer>) {
    forall i, j :: 0 <= i < j < |ps| ==> ps[i].id != ps[j].id
  }

  lemma {:induction false} SendersDistinct(ps: seq<Producer>)
    requires DistinctIds(ps)
    ensures Distinct(Senders(ps))
    decreases |ps|
  {
    if ps != [] {
      var front := ps[..|ps| - 1];
      SendersDistinct(front);
      forall k | 0 <= k < |Senders(front)|
        ensures Senders(front)[k] != ps[|ps| - 1].id
      {
        SendersListed(front, k);
        var i :| 0 <= i < |front| && front[i].id == Senders(front)[k] && Taken(front[i]) != [];
        assert ps[i].id != ps[|ps| - 1].id;
      }
    }
  }

  lemma NamedDistinct(specs: seq<CamSpec>, ps: seq<Producer>)
    requires Named(specs, ps)
    ensures DistinctIds(ps)
  {
    forall i, j | 0 <= i < j < |ps|
      ensures ps[i].id != ps[j].id
    {
      assert specs[i].cameraId != specs[j].cameraId;
    }
  }

  /** The sink's slots and the cameras that got through are the same cameras. */
  lemma SlotsAreSenders(setup: Setup, s: Run)
    requires Inv(setup, s)
    ensures Rearranged(Admitted(Validation(setup.sinkConfig), Parsed(s.trace)), Senders(s.producers))
  {
    var cfg, fs := setup.sinkConfig, Parsed(s.trace);
    var a, b := Admitted(Validation(cfg), fs), Senders(s.producers);
    NamedDistinct(cfg.specs, s.producers);
    SendersDistinct(s.producers);
    FewSenders(cfg, s);
    forall k | 0 <= k < |a|
      ensures IndexOf(b, a[k], 0) < |b|
    {
      SenderIsProducer(cfg, s, k);
      var i :| 0 <= i < |s.producers| && s.producers[i].id == a[k];
      SinkLaws.AdmittedAppear(cfg, fs, k);
      assert Taken(s.producers[i]) == FramesOf(s.producers[i].id, fs);
      SenderFound(s.producers, i);
    }
    forall k | 0 <= k < |b|
      ensures IndexOf(a, b[k], 0) < |a|
    {
      SendersListed(s.producers, k);
      var i :| 0 <= i < |s.producers| && s.producers[i].id == b[k] && Taken(s.producers[i]) != [];
      assert Taken(s.producers[i]) == FramesOf(s.producers[i].id, fs);
      SinkLaws.EveryCameraHasSlot(cfg, fs, b[k]);
    }
    SinkLaws.SameMembers(a, b);
  }

  /** These findings count so many frames lost, and a gap exactly when there were any. */
  ghost predicate CountLosses(found: Findings, lost: nat) {
    found[FrameLost] == lost && (found[SequenceGap] == 0 <==> lost == 0)
  }

  lemma LossesCombine(found: Findings, lost: nat, share: Findings, more: nat)
    requires CountLosses(found, lost) && CountLosses(share, more)
    ensures CountLosses(found + share, lost + more)
  {
  }

  ghost function ShareIn(cfg: Config, fs: seq<FrameValue>, id: u32): Findings {
    Share(Validation(cfg), id, Substream(Validation(cfg), id, fs))
  }

  /** What the sink found in all of these cameras. */
  ghost function SumOver(cfg: Config, fs: seq<FrameValue>, ids: seq<u32>): Findings {
    Sum(Shares(Validation(cfg), ids, fs))
  }

  /** One synthetic camera's share. */
  lemma ShareOfLosses(setup: Setup, s: Run, i: nat)
    requires Inv(setup, s) && i < |s.producers| && s.producers[i].backend.Mock? && Unwrapped(s.producers[i])
    ensures CountLosses(ShareIn(setup.sinkConfig, Parsed(s.trace), s.producers[i].id), RefusedWithin(s.producers[i]))
  {
    var p := s.producers[i];
    SubstreamIsFramesOf(setup.sinkConfig, p.id, Parsed(s.trace));
    assert FramesOf(p.id, Parsed(s.trace)) == Taken(p);
    assert Sound(setup.want, p);
    LossesAdd(setup.sinkConfig, p.id, Taken(p));
    LossesOf(p);
    NoGapsFound(setup.sinkConfig, p.id, Taken(p));
    ContiguousIffUnrefused(p);
  }

  lemma OneMoreShare(cfg: Config, fs: seq<FrameValue>, ids: seq<u32>, id: u32)
    ensures SumOver(cfg, fs, ids + [id]) == SumOver(cfg, fs, ids) + ShareIn(cfg, fs, id)
  {
    var ck := Validation(cfg);
    assert Shares(ck, ids + [id], fs) == Shares(ck, ids, fs) + [ShareIn(cfg, fs, id)];
    SumSnoc(Shares(ck, ids, fs), ShareIn(cfg, fs, id));
  }

  ghost predicate EachCounts(cfg: Config, fs: seq<FrameValue>, ps: seq<Producer>) {
    forall i :: 0 <= i < |ps| ==> CountLosses(ShareIn(cfg, fs, ps[i].id), RefusedWithin(ps[i]))
  }

  lemma SenderAdded(cfg: Config, fs: seq<FrameValue>, front: seq<u32>, p: Producer, lost: nat)
    requires CountLosses(SumOver(cfg, fs, front), lost)
    requires CountLosses(ShareIn(cfg, fs, p.id), RefusedWithin(p))
    ensures CountLosses(SumOver(cfg, fs, front + (if Taken(p) != [] then [p.id] else [])), lost + RefusedWithin(p))
  {
    if Taken(p) != [] {
      OneMoreShare(cfg, fs, front, p.id);
      LossesCombine(SumOver(cfg, fs, front), lost, ShareIn(cfg, fs, p.id), RefusedWithin(p));
    } else {
      assert front + [] == front;
    }
  }

  lemma {:induction false} SendersAddUp(cfg: Config, fs: seq<FrameValue>, ps: seq<Producer>)
    requires EachCounts(cfg, fs, ps)
    ensures CountLosses(SumOver(cfg, fs, Senders(ps)), RefusedTotal(ps))
    decreases |ps|
  {
    if ps != [] {
      var front := ps[..|ps| - 1];
      EachCountsFront(cfg, fs, ps);
      SendersAddUp(cfg, fs, front);
      SenderAdded(cfg, fs, Senders(front), ps[|ps| - 1], RefusedTotal(front));
    }
  }

  lemma EachCountsFront(cfg: Config, fs: seq<FrameValue>, ps: seq<Producer>)
    requires ps != [] && EachCounts(cfg, fs, ps)
    ensures EachCounts(cfg, fs, ps[..|ps| - 1])
    ensures CountLosses(ShareIn(cfg, fs, ps[|ps| - 1].id), RefusedWithin(ps[|ps| - 1]))
  {
    var front := ps[..|ps| - 1];
    forall i | 0 <= i < |front|
      ensures CountLosses(ShareIn(cfg, fs, front[i].id), RefusedWithin(front[i]))
    {
      assert ps[i] == front[i];
    }
  }

  /** Everything found is the sum over the cameras that got through. */
  lemma FoundInSenders(setup: Setup, s: Run)
    requires Inv(setup, s)
    ensures s.sink.table.found == SumOver(setup.sinkConfig, Parsed(s.trace), Senders(s.producers))
  {
    var ck, fs := Validation(setup.sinkConfig), Parsed(s.trace);
    MessagesAreFrames(setup.sinkConfig, s.trace);
    Decompose(ck, fs);
    SlotsAreSenders(setup, s);
    OrderIrrelevant(ck, Admitted(ck, fs), Senders(s.producers), fs, fs);
  }

  lemma TotalsOf(setup: Setup, s: Run)
    requires Inv(setup, s) && AllMock(s) && AllUnwrapped(s.producers)
    ensures CountLosses(s.sink.table.found, RefusedTotal(s.producers))
  {
    forall i | 0 <= i < |s.producers|
      ensures CountLosses(ShareIn(setup.sinkConfig, Parsed(s.trace), s.producers[i].id), RefusedWithin(s.producers[i]))
    {
      ShareOfLosses(setup, s, i);
    }
    FoundInSenders(setup, s);
    SendersAddUp(setup.sinkConfig, Parsed(s.trace), s.producers);
  }

  /**
    The sink's own totals: the frames it counts as lost are all those refused between some
    camera's first and last received frame, and it counts a gap exactly when there was one.
   */
  lemma LossesAddUp(setup: Setup, start: Run, actions: seq<Action>)
    requires Initial(setup, start) && Happens(setup, start, actions) && AllMock(start)
    requires AllUnwrapped(After(setup, start, actions).producers)
    ensures var s := After(setup, start, actions);
            CountLosses(s.sink.table.found, RefusedTotal(s.producers))
  {
    var s := After(setup, start, actions);
    Reachable(setup, start, actions);
    MockStaysMock(setup, start, actions);
    TotalsOf(setup, s);
  }
}

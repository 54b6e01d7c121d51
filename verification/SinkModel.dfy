/**
  The state machine of sink.c on values: what one frame does to its camera's slot and
  to the counters, and what a received message does to the sink.
 */
module SinkModel {
  import opened Machine
  import opened Frames
  import opened Wire
  import opened FanIn
  import Binary32

  /** The initial dt_min and -dt_max: 1e18 ms, in nanoseconds. */
  const FAR: int := 1_000_000_000_000_000_000_000_000

  datatype CamSpec = CamSpec(cameraId: u32, maxSites: u32, expectPeriodMs: real)

  datatype Check = Check(expectPeriodMs: real, tol: real, maxSites: u32)

  datatype Config = Config(check: Check, specs: seq<CamSpec>)

  /** What the sink remembers of one camera. Intervals are exact nanoseconds. */
  datatype CamState = CamState(
    specKnown: bool,
    maxSites: u32,
    expectPeriodMs: real,
    frames: nat,
    lastTNs: i64,
    lastSeq: u64,
    dtMin: int,
    dtMax: int,
    dtSum: int,
    dtN: nat)

  /** One count each in the sink's counters; frames lost count once per frame. */
  datatype Finding =
    | StampBackward
    | CadenceJitter
    | SequenceGap
    | FrameLost
    | IndexBad
    | ValueBad
    | CameraUnexpected

  type Findings = multiset<Finding>

  type CamTable = Table<CamState, Finding>

  datatype SinkState = SinkState(received: nat, badParse: nat, table: CamTable)

  const NO_CAMERAS: CamTable := Table([], [], multiset{})
  const EMPTY := SinkState(0, 0, NO_CAMERAS)

  // ---- bounds ----

  /** The position of the first spec for this id at or after `from`, or the table's length. */
  function SpecIndex(specs: seq<CamSpec>, id: u32, from: nat): (j: nat)
    requires from <= |specs|
    ensures from <= j <= |specs|
    ensures j < |specs| ==> specs[j].cameraId == id
    ensures forall k :: from <= k < j ==> specs[k].cameraId != id
    decreases |specs| - from
  {
    if from == |specs| || specs[from].cameraId == id then from else SpecIndex(specs, id, from + 1)
  }

  predicate Configured(cfg: Config, id: u32) {
    SpecIndex(cfg.specs, id, 0) < |cfg.specs|
  }

  /** The index bound of a camera: its own, or the fallback; 0 disables the check. */
  function Bound(cfg: Config, id: u32): u32 {
    var j := SpecIndex(cfg.specs, id, 0);
    if j < |cfg.specs| then cfg.specs[j].maxSites else cfg.check.maxSites
  }

  function Period(cfg: Config, id: u32): real {
    var j := SpecIndex(cfg.specs, id, 0);
    if j < |cfg.specs| then cfg.specs[j].expectPeriodMs else cfg.check.expectPeriodMs
  }

  predicate Unexpected(cfg: Config, id: u32) {
    cfg.specs != [] && !Configured(cfg, id)
  }

  /** A slot as cam_find fills it in, bounds cached for good. */
  function FreshCam(cfg: Config, id: u32): CamState {
    CamState(Configured(cfg, id), Bound(cfg, id), Period(cfg, id), 0, 0, 0, FAR, -FAR, 0, 0)
  }

  /** What admitting a camera adds: one unexpected id if a table exists and omits it. */
  function Admission(cfg: Config, id: u32): Findings {
    if Unexpected(cfg, id) then multiset{CameraUnexpected} else multiset{}
  }

  // ---- one frame of one camera ----

  predicate Advances(cam: CamState, f: FrameValue) {
    cam.frames > 0 && f.tNs > cam.lastTNs
  }

  predicate GoesBackwards(cam: CamState, f: FrameValue) {
    cam.frames > 0 && f.tNs <= cam.lastTNs
  }

  /** The interval leaves expected * (1 -+ tol); only judged when the stamp advanced. */
  predicate Jitters(tol: real, cam: CamState, f: FrameValue) {
    Advances(cam, f) && cam.expectPeriodMs > 0.0
    && OffCadence((f.tNs as int - cam.lastTNs) as real / 1000000.0, cam.expectPeriodMs, tol)
  }

  predicate OffCadence(dtMs: real, period: real, tol: real) {
    dtMs < period * (1.0 - tol) || dtMs > period * (1.0 + tol)
  }

  predicate SkipsSequence(cam: CamState, f: FrameValue) {
    cam.frames > 0 && f.sequence != (cam.lastSeq + 1) % U64
  }

  function LostBefore(cam: CamState, f: FrameValue): nat {
    if SkipsSequence(cam, f) && f.sequence > cam.lastSeq then f.sequence - cam.lastSeq - 1 else 0
  }

  predicate IndexOutside(bound: u32, f: FrameValue) {
    bound != 0 && exists i :: 0 <= i < |f.support| && f.support[i] >= bound
  }

  predicate ValueOutside(f: FrameValue) {
    exists i :: 0 <= i < |f.signal| && Binary32.OutsideUnitInterval(f.signal[i])
  }

  function One(b: bool): nat {
    if b then 1 else 0
  }

  /** How much one frame adds to each counter. */
  function CountOf(tol: real, cam: CamState, f: FrameValue, kind: Finding): nat {
    match kind
    case StampBackward => One(GoesBackwards(cam, f))
    case CadenceJitter => One(Jitters(tol, cam, f))
    case SequenceGap => One(SkipsSequence(cam, f))
    case FrameLost => LostBefore(cam, f)
    case IndexBad => One(IndexOutside(cam.maxSites, f))
    case ValueBad => One(ValueOutside(f))
    case CameraUnexpected => 0
  }

  function FrameFindings(tol: real, cam: CamState, f: FrameValue): Findings {
    multiset{}[StampBackward := CountOf(tol, cam, f, StampBackward)]
              [CadenceJitter := CountOf(tol, cam, f, CadenceJitter)]
              [SequenceGap := CountOf(tol, cam, f, SequenceGap)]
              [FrameLost := CountOf(tol, cam, f, FrameLost)]
              [IndexBad := CountOf(tol, cam, f, IndexBad)]
              [ValueBad := CountOf(tol, cam, f, ValueBad)]
  }

  lemma FrameFindingsCount(tol: real, cam: CamState, f: FrameValue, kind: Finding)
    ensures FrameFindings(tol, cam, f)[kind] == CountOf(tol, cam, f, kind)
  {
  }

  /** The slot after one frame. */
  function NextCam(cam: CamState, f: FrameValue): CamState {
    var dt := f.tNs as int - cam.lastTNs;
    var timed :=
      if Advances(cam, f) then
        cam.(dtMin := if dt < cam.dtMin then dt else cam.dtMin,
             dtMax := if dt > cam.dtMax then dt else cam.dtMax,
             dtSum := cam.dtSum + dt,
             dtN := cam.dtN + 1)
      else cam;
    timed.(frames := cam.frames + 1, lastTNs := f.tNs, lastSeq := f.sequence)
  }

  /** sink_validate as a checker for the sixteen-slot table. */
  function Validation(cfg: Config): Checker<CamState, FrameValue, Finding> {
    Checker(
      (f: FrameValue) => f.cameraId,
      (id: u32) => FreshCam(cfg, id),
      (cam: CamState, f: FrameValue) => NextCam(cam, f),
      (id: u32) => Admission(cfg, id),
      (cam: CamState, f: FrameValue) => FrameFindings(cfg.check.tol, cam, f))
  }

  // ---- messages ----

  /** One received message. */
  function Deliver(cfg: Config, s: SinkState, m: seq<byte>): (r: SinkState)
    requires |s.table.ids| == |s.table.slots|
    ensures |r.table.ids| == |r.table.slots|
  {
    match Parse(m)
    case Failure(_) => s.(received := s.received + 1, badParse := s.badParse + 1)
    case Success(f) => s.(received := s.received + 1, table := Step(Validation(cfg), s.table, f))
  }

  function Receive(cfg: Config, ms: seq<seq<byte>>): (s: SinkState)
    ensures |s.table.ids| == |s.table.slots|
  {
    if ms == [] then EMPTY else Deliver(cfg, Receive(cfg, ms[..|ms| - 1]), ms[|ms| - 1])
  }

  /** sink_report's verdict: 0 passes. Jitter and the lost count are never judged. */
  function Verdict(s: SinkState): int {
    if s.received == 0 || s.badParse > 0 || StampBackward in s.table.found || SequenceGap in s.table.found
       || IndexBad in s.table.found || ValueBad in s.table.found || CameraUnexpected in s.table.found
    then 1 else 0
  }

  /** The frames among the messages. */
  function Parsed(ms: seq<seq<byte>>): seq<FrameValue> {
    if ms == [] then []
    else
      var last := Parse(ms[|ms| - 1]);
      Parsed(ms[..|ms| - 1]) + (if last.Success? then [last.value] else [])
  }

  /** Receiving is parsing, then validating what parsed. */
  lemma {:induction false} MessagesAreFrames(cfg: Config, ms: seq<seq<byte>>)
    ensures var s := Receive(cfg, ms);
            && s.received == |ms|
            && s.badParse == |ms| - |Parsed(ms)|
            && s.table == Run(Validation(cfg), Parsed(ms))
  {
    if ms != [] {
      var before, m := ms[..|ms| - 1], ms[|ms| - 1];
      MessagesAreFrames(cfg, before);
      if Parse(m).Success? {
        Snoc(Parsed(before), Parse(m).value);
      } else {
        assert Parsed(ms) == Parsed(before);
      }
    }
  }
}

/**
  What the sink's one-pass counters say about the whole trace: they decide its
  invariants, they conserve, and they do not depend on how cameras interleave.
 */
module SinkTrace {
  import opened Machine
  import opened Frames
  import opened Wire
  import opened FanIn
  import opened SinkModel
  import Binary32

  // ---- the specification ----

  /** One camera's frames, in order of arrival. */
  function FramesOf(id: u32, fs: seq<FrameValue>): seq<FrameValue> {
    if fs == [] then []
    else FramesOf(id, fs[..|fs| - 1]) + (if fs[|fs| - 1].cameraId == id then [fs[|fs| - 1]] else [])
  }

  /** Stamps strictly increase, at every pair and not only between neighbours. */
  ghost predicate StampsIncrease(s: seq<FrameValue>) {
    forall i, j :: 0 <= i < j < |s| ==> s[i].tNs < s[j].tNs
  }

  /** Sequence numbers count up from the first one, modulo 2^64. */
  ghost predicate Contiguous(s: seq<FrameValue>) {
    forall i :: 0 <= i < |s| ==> s[i].sequence == (s[0].sequence as int + i) % U64
  }

  ghost predicate IndicesBelow(bound: u32, s: seq<FrameValue>) {
    forall i, k :: 0 <= i < |s| && 0 <= k < |s[i].support| && bound != 0 ==> s[i].support[k] < bound
  }

  ghost predicate ValuesInRange(s: seq<FrameValue>) {
    forall i, k :: 0 <= i < |s| && 0 <= k < |s[i].signal| ==> !Binary32.OutsideUnitInterval(s[i].signal[k])
  }

  /** What the pipeline promises of one camera. */
  ghost predicate GoodCamera(cfg: Config, id: u32, s: seq<FrameValue>) {
    && StampsIncrease(s)
    && Contiguous(s)
    && IndicesBelow(Bound(cfg, id), s)
    && ValuesInRange(s)
    && !Unexpected(cfg, id)
  }

  /** What it promises of a whole trace. */
  ghost predicate GoodTrace(cfg: Config, ms: seq<seq<byte>>) {
    && |ms| > 0
    && (forall i :: 0 <= i < |ms| ==> Parse(ms[i]).Success?)
    && forall id: u32 :: FramesOf(id, Parsed(ms)) != [] ==> GoodCamera(cfg, id, FramesOf(id, Parsed(ms)))
  }


  // ---- what the spec table says of an id ----

  ghost predicate FirstSpec(specs: seq<CamSpec>, id: u32, j: nat) {
    && j < |specs| && specs[j].cameraId == id
    && forall k :: 0 <= k < j ==> specs[k].cameraId != id
  }

  ghost predicate HasSpec(specs: seq<CamSpec>, id: u32) {
    exists j :: 0 <= j < |specs| && specs[j].cameraId == id
  }

  /** The first spec for this id decides; an id without one gets the fallbacks. */
  ghost predicate Says(cfg: Config, id: u32, known: bool, maxSites: u32, periodMs: real) {
    && known == HasSpec(cfg.specs, id)
    && (forall j: nat :: FirstSpec(cfg.specs, id, j) ==>
          maxSites == cfg.specs[j].maxSites && periodMs == cfg.specs[j].expectPeriodMs)
    && (!known ==> maxSites == cfg.check.maxSites && periodMs == cfg.check.expectPeriodMs)
  }

  lemma TableSays(cfg: Config, id: u32)
    ensures Says(cfg, id, Configured(cfg, id), Bound(cfg, id), Period(cfg, id))
  {
    var i := SpecIndex(cfg.specs, id, 0);
    assert forall j: nat :: FirstSpec(cfg.specs, id, j) ==> j == i;
    if i < |cfg.specs| {
      assert cfg.specs[i].cameraId == id;
    }
  }

  /** What one id is told is unique. */
  lemma SaysOne(cfg: Config, id: u32, known: bool, maxSites: u32, periodMs: real)
    requires Says(cfg, id, known, maxSites, periodMs)
    ensures known == Configured(cfg, id) && maxSites == Bound(cfg, id) && periodMs == Period(cfg, id)
  {
    var i := SpecIndex(cfg.specs, id, 0);
    if i < |cfg.specs| {
      assert FirstSpec(cfg.specs, id, i);
      assert HasSpec(cfg.specs, id);
    }
  }

  // ---- one camera's slot ----

  lemma {:induction false} SubstreamIsFramesOf(cfg: Config, id: u32, fs: seq<FrameValue>)
    ensures Substream(Validation(cfg), id, fs) == FramesOf(id, fs)
  {
    if fs != [] {
      SubstreamIsFramesOf(cfg, id, fs[..|fs| - 1]);
    }
  }

  lemma {:induction false} SlotKeeps(cfg: Config, id: u32, s: seq<FrameValue>)
    ensures var cam := Alone(Validation(cfg), id, s);
            && cam.frames == |s|
            && cam.maxSites == Bound(cfg, id)
            && cam.expectPeriodMs == Period(cfg, id)
            && cam.specKnown == Configured(cfg, id)
            && (s != [] ==> cam.lastTNs == s[|s| - 1].tNs && cam.lastSeq == s[|s| - 1].sequence)
  {
    if s != [] {
      SlotKeeps(cfg, id, s[..|s| - 1]);
    }
  }

  /**
    The slot remembers the last frame and how many there were, and has for good what the first
    spec for its id says, or the fallbacks if none does.
   */
  lemma SlotRemembers(cfg: Config, id: u32, s: seq<FrameValue>)
    ensures var cam := Alone(Validation(cfg), id, s);
            && cam.frames == |s|
            && Says(cfg, id, cam.specKnown, cam.maxSites, cam.expectPeriodMs)
            && (s != [] ==> cam.lastTNs == s[|s| - 1].tNs && cam.lastSeq == s[|s| - 1].sequence)
  {
    SlotKeeps(cfg, id, s);
    TableSays(cfg, id);
  }

  // ---- counters as cardinalities ----

  predicate BackwardAt(s: seq<FrameValue>, i: nat)
    requires i < |s|
  {
    i > 0 && s[i].tNs <= s[i - 1].tNs
  }

  predicate GapAt(s: seq<FrameValue>, i: nat)
    requires i < |s|
  {
    i > 0 && s[i].sequence != (s[i - 1].sequence + 1) % U64
  }

  predicate JitterAt(cfg: Config, id: u32, s: seq<FrameValue>, i: nat)
    requires i < |s|
  {
    i > 0 && s[i].tNs > s[i - 1].tNs && Period(cfg, id) > 0.0
    && OffCadence((s[i].tNs as int - s[i - 1].tNs) as real / 1000000.0, Period(cfg, id), cfg.check.tol)
  }

  /** Frames skipped between neighbours; a sequence that falls or repeats loses none. */
  function LostAt(s: seq<FrameValue>, i: nat): nat
    requires i < |s|
  {
    if i > 0 && s[i].sequence > s[i - 1].sequence then s[i].sequence - s[i - 1].sequence - 1 else 0
  }

  function LostIn(s: seq<FrameValue>): nat {
    if s == [] then 0 else LostIn(s[..|s| - 1]) + LostAt(s, |s| - 1)
  }

  /** Where in a run each kind of finding occurs; losses are summed instead. */
  predicate FoundAt(cfg: Config, id: u32, s: seq<FrameValue>, kind: Finding, i: nat)
    requires i < |s|
  {
    match kind
    case StampBackward => BackwardAt(s, i)
    case CadenceJitter => JitterAt(cfg, id, s, i)
    case SequenceGap => GapAt(s, i)
    case FrameLost => false
    case IndexBad => IndexOutside(Bound(cfg, id), s[i])
    case ValueBad => ValueOutside(s[i])
    case CameraUnexpected => false
  }

  ghost function Places(cfg: Config, id: u32, s: seq<FrameValue>, kind: Finding): set<nat> {
    set i: nat | i < |s| && FoundAt(cfg, id, s, kind, i)
  }

  /** What the last frame of a run adds, in terms of the run alone. */
  lemma LastFinding(cfg: Config, id: u32, s: seq<FrameValue>, kind: Finding)
    requires s != []
    ensures CountOf(cfg.check.tol, Alone(Validation(cfg), id, s[..|s| - 1]), s[|s| - 1], kind)
            == if kind == FrameLost then LostAt(s, |s| - 1) else One(FoundAt(cfg, id, s, kind, |s| - 1))
  {
    SlotKeeps(cfg, id, s[..|s| - 1]);
  }

  lemma ShareStep(cfg: Config, id: u32, s: seq<FrameValue>, kind: Finding)
    requires s != []
    ensures Share(Validation(cfg), id, s)[kind]
            == Share(Validation(cfg), id, s[..|s| - 1])[kind]
               + CountOf(cfg.check.tol, Alone(Validation(cfg), id, s[..|s| - 1]), s[|s| - 1], kind)
  {
    FrameFindingsCount(cfg.check.tol, Alone(Validation(cfg), id, s[..|s| - 1]), s[|s| - 1], kind);
  }

  lemma FoundInPrefix(cfg: Config, id: u32, s: seq<FrameValue>, kind: Finding, i: nat)
    requires i + 1 < |s|
    ensures FoundAt(cfg, id, s, kind, i) <==> FoundAt(cfg, id, s[..|s| - 1], kind, i)
  {
  }

  lemma CountGrows(before: set<nat>, after: set<nat>, n: nat, hit: bool)
    requires n !in before
    requires forall i: nat :: i in after <==> i in before || (hit && i == n)
    ensures |after| == |before| + One(hit)
  {
    if hit {
      assert after == before + {n};
    } else {
      assert after == before;
    }
  }

  lemma PlacesGrow(cfg: Config, id: u32, s: seq<FrameValue>, kind: Finding)
    requires s != []
    ensures |Places(cfg, id, s, kind)|
            == |Places(cfg, id, s[..|s| - 1], kind)| + One(FoundAt(cfg, id, s, kind, |s| - 1))
  {
    var last := |s| - 1;
    var before, after := Places(cfg, id, s[..last], kind), Places(cfg, id, s, kind);
    forall i: nat
      ensures i in after <==> i in before || (FoundAt(cfg, id, s, kind, last) && i == last)
    {
      if i < last {
        FoundInPrefix(cfg, id, s, kind, i);
      }
    }
    CountGrows(before, after, last, FoundAt(cfg, id, s, kind, last));
  }

  /** Each counter is the number of places in the run where its test fails. */
  lemma {:induction false} CountersCount(cfg: Config, id: u32, s: seq<FrameValue>, kind: Finding)
    requires kind != FrameLost && kind != CameraUnexpected
    ensures Share(Validation(cfg), id, s)[kind] == |Places(cfg, id, s, kind)|
  {
    if s == [] {
      assert Places(cfg, id, s, kind) == {};
    } else {
      CountersCount(cfg, id, s[..|s| - 1], kind);
      ShareStep(cfg, id, s, kind);
      LastFinding(cfg, id, s, kind);
      PlacesGrow(cfg, id, s, kind);
    }
  }

  /** The lost counter is the sum of the forward jumps, and admission is counted once. */
  lemma {:induction false} LossesAdd(cfg: Config, id: u32, s: seq<FrameValue>)
    ensures Share(Validation(cfg), id, s)[FrameLost] == LostIn(s)
    ensures Share(Validation(cfg), id, s)[CameraUnexpected] == One(Unexpected(cfg, id))
  {
    if s != [] {
      LossesAdd(cfg, id, s[..|s| - 1]);
      ShareStep(cfg, id, s, FrameLost);
      ShareStep(cfg, id, s, CameraUnexpected);
      LastFinding(cfg, id, s, FrameLost);
    }
  }

  // ---- no findings, no violations ----

  lemma NowhereFound(cfg: Config, id: u32, s: seq<FrameValue>, kind: Finding)
    requires kind != FrameLost && kind != CameraUnexpected
    ensures Share(Validation(cfg), id, s)[kind] == 0 <==> forall i :: 0 <= i < |s| ==> !FoundAt(cfg, id, s, kind, i)
  {
    CountersCount(cfg, id, s, kind);
    var places := Places(cfg, id, s, kind);
    if places == {} {
      forall i | 0 <= i < |s|
        ensures !FoundAt(cfg, id, s, kind, i)
      {
        assert i !in places;
      }
    } else {
      var i :| i in places;
      assert FoundAt(cfg, id, s, kind, i);
    }
  }

  lemma {:induction false} NeighboursIncrease(s: seq<FrameValue>, i: nat, j: nat)
    requires i < j < |s| && forall k :: 0 <= k < |s| ==> !BackwardAt(s, k)
    ensures s[i].tNs < s[j].tNs
    decreases j
  {
    assert !BackwardAt(s, j);
    if i < j - 1 {
      NeighboursIncrease(s, i, j - 1);
    }
  }

  lemma StampsIncreaseIff(s: seq<FrameValue>)
    ensures StampsIncrease(s) <==> forall i :: 0 <= i < |s| ==> !BackwardAt(s, i)
  {
    if forall i :: 0 <= i < |s| ==> !BackwardAt(s, i) {
      forall i, j | 0 <= i < j < |s|
        ensures s[i].tNs < s[j].tNs
      {
        NeighboursIncrease(s, i, j);
      }
    }
  }

  lemma Successor(first: u64, i: nat)
    ensures ((first as int + i) % U64 + 1) % U64 == (first as int + (i + 1)) % U64
  {
  }

  lemma {:induction false} NeighboursCount(s: seq<FrameValue>, i: nat)
    requires i < |s| && forall k :: 0 <= k < |s| ==> !GapAt(s, k)
    ensures s[i].sequence == (s[0].sequence as int + i) % U64
    decreases i
  {
    if i > 0 {
      NeighboursCount(s, i - 1);
      assert !GapAt(s, i);
      Successor(s[0].sequence, i - 1);
    }
  }

  lemma ContiguousIff(s: seq<FrameValue>)
    ensures Contiguous(s) <==> forall i :: 0 <= i < |s| ==> !GapAt(s, i)
  {
    if Contiguous(s) {
      forall i | 0 < i < |s|
        ensures !GapAt(s, i)
      {
        Successor(s[0].sequence, i - 1);
      }
    }
    if forall i :: 0 <= i < |s| ==> !GapAt(s, i) {
      forall i | 0 <= i < |s|
        ensures s[i].sequence == (s[0].sequence as int + i) % U64
      {
        NeighboursCount(s, i);
      }
    }
  }

  /** What sink_report judges. */
  predicate Judged(kind: Finding) {
    kind != CadenceJitter && kind != FrameLost
  }

  ghost predicate NothingJudged(found: Findings) {
    forall kind :: Judged(kind) ==> found[kind] == 0
  }

  /** A camera's counters are all zero exactly when its run keeps every promise. */
  lemma GoodIffNothingFound(cfg: Config, id: u32, s: seq<FrameValue>)
    ensures GoodCamera(cfg, id, s) <==> NothingJudged(Share(Validation(cfg), id, s))
  {
    NowhereFound(cfg, id, s, StampBackward);
    NowhereFound(cfg, id, s, SequenceGap);
    NowhereFound(cfg, id, s, IndexBad);
    NowhereFound(cfg, id, s, ValueBad);
    LossesAdd(cfg, id, s);
    StampsIncreaseIff(s);
    ContiguousIff(s);
    IndicesIff(Bound(cfg, id), s);
    ValuesIff(s);
    FoundMeans(cfg, id, s);
    KindsCovered(Share(Validation(cfg), id, s));
  }

  lemma KindsCovered(share: Findings)
    ensures NothingJudged(share) <==>
            share[StampBackward] == 0 && share[SequenceGap] == 0 && share[IndexBad] == 0
            && share[ValueBad] == 0 && share[CameraUnexpected] == 0
  {
    if share[StampBackward] == 0 && share[SequenceGap] == 0 && share[IndexBad] == 0
       && share[ValueBad] == 0 && share[CameraUnexpected] == 0 {
      forall kind | Judged(kind)
        ensures share[kind] == 0
      {
        match kind {
          case StampBackward =>
          case CadenceJitter =>
          case SequenceGap =>
          case FrameLost =>
          case IndexBad =>
          case ValueBad =>
          case CameraUnexpected =>
        }
      }
    } else {
      assert Judged(StampBackward) && Judged(SequenceGap) && Judged(IndexBad) && Judged(ValueBad)
             && Judged(CameraUnexpected);
    }
  }

  lemma FoundMeans(cfg: Config, id: u32, s: seq<FrameValue>)
    ensures forall i :: 0 <= i < |s| ==>
              && FoundAt(cfg, id, s, StampBackward, i) == BackwardAt(s, i)
              && FoundAt(cfg, id, s, SequenceGap, i) == GapAt(s, i)
              && FoundAt(cfg, id, s, IndexBad, i) == IndexOutside(Bound(cfg, id), s[i])
              && FoundAt(cfg, id, s, ValueBad, i) == ValueOutside(s[i])
  {
  }

  lemma IndicesIff(bound: u32, s: seq<FrameValue>)
    ensures IndicesBelow(bound, s) <==> forall i :: 0 <= i < |s| ==> !IndexOutside(bound, s[i])
  {
  }

  lemma ValuesIff(s: seq<FrameValue>)
    ensures ValuesInRange(s) <==> forall i :: 0 <= i < |s| ==> !ValueOutside(s[i])
  {
  }

  // ---- the verdict ----

  lemma {:induction false} AllParse(ms: seq<seq<byte>>)
    ensures |Parsed(ms)| <= |ms|
    ensures |Parsed(ms)| == |ms| <==> forall i :: 0 <= i < |ms| ==> Parse(ms[i]).Success?
  {
    if ms != [] {
      AllParse(ms[..|ms| - 1]);
    }
  }

  ghost predicate AllGood(cfg: Config, ids: seq<u32>, fs: seq<FrameValue>) {
    forall k :: 0 <= k < |ids| ==> GoodCamera(cfg, ids[k], FramesOf(ids[k], fs))
  }

  /** The sum shows nothing exactly when no share does. */
  lemma NothingInSum(shares: seq<Findings>)
    ensures NothingJudged(Sum(shares)) <==> forall i :: 0 <= i < |shares| ==> NothingJudged(shares[i])
  {
    forall kind
      ensures Sum(shares)[kind] == 0 <==> forall i :: 0 <= i < |shares| ==> shares[i][kind] == 0
    {
      SumContains(shares, kind);
    }
  }

  lemma ShareIsGood(cfg: Config, ids: seq<u32>, fs: seq<FrameValue>, i: nat)
    requires i < |ids|
    ensures NothingJudged(Shares(Validation(cfg), ids, fs)[i]) <==> GoodCamera(cfg, ids[i], FramesOf(ids[i], fs))
  {
    SubstreamIsFramesOf(cfg, ids[i], fs);
    GoodIffNothingFound(cfg, ids[i], FramesOf(ids[i], fs));
  }

  /** The sources the table holds are good exactly when nothing judged was found. */
  lemma FoundByCamera(cfg: Config, fs: seq<FrameValue>)
    ensures var t := Run(Validation(cfg), fs); NothingJudged(t.found) <==> AllGood(cfg, t.ids, fs)
  {
    var t := Run(Validation(cfg), fs);
    Decompose(Validation(cfg), fs);
    NothingInSum(Shares(Validation(cfg), t.ids, fs));
    forall i | 0 <= i < |t.ids|
      ensures NothingJudged(Shares(Validation(cfg), t.ids, fs)[i])
              <==> GoodCamera(cfg, t.ids[i], FramesOf(t.ids[i], fs))
    {
      ShareIsGood(cfg, t.ids, fs, i);
    }
  }

  lemma VerdictIsJudged(s: SinkState)
    ensures Verdict(s) == 0 <==> s.received > 0 && s.badParse == 0 && NothingJudged(s.table.found)
  {
    KindsCovered(s.table.found);
  }

  /**
    The verdict, for every stream: it passes exactly when something arrived, everything
    parsed, and each of the first sixteen cameras kept every promise.
   */
  lemma VerdictByCamera(cfg: Config, ms: seq<seq<byte>>)
    ensures Verdict(Receive(cfg, ms)) == 0 <==>
            && |ms| > 0
            && (forall i :: 0 <= i < |ms| ==> Parse(ms[i]).Success?)
            && AllGood(cfg, Admitted(Validation(cfg), Parsed(ms)), Parsed(ms))
  {
    MessagesAreFrames(cfg, ms);
    AllParse(ms);
    Decompose(Validation(cfg), Parsed(ms));
    FoundByCamera(cfg, Parsed(ms));
    VerdictIsJudged(Receive(cfg, ms));
  }
}

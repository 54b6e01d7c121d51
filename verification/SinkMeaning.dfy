/** What the sink remembers and counts, said of the stream and the spec table alone. */
module SinkMeaning {
  import opened Machine
  import opened Frames
  import opened Wire
  import opened FanIn
  import opened SinkModel
  import opened SinkTrace
  import SinkLaws
  import Binary32

  // ---- the table's slots ----

  /** Places where the stamp advanced. */
  ghost function Advanced(s: seq<FrameValue>): set<nat> {
    set i: nat | i < |s| && SinkLaws.AdvancesAt(s, i)
  }

  /** The intervals of a stream, wherever the stamp advanced, added up. */
  function IntervalSum(s: seq<FrameValue>): int {
    if |s| < 2 then 0
    else
      var dt := s[|s| - 1].tNs as int - s[|s| - 2].tNs;
      IntervalSum(s[..|s| - 1]) + (if dt > 0 then dt else 0)
  }

  ghost predicate IsInterval(s: seq<FrameValue>, dt: int) {
    exists i: nat :: SinkLaws.AdvancesAt(s, i) && SinkLaws.IntervalAt(s, i) == dt
  }

  /** Count, sum and extremes of the intervals; without one the extremes are 10^18 ms away. */
  ghost predicate Times(s: seq<FrameValue>, cam: CamState) {
    && cam.dtN == |Advanced(s)| && cam.dtSum == IntervalSum(s)
    && (forall i: nat :: SinkLaws.AdvancesAt(s, i) ==> cam.dtMin <= SinkLaws.IntervalAt(s, i) <= cam.dtMax)
    && (cam.dtN > 0 ==> IsInterval(s, cam.dtMin) && IsInterval(s, cam.dtMax))
    && (cam.dtN == 0 ==> cam.dtMin == 1000000000000000000 * 1000000 && cam.dtMax == -cam.dtMin)
  }

  lemma AdvancedGrows(s: seq<FrameValue>)
    requires |s| > 1
    ensures |Advanced(s)| == |Advanced(s[..|s| - 1])| + One(SinkLaws.AdvancesAt(s, |s| - 1))
  {
    var front, last: nat := s[..|s| - 1], |s| - 1;
    assert forall i: nat :: i < last ==> SinkLaws.AdvancesAt(front, i) == SinkLaws.AdvancesAt(s, i);
    CountGrows(Advanced(front), Advanced(s), last, SinkLaws.AdvancesAt(s, last));
  }

  lemma {:induction false} RunCounts(cfg: Config, id: u32, s: seq<FrameValue>)
    ensures var cam := Alone(Validation(cfg), id, s); cam.dtN == |Advanced(s)| && cam.dtSum == IntervalSum(s)
    decreases |s|
  {
    if |s| < 2 {
      assert Advanced(s) == {};
      if s != [] {
        assert s[..0] == [];
        assert Alone(Validation(cfg), id, s) == NextCam(FreshCam(cfg, id), s[0]);
      }
    } else {
      RunCounts(cfg, id, s[..|s| - 1]);
      AdvancedGrows(s);
      SinkLaws.SlotStep(cfg, id, s);
    }
  }

  lemma SomeAdvance(s: seq<FrameValue>)
    requires |Advanced(s)| > 0
    ensures exists i: nat :: SinkLaws.AdvancesAt(s, i)
  {
    var i :| i in Advanced(s);
  }

  lemma RunTimes(cfg: Config, id: u32, s: seq<FrameValue>)
    ensures Times(s, Alone(Validation(cfg), id, s))
  {
    RunCounts(cfg, id, s);
    SinkLaws.ExtremesAttained(cfg, id, s);
    SinkLaws.MeanBetweenExtremes(cfg, id, s);
    if |Advanced(s)| > 0 {
      SomeAdvance(s);
    }
  }

  /** Everything a slot holds, from its camera's frames and the spec table. */
  ghost predicate Remembers(cfg: Config, id: u32, s: seq<FrameValue>, cam: CamState) {
    && s != [] && cam.frames == |s|
    && cam.lastTNs == s[|s| - 1].tNs && cam.lastSeq == s[|s| - 1].sequence
    && Says(cfg, id, cam.specKnown, cam.maxSites, cam.expectPeriodMs)
    && Times(s, cam)
  }

  lemma RunRemembers(cfg: Config, id: u32, s: seq<FrameValue>)
    requires s != []
    ensures Remembers(cfg, id, s, Alone(Validation(cfg), id, s))
  {
    SlotRemembers(cfg, id, s);
    RunTimes(cfg, id, s);
  }

  /**
    After any stream a slot holds its camera's frame count, last stamp and sequence, the
    number, sum and extremes of the intervals between advancing stamps, and what the first
    spec for its id says, or the fallbacks if none does.
   */
  lemma SlotMeans(cfg: Config, ms: seq<seq<byte>>, k: nat)
    requires k < |Receive(cfg, ms).table.ids|
    ensures var t := Receive(cfg, ms).table;
            Remembers(cfg, t.ids[k], FramesOf(t.ids[k], Parsed(ms)), t.slots[k])
  {
    var fs := Parsed(ms);
    MessagesAreFrames(cfg, ms);
    Decompose(Validation(cfg), fs);
    var id := Run(Validation(cfg), fs).ids[k];
    SinkLaws.AdmittedAppear(cfg, fs, k);
    SubstreamIsFramesOf(cfg, id, fs);
    RunRemembers(cfg, id, FramesOf(id, fs));
  }

  lemma AllSenders(cfg: Config, fs: seq<FrameValue>)
    ensures SinkLaws.Members(Admitted(Validation(cfg), fs)) <= SinkLaws.IdsOf(fs)
    ensures |Admitted(Validation(cfg), fs)| < 16 ==>
              SinkLaws.Members(Admitted(Validation(cfg), fs)) == SinkLaws.IdsOf(fs)
  {
    var ids := Admitted(Validation(cfg), fs);
    forall x | x in SinkLaws.Members(ids)
      ensures x in SinkLaws.IdsOf(fs)
    {
      var k :| 0 <= k < |ids| && ids[k] == x;
      SinkLaws.AdmittedAppear(cfg, fs, k);
    }
    if |ids| < 16 {
      forall x | x in SinkLaws.IdsOf(fs)
        ensures x in SinkLaws.Members(ids)
      {
        SenderListed(cfg, fs, x);
      }
    }
  }

  /** Slots go to the senders, every one of them as long as there are sixteen at most. */
  lemma SlotsFill(cfg: Config, ms: seq<seq<byte>>)
    ensures var ids, senders := Receive(cfg, ms).table.ids, SinkLaws.IdsOf(Parsed(ms));
            && SinkLaws.Members(ids) <= senders
            && |SinkLaws.Members(ids)| == |ids| == if |senders| <= 16 then |senders| else 16
  {
    var fs := Parsed(ms);
    var ids, senders := Admitted(Validation(cfg), fs), SinkLaws.IdsOf(fs);
    MessagesAreFrames(cfg, ms);
    Decompose(Validation(cfg), fs);
    SinkLaws.MembersCount(ids);
    AllSenders(cfg, fs);
    SinkLaws.SubsetCount(SinkLaws.Members(ids), senders);
  }

  lemma StepKeepsSlots(cfg: Config, t: CamTable, f: FrameValue)
    requires |t.ids| == |t.slots|
    ensures t.ids <= Step(Validation(cfg), t, f).ids
  {
  }

  /** And whoever has a slot keeps it: the slots are those of the first senders. */
  lemma {:induction false} SlotsKept(cfg: Config, ms: seq<seq<byte>>, n: nat)
    requires n <= |ms|
    ensures Receive(cfg, ms[..n]).table.ids <= Receive(cfg, ms).table.ids
    decreases |ms|
  {
    if n == |ms| {
      assert ms[..n] == ms;
    } else {
      var before := ms[..|ms| - 1];
      SlotsKept(cfg, before, n);
      assert before[..n] == ms[..n];
      var last := Parse(ms[|ms| - 1]);
      if last.Success? {
        StepKeepsSlots(cfg, Receive(cfg, before).table, last.value);
      }
    }
  }

  lemma SenderListed(cfg: Config, fs: seq<FrameValue>, id: u32)
    requires id in SinkLaws.IdsOf(fs) && |Admitted(Validation(cfg), fs)| < 16
    ensures id in SinkLaws.Members(Admitted(Validation(cfg), fs))
  {
    var ids := Admitted(Validation(cfg), fs);
    SendersHaveFrames(fs, id);
    SinkLaws.SeenWhileRoom(cfg, fs, id);
    assert ids[IndexOf(ids, id, 0)] == id;
  }

  lemma {:induction false} SendersHaveFrames(fs: seq<FrameValue>, id: u32)
    requires id in SinkLaws.IdsOf(fs)
    ensures FramesOf(id, fs) != []
  {
    var front := fs[..|fs| - 1];
    if fs[|fs| - 1].cameraId != id {
      var i :| 0 <= i < |fs| && fs[i].cameraId == id;
      assert front[i].cameraId == id;
      SendersHaveFrames(front, id);
    }
  }

  // ---- the counters ----

  /** A stamp that did not advance. */
  predicate StampFails(s: seq<FrameValue>, i: nat) {
    0 < i < |s| && s[i].tNs <= s[i - 1].tNs
  }

  /** A sequence number that does not follow the one before. */
  predicate SequenceFails(s: seq<FrameValue>, i: nat) {
    0 < i < |s| && s[i].sequence != (s[i - 1].sequence + 1) % 0x1_0000_0000_0000_0000
  }

  /** An interval that is off the expected period by more than the tolerance, either way. */
  predicate OffBeat(periodMs: real, tol: real, s: seq<FrameValue>, i: nat) {
    && 0 < i < |s| && s[i].tNs > s[i - 1].tNs && periodMs > 0.0
    && var dtMs := (s[i].tNs as int - s[i - 1].tNs) as real / 1000000.0;
       dtMs < periodMs * (1.0 - tol) || dtMs > periodMs * (1.0 + tol)
  }

  predicate IndexFails(maxSites: u32, s: seq<FrameValue>, i: nat) {
    i < |s| && maxSites != 0 && exists k :: 0 <= k < |s[i].support| && s[i].support[k] >= maxSites
  }

  /** A value that is no number from 0 to 1: only the patterns of +0.0 to 1.0 and of -0.0 are. */
  predicate ValueFails(s: seq<FrameValue>, i: nat) {
    i < |s| && exists k :: 0 <= k < |s[i].signal| && 0x3F80_0000 < s[i].signal[k] != 0x8000_0000
  }

  /** The forward jumps of the sequence, the frames between counted. */
  function Jumps(s: seq<FrameValue>): nat {
    if |s| < 2 then 0
    else
      var a, b := s[|s| - 2].sequence, s[|s| - 1].sequence;
      Jumps(s[..|s| - 1]) + (if b > a then b - a - 1 else 0)
  }

  lemma {:induction false} LostAreJumps(s: seq<FrameValue>)
    ensures LostIn(s) == Jumps(s)
  {
    if s == [] {
    } else if |s| == 1 {
      assert LostIn(s[..0]) == 0;
    } else {
      LostAreJumps(s[..|s| - 1]);
    }
  }

  lemma PlacesMean(cfg: Config, id: u32, s: seq<FrameValue>, known: bool, maxSites: u32, periodMs: real, i: nat)
    requires Says(cfg, id, known, maxSites, periodMs) && i < |s|
    ensures FoundAt(cfg, id, s, StampBackward, i) == StampFails(s, i)
    ensures FoundAt(cfg, id, s, CadenceJitter, i) == OffBeat(periodMs, cfg.check.tol, s, i)
    ensures FoundAt(cfg, id, s, SequenceGap, i) == SequenceFails(s, i)
    ensures FoundAt(cfg, id, s, IndexBad, i) == IndexFails(maxSites, s, i)
  {
    SaysOne(cfg, id, known, maxSites, periodMs);
  }

  lemma ValuePlacesMean(cfg: Config, id: u32, s: seq<FrameValue>, i: nat)
    requires i < |s|
    ensures FoundAt(cfg, id, s, ValueBad, i) == ValueFails(s, i)
  {
    forall k | 0 <= k < |s[i].signal|
      ensures Binary32.OutsideUnitInterval(s[i].signal[k]) <==> 0x3F80_0000 < s[i].signal[k] != 0x8000_0000
    {
      Binary32.UnitIntervalPatterns(s[i].signal[k]);
    }
  }

  /**
    A camera's jitter count: its advancing neighbours whose interval lies below
    period * (1 - tol) or above period * (1 + tol), the period being its own spec's.
   */
  lemma JitterCounts(cfg: Config, id: u32, s: seq<FrameValue>, known: bool, maxSites: u32, periodMs: real)
    requires Says(cfg, id, known, maxSites, periodMs)
    ensures Share(Validation(cfg), id, s)[CadenceJitter]
            == |set i: nat | i < |s| && OffBeat(periodMs, cfg.check.tol, s, i)|
  {
    CountersCount(cfg, id, s, CadenceJitter);
    forall i: nat | i < |s|
      ensures FoundAt(cfg, id, s, CadenceJitter, i) == OffBeat(periodMs, cfg.check.tol, s, i)
    {
      PlacesMean(cfg, id, s, known, maxSites, periodMs, i);
    }
    assert Places(cfg, id, s, CadenceJitter) == set i: nat | i < |s| && OffBeat(periodMs, cfg.check.tol, s, i);
  }

  /**
    Its stamp and sequence counts: neighbours whose stamp did not advance, neighbours whose
    sequence does not follow modulo 2^64, and the frames jumped over.
   */
  lemma OrderCounts(cfg: Config, id: u32, s: seq<FrameValue>)
    ensures var share := Share(Validation(cfg), id, s);
            && share[StampBackward] == |set i: nat | i < |s| && StampFails(s, i)|
            && share[SequenceGap] == |set i: nat | i < |s| && SequenceFails(s, i)|
            && share[FrameLost] == Jumps(s)
  {
    LossesAdd(cfg, id, s);
    LostAreJumps(s);
    CountersCount(cfg, id, s, StampBackward);
    CountersCount(cfg, id, s, SequenceGap);
    TableSays(cfg, id);
    forall i: nat | i < |s|
      ensures FoundAt(cfg, id, s, StampBackward, i) == StampFails(s, i)
      ensures FoundAt(cfg, id, s, SequenceGap, i) == SequenceFails(s, i)
    {
      PlacesMean(cfg, id, s, Configured(cfg, id), Bound(cfg, id), Period(cfg, id), i);
    }
    assert Places(cfg, id, s, StampBackward) == set i: nat | i < |s| && StampFails(s, i);
    assert Places(cfg, id, s, SequenceGap) == set i: nat | i < |s| && SequenceFails(s, i);
  }

  /**
    Its content counts: frames with an index at or past its bound, frames with
    a value outside [0, 1], and the camera itself if a spec table exists and does not name it.
   */
  lemma ContentCounts(cfg: Config, id: u32, s: seq<FrameValue>, known: bool, maxSites: u32, periodMs: real)
    requires Says(cfg, id, known, maxSites, periodMs)
    ensures var share := Share(Validation(cfg), id, s);
            && share[IndexBad] == |set i: nat | i < |s| && IndexFails(maxSites, s, i)|
            && share[ValueBad] == |set i: nat | i < |s| && ValueFails(s, i)|
            && share[CameraUnexpected] == if cfg.specs != [] && !HasSpec(cfg.specs, id) then 1 else 0
  {
    SaysOne(cfg, id, known, maxSites, periodMs);
    LossesAdd(cfg, id, s);
    CountersCount(cfg, id, s, IndexBad);
    CountersCount(cfg, id, s, ValueBad);
    forall i: nat | i < |s|
      ensures FoundAt(cfg, id, s, IndexBad, i) == IndexFails(maxSites, s, i)
      ensures FoundAt(cfg, id, s, ValueBad, i) == ValueFails(s, i)
    {
      PlacesMean(cfg, id, s, known, maxSites, periodMs, i);
      ValuePlacesMean(cfg, id, s, i);
    }
    assert Places(cfg, id, s, IndexBad) == set i: nat | i < |s| && IndexFails(maxSites, s, i);
    assert Places(cfg, id, s, ValueBad) == set i: nat | i < |s| && ValueFails(s, i);
  }

  lemma NoIndexFails(maxSites: u32, s: seq<FrameValue>)
    ensures IndicesBelow(maxSites, s) <==> forall i: nat :: !IndexFails(maxSites, s, i)
  {
    IndicesIff(maxSites, s);
    assert forall i: nat :: i < |s| ==> IndexOutside(maxSites, s[i]) == IndexFails(maxSites, s, i);
  }

  lemma NoValueFails(cfg: Config, id: u32, s: seq<FrameValue>)
    ensures ValuesInRange(s) <==> forall i: nat :: !ValueFails(s, i)
  {
    ValuesIff(s);
    forall i: nat | i < |s|
      ensures ValueOutside(s[i]) == ValueFails(s, i)
    {
      ValuePlacesMean(cfg, id, s, i);
    }
  }

  /** And what the sink takes a good camera to be, in the same terms. */
  lemma GoodCameraMeans(cfg: Config, id: u32, s: seq<FrameValue>, known: bool, maxSites: u32, periodMs: real)
    requires Says(cfg, id, known, maxSites, periodMs)
    ensures GoodCamera(cfg, id, s) <==>
            && (forall i, j :: 0 <= i < j < |s| ==> s[i].tNs < s[j].tNs)
            && (forall i :: 0 <= i < |s| ==>
                  s[i].sequence == (s[0].sequence as int + i) % 0x1_0000_0000_0000_0000)
            && (forall i: nat :: !IndexFails(maxSites, s, i) && !ValueFails(s, i))
            && (cfg.specs == [] || HasSpec(cfg.specs, id))
  {
    SaysOne(cfg, id, known, maxSites, periodMs);
    NoIndexFails(maxSites, s);
    NoValueFails(cfg, id, s);
  }
}

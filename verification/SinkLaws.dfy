/** The sink's headline laws: what a PASS means, what fan-in cannot change, what is conserved. */
module SinkLaws {
  import opened Machine
  import opened Frames
  import opened Wire
  import opened FanIn
  import opened SinkModel
  import opened SinkTrace
  import Binary32

  // ---- which cameras the table holds ----

  /** The distinct ids in a trace. */
  ghost function IdsOf(fs: seq<FrameValue>): set<u32> {
    set i | 0 <= i < |fs| :: fs[i].cameraId
  }

  ghost function Members(ids: seq<u32>): set<u32> {
    set i | 0 <= i < |ids| :: ids[i]
  }

  lemma MembersSnoc(ids: seq<u32>, id: u32)
    ensures Members(ids + [id]) == Members(ids) + {id}
  {
    var longer := ids + [id];
    assert longer[|ids|] == id;
    forall x | x in Members(ids)
      ensures x in Members(longer)
    {
      var i :| 0 <= i < |ids| && ids[i] == x;
      assert longer[i] == x;
    }
  }

  lemma {:induction false} MembersCount(ids: seq<u32>)
    requires Distinct(ids)
    ensures |Members(ids)| == |ids|
  {
    if ids != [] {
      var front, last := ids[..|ids| - 1], ids[|ids| - 1];
      MembersCount(front);
      MembersSnoc(front, last);
      assert front + [last] == ids;
      assert last !in Members(front);
    }
  }

  lemma {:induction false} AdmittedAppear(cfg: Config, fs: seq<FrameValue>, k: nat)
    requires k < |Admitted(Validation(cfg), fs)|
    ensures Admitted(Validation(cfg), fs)[k] in IdsOf(fs)
    ensures FramesOf(Admitted(Validation(cfg), fs)[k], fs) != []
  {
    var before, last := fs[..|fs| - 1], fs[|fs| - 1];
    var ids := Admitted(Validation(cfg), before);
    assert fs[|fs| - 1].cameraId in IdsOf(fs);
    assert IdsOf(before) <= IdsOf(fs);
    if k < |ids| {
      AdmittedAppear(cfg, before, k);
    }
  }

  lemma {:induction false} AppearsIfFrames(id: u32, fs: seq<FrameValue>)
    requires FramesOf(id, fs) != []
    ensures id in IdsOf(fs)
  {
    var before := fs[..|fs| - 1];
    assert IdsOf(fs) == IdsOf(before) + {fs[|fs| - 1].cameraId};
    if fs[|fs| - 1].cameraId != id {
      AppearsIfFrames(id, before);
    }
  }

  /** While a slot is free, every camera that sent a frame has one. */
  lemma SeenWhileRoom(cfg: Config, fs: seq<FrameValue>, id: u32)
    requires |Admitted(Validation(cfg), fs)| < MAX_SOURCES && FramesOf(id, fs) != []
    ensures IndexOf(Admitted(Validation(cfg), fs), id, 0) < |Admitted(Validation(cfg), fs)|
  {
    var ids := Admitted(Validation(cfg), fs);
    if IndexOf(ids, id, 0) == |ids| {
      UnseenIsEmpty(Validation(cfg), fs, id);
      SubstreamIsFramesOf(cfg, id, fs);
    }
  }

  /** With at most sixteen distinct ids, every camera that sent a frame has a slot. */
  lemma EveryCameraHasSlot(cfg: Config, fs: seq<FrameValue>, id: u32)
    requires |IdsOf(fs)| <= MAX_SOURCES && FramesOf(id, fs) != []
    ensures IndexOf(Admitted(Validation(cfg), fs), id, 0) < |Admitted(Validation(cfg), fs)|
  {
    var ids := Admitted(Validation(cfg), fs);
    if IndexOf(ids, id, 0) == |ids| {
      if |ids| < MAX_SOURCES {
        SeenWhileRoom(cfg, fs, id);
      } else {
        AppearsIfFrames(id, fs);
        MembersCount(ids);
        forall x | x in Members(ids)
          ensures x in IdsOf(fs)
        {
          var k :| 0 <= k < |ids| && ids[k] == x;
          AdmittedAppear(cfg, fs, k);
        }
        SubsetSize(Members(ids), IdsOf(fs), id);
      }
    }
  }

  lemma SubsetSize(small: set<u32>, large: set<u32>, extra: u32)
    requires small <= large && extra in large && extra !in small
    ensures |small| < |large|
  {
    var rest := large - small;
    assert extra in rest && large == small + rest;
  }

  // ---- what a PASS means ----

  /** Those of these ids the spec table names. */
  ghost function ConfiguredAmong(cfg: Config, ids: set<u32>): set<u32> {
    set id | id in ids && Configured(cfg, id)
  }

  ghost function NamedIds(specs: seq<CamSpec>): set<u32> {
    set i | 0 <= i < |specs| :: specs[i].cameraId
  }

  lemma ConfiguredAreNamed(cfg: Config, ids: set<u32>)
    ensures ConfiguredAmong(cfg, ids) == ids * NamedIds(cfg.specs)
  {
    forall id | id in ids
      ensures Configured(cfg, id) <==> id in NamedIds(cfg.specs)
    {
      if Configured(cfg, id) {
        assert cfg.specs[SpecIndex(cfg.specs, id, 0)].cameraId == id;
      }
    }
  }

  /**
    The table cannot fill up unnoticed with these senders: there are at most sixteen, or
    a spec table exists and names fewer than sixteen of them.
   */
  ghost predicate RoomFor(cfg: Config, ids: set<u32>) {
    |ids| <= 16 || (cfg.specs != [] && |ids * NamedIds(cfg.specs)| < 16)
  }

  lemma SubsetCount(small: set<u32>, large: set<u32>)
    requires small <= large
    ensures |small| <= |large|
  {
    assert large == small + (large - small);
  }

  lemma RoomForFewer(cfg: Config, fewer: set<u32>, ids: set<u32>)
    requires fewer <= ids && RoomFor(cfg, ids)
    ensures RoomFor(cfg, fewer)
  {
    SubsetCount(fewer, ids);
    SubsetCount(fewer * NamedIds(cfg.specs), ids * NamedIds(cfg.specs));
  }

  /** Behind a spec table, a table of good cameras holds configured ones only. */
  lemma GoodSlotsConfigured(cfg: Config, fs: seq<FrameValue>)
    requires cfg.specs != [] && AllGood(cfg, Admitted(Validation(cfg), fs), fs)
    ensures |Admitted(Validation(cfg), fs)| <= |ConfiguredAmong(cfg, IdsOf(fs))|
  {
    var ids := Admitted(Validation(cfg), fs);
    forall x | x in Members(ids)
      ensures x in ConfiguredAmong(cfg, IdsOf(fs))
    {
      var k :| 0 <= k < |ids| && ids[k] == x;
      AdmittedAppear(cfg, fs, k);
      assert GoodCamera(cfg, ids[k], FramesOf(ids[k], fs));
    }
    MembersCount(ids);
    SubsetCount(Members(ids), ConfiguredAmong(cfg, IdsOf(fs)));
  }

  /** With room for its senders, a stream of good slots gave every sender a slot. */
  lemma SenderHasSlot(cfg: Config, fs: seq<FrameValue>, id: u32)
    requires RoomFor(cfg, IdsOf(fs)) && AllGood(cfg, Admitted(Validation(cfg), fs), fs) && FramesOf(id, fs) != []
    ensures IndexOf(Admitted(Validation(cfg), fs), id, 0) < |Admitted(Validation(cfg), fs)|
  {
    if |IdsOf(fs)| <= MAX_SOURCES {
      EveryCameraHasSlot(cfg, fs, id);
    } else {
      GoodSlotsConfigured(cfg, fs);
      ConfiguredAreNamed(cfg, IdsOf(fs));
      SeenWhileRoom(cfg, fs, id);
    }
  }

  /** With room for its senders the one-pass verdict decides the whole-trace specification. */
  lemma VerdictDecidesTrace(cfg: Config, ms: seq<seq<byte>>)
    requires RoomFor(cfg, IdsOf(Parsed(ms)))
    ensures Verdict(Receive(cfg, ms)) == 0 <==> GoodTrace(cfg, ms)
  {
    var fs := Parsed(ms);
    var ids := Admitted(Validation(cfg), fs);
    VerdictByCamera(cfg, ms);
    if Verdict(Receive(cfg, ms)) == 0 {
      forall id: u32 | FramesOf(id, fs) != []
        ensures GoodCamera(cfg, id, FramesOf(id, fs))
      {
        SenderHasSlot(cfg, fs, id);
        GoodAt(cfg, ids, fs, IndexOf(ids, id, 0), id);
      }
    }
    if GoodTrace(cfg, ms) {
      GoodTracePasses(cfg, ms);
    }
  }

  lemma GoodAt(cfg: Config, ids: seq<u32>, fs: seq<FrameValue>, k: nat, id: u32)
    requires AllGood(cfg, ids, fs) && k < |ids| && ids[k] == id
    ensures GoodCamera(cfg, id, FramesOf(id, fs))
  {
  }

  /** With any number of cameras a good trace passes; the converse is what the limit breaks. */
  lemma GoodTracePasses(cfg: Config, ms: seq<seq<byte>>)
    requires GoodTrace(cfg, ms)
    ensures Verdict(Receive(cfg, ms)) == 0
  {
    var fs := Parsed(ms);
    VerdictByCamera(cfg, ms);
    forall k | 0 <= k < |Admitted(Validation(cfg), fs)|
      ensures GoodCamera(cfg, Admitted(Validation(cfg), fs)[k], FramesOf(Admitted(Validation(cfg), fs)[k], fs))
    {
      AdmittedAppear(cfg, fs, k);
    }
  }

  // ---- and when a PASS means nothing ----

  /** One healthy frame from each of these cameras. */
  function RollCall(ids: seq<u32>): (fs: seq<FrameValue>)
    ensures |fs| == |ids|
    ensures forall i :: 0 <= i < |ids| ==> fs[i] == FrameValue(ids[i], 1, 0, [], [])
  {
    seq(|ids|, i requires 0 <= i < |ids| => FrameValue(ids[i], 1, 0, [], []))
  }

  lemma RollCallSnoc(ids: seq<u32>)
    requires ids != []
    ensures RollCall(ids) == RollCall(ids[..|ids| - 1]) + [FrameValue(ids[|ids| - 1], 1, 0, [], [])]
  {
  }

  lemma DistinctFront(ids: seq<u32>)
    requires Distinct(ids) && ids != []
    ensures Distinct(ids[..|ids| - 1])
    ensures IndexOf(ids[..|ids| - 1], ids[|ids| - 1], 0) == |ids| - 1
  {
  }

  lemma {:induction false} RollCallAdmits(cfg: Config, ids: seq<u32>)
    requires Distinct(ids) && |ids| <= MAX_SOURCES
    ensures Admitted(Validation(cfg), RollCall(ids)) == ids
  {
    if ids != [] {
      var front, last := ids[..|ids| - 1], ids[|ids| - 1];
      DistinctFront(ids);
      RollCallAdmits(cfg, front);
      RollCallSnoc(ids);
      AdmittedSnoc(Validation(cfg), RollCall(front), FrameValue(last, 1, 0, [], []));
      assert front + [last] == ids;
    }
  }

  lemma FramesOfSnoc(id: u32, fs: seq<FrameValue>, f: FrameValue)
    ensures FramesOf(id, fs + [f]) == FramesOf(id, fs) + (if f.cameraId == id then [f] else [])
  {
    Snoc(fs, f);
  }

  lemma {:induction false} RollCallFrames(ids: seq<u32>, id: u32)
    requires Distinct(ids)
    ensures FramesOf(id, RollCall(ids)) ==
            if IndexOf(ids, id, 0) < |ids| then [FrameValue(id, 1, 0, [], [])] else []
  {
    if ids != [] {
      var front, last := ids[..|ids| - 1], ids[|ids| - 1];
      DistinctFront(ids);
      RollCallFrames(front, id);
      RollCallSnoc(ids);
      FramesOfSnoc(id, RollCall(front), FrameValue(last, 1, 0, [], []));
      FoundInFront(ids, id);
    }
  }

  lemma FoundInFront(ids: seq<u32>, id: u32)
    requires ids != []
    ensures IndexOf(ids, id, 0) < |ids| <==>
            IndexOf(ids[..|ids| - 1], id, 0) < |ids| - 1 || ids[|ids| - 1] == id
  {
    var front := ids[..|ids| - 1];
    var i, j := IndexOf(ids, id, 0), IndexOf(front, id, 0);
    if i < |front| {
      assert front[i] == id;
    }
    if j < |front| {
      assert ids[j] == id;
    }
  }

  ghost predicate Packable(fs: seq<FrameValue>) {
    forall i :: 0 <= i < |fs| ==> fs[i].WellFormed()
  }

  ghost function Packed(fs: seq<FrameValue>): seq<seq<byte>>
    requires Packable(fs)
  {
    seq(|fs|, i requires 0 <= i < |fs| => Encode(fs[i]))
  }

  /** These messages say these frames. */
  ghost predicate AllSay(ms: seq<seq<byte>>, fs: seq<FrameValue>) {
    |ms| == |fs| && forall i :: 0 <= i < |ms| ==> Parse(ms[i]) == Success(fs[i])
  }

  lemma PackedSay(fs: seq<FrameValue>)
    requires Packable(fs)
    ensures AllSay(Packed(fs), fs)
  {
    var ms := Packed(fs);
    forall i | 0 <= i < |fs|
      ensures Parse(ms[i]) == Success(fs[i])
    {
      RoundTrip(fs[i]);
    }
  }

  lemma ParsedGrows(ms: seq<seq<byte>>, m: seq<byte>, f: FrameValue)
    requires Parse(m) == Success(f)
    ensures Parsed(ms + [m]) == Parsed(ms) + [f]
  {
    Snoc(ms, m);
  }

  lemma {:induction false} SayParsed(ms: seq<seq<byte>>, fs: seq<FrameValue>, n: nat)
    requires AllSay(ms, fs) && n <= |ms|
    ensures Parsed(ms[..n]) == fs[..n]
    decreases n
  {
    if n > 0 {
      SayParsed(ms, fs, n - 1);
      ParsedGrows(ms[..n - 1], ms[n - 1], fs[n - 1]);
      assert ms[..n - 1] + [ms[n - 1]] == ms[..n];
    }
  }

  lemma ParsedSnoc(ms: seq<seq<byte>>, f: FrameValue)
    requires f.WellFormed()
    ensures Parsed(ms + [Encode(f)]) == Parsed(ms) + [f]
  {
    RoundTrip(f);
    ParsedGrows(ms, Encode(f), f);
  }

  /** Sixteen senders the sink would not call unexpected, and one more. */
  ghost predicate Crowd(cfg: Config, ids: seq<u32>, other: u32) {
    && Distinct(ids) && |ids| == 16 && IndexOf(ids, other, 0) == |ids|
    && forall k :: 0 <= k < |ids| ==> !Unexpected(cfg, ids[k])
  }

  function Infinite(id: u32): FrameValue {
    FrameValue(id, 1, 0, [0], [Binary32.INFINITY])
  }

  /** A healthy frame from each of the sixteen, then an infinity from the other. */
  function Masked(ids: seq<u32>, other: u32): seq<FrameValue> {
    RollCall(ids) + [Infinite(other)]
  }

  lemma HealthyFrame(cfg: Config, id: u32)
    requires !Unexpected(cfg, id)
    ensures GoodCamera(cfg, id, [FrameValue(id, 1, 0, [], [])])
  {
  }

  /** One of the sixteen sent its one healthy frame and nothing else. */
  lemma MaskedFrames(ids: seq<u32>, other: u32, id: u32)
    requires Distinct(ids) && IndexOf(ids, other, 0) == |ids|
    ensures FramesOf(id, Masked(ids, other)) ==
            if id == other then [Infinite(other)]
            else if IndexOf(ids, id, 0) < |ids| then [FrameValue(id, 1, 0, [], [])] else []
  {
    RollCallFrames(ids, id);
    FramesOfSnoc(id, RollCall(ids), Infinite(other));
  }

  lemma MaskedAdmits(cfg: Config, ids: seq<u32>, other: u32)
    requires Crowd(cfg, ids, other)
    ensures Admitted(Validation(cfg), Masked(ids, other)) == ids
  {
    RollCallAdmits(cfg, ids);
    AdmittedSnoc(Validation(cfg), RollCall(ids), Infinite(other));
  }

  lemma SenderGood(cfg: Config, ids: seq<u32>, other: u32, k: nat)
    requires Crowd(cfg, ids, other) && k < |ids|
    ensures GoodCamera(cfg, ids[k], FramesOf(ids[k], Masked(ids, other)))
  {
    assert ids[k] != other && IndexOf(ids, ids[k], 0) < |ids|;
    MaskedFrames(ids, other, ids[k]);
    HealthyFrame(cfg, ids[k]);
  }

  lemma MaskedGood(cfg: Config, ids: seq<u32>, other: u32)
    requires Crowd(cfg, ids, other)
    ensures AllGood(cfg, ids, Masked(ids, other))
  {
    forall k | 0 <= k < |ids|
      ensures GoodCamera(cfg, ids[k], FramesOf(ids[k], Masked(ids, other)))
    {
      SenderGood(cfg, ids, other, k);
    }
  }

  lemma InfinityIsBad(id: u32)
    ensures !ValuesInRange([Infinite(id)])
  {
    assert Binary32.OutsideUnitInterval([Infinite(id)][0].signal[0]);
  }

  /**
    The seventeenth camera is never checked: sixteen healthy cameras and one whose only
    frame carries an infinity pass, although the trace is not good.
   */
  lemma SeventeenthIsOverlooked(cfg: Config, ids: seq<u32>, other: u32)
    requires Crowd(cfg, ids, other)
    ensures Packable(Masked(ids, other))
    ensures var ms := Packed(Masked(ids, other));
            Parsed(ms) == Masked(ids, other) && Verdict(Receive(cfg, ms)) == 0 && !GoodTrace(cfg, ms)
  {
    var fs := Masked(ids, other);
    assert Packable(fs);
    PackedSay(fs);
    SayParsed(Packed(fs), fs, |fs|);
    assert Packed(fs)[..|fs|] == Packed(fs) && fs[..|fs|] == fs;
    MaskedPasses(cfg, ids, other, Packed(fs));
  }

  lemma GoodSlotsPass(cfg: Config, fs: seq<FrameValue>, ms: seq<seq<byte>>)
    requires Parsed(ms) == fs && |ms| == |fs| > 0 && AllGood(cfg, Admitted(Validation(cfg), fs), fs)
    ensures Verdict(Receive(cfg, ms)) == 0
  {
    AllParse(ms);
    VerdictByCamera(cfg, ms);
  }

  lemma OneBadCamera(cfg: Config, fs: seq<FrameValue>, ms: seq<seq<byte>>, other: u32)
    requires Parsed(ms) == fs && FramesOf(other, fs) == [Infinite(other)]
    ensures !GoodTrace(cfg, ms)
  {
    InfinityIsBad(other);
    assert !GoodCamera(cfg, other, FramesOf(other, fs));
  }

  lemma MaskedPasses(cfg: Config, ids: seq<u32>, other: u32, ms: seq<seq<byte>>)
    requires Crowd(cfg, ids, other) && Parsed(ms) == Masked(ids, other) && |ms| == |Masked(ids, other)|
    ensures Verdict(Receive(cfg, ms)) == 0 && !GoodTrace(cfg, ms)
  {
    var fs := Masked(ids, other);
    MaskedAdmits(cfg, ids, other);
    MaskedGood(cfg, ids, other);
    GoodSlotsPass(cfg, fs, ms);
    MaskedFrames(ids, other, other);
    OneBadCamera(cfg, fs, ms, other);
  }

  // ---- exactly which senders the verdict can be trusted with ----

  /** Whatever these senders send, the verdict is right about it. */
  ghost predicate Decides(cfg: Config, ids: set<u32>) {
    forall ms :: IdsOf(Parsed(ms)) <= ids ==> (Verdict(Receive(cfg, ms)) == 0 <==> GoodTrace(cfg, ms))
  }

  /** Some n members of a set that has as many. */
  lemma {:induction false} Pick(from: set<u32>, n: nat) returns (ids: seq<u32>)
    requires n <= |from|
    ensures |ids| == n && Distinct(ids) && forall k :: 0 <= k < n ==> ids[k] in from
    decreases n
  {
    if n == 0 {
      ids := [];
    } else {
      var id :| id in from;
      var rest := Pick(from - {id}, n - 1);
      ids := [id] + rest;
    }
  }

  lemma MemberIff(ids: seq<u32>, id: u32)
    ensures id in Members(ids) <==> IndexOf(ids, id, 0) < |ids|
  {
    var i := IndexOf(ids, id, 0);
    if i < |ids| {
      assert ids[i] == id;
    }
    if id in Members(ids) {
      var k :| 0 <= k < |ids| && ids[k] == id;
    }
  }

  lemma Leftover(ids: seq<u32>, all: set<u32>) returns (other: u32)
    requires Distinct(ids) && |ids| < |all|
    ensures other in all && IndexOf(ids, other, 0) == |ids|
  {
    MembersCount(ids);
    if all <= Members(ids) {
      SubsetCount(all, Members(ids));
    }
    other :| other in all && other !in Members(ids);
    MemberIff(ids, other);
  }

  lemma MaskedIds(ids: seq<u32>, other: u32, all: set<u32>)
    requires (forall k :: 0 <= k < |ids| ==> ids[k] in all) && other in all
    ensures IdsOf(Masked(ids, other)) <= all
  {
  }

  lemma CrowdMisleads(cfg: Config, ids: set<u32>)
    requires !RoomFor(cfg, ids)
    ensures !Decides(cfg, ids)
  {
    ConfiguredAreNamed(cfg, ids);
    var quiet := if cfg.specs == [] then ids else ConfiguredAmong(cfg, ids);
    var chosen := Pick(quiet, MAX_SOURCES);
    var other := Leftover(chosen, ids);
    MaskedIds(chosen, other, ids);
    SeventeenthIsOverlooked(cfg, chosen, other);
    var ms := Packed(Masked(chosen, other));
    assert IdsOf(Parsed(ms)) <= ids;
  }

  /**
    Exactly which set of senders the verdict decides, for everything they may send: at most
    sixteen ids, or a spec table that names fewer than sixteen of them. Both are known
    before the first message.
   */
  lemma VerdictDecidesIff(cfg: Config, ids: set<u32>)
    ensures Decides(cfg, ids) <==> RoomFor(cfg, ids)
  {
    if RoomFor(cfg, ids) {
      forall ms | IdsOf(Parsed(ms)) <= ids
        ensures Verdict(Receive(cfg, ms)) == 0 <==> GoodTrace(cfg, ms)
      {
        RoomForFewer(cfg, IdsOf(Parsed(ms)), ids);
        VerdictDecidesTrace(cfg, ms);
      }
    } else {
      CrowdMisleads(cfg, ids);
    }
  }

  lemma {:induction false} NamedCount(specs: seq<CamSpec>)
    ensures |NamedIds(specs)| <= |specs|
    decreases |specs|
  {
    if specs != [] {
      var front, last := specs[..|specs| - 1], specs[|specs| - 1];
      NamedCount(front);
      forall id | id in NamedIds(specs)
        ensures id in NamedIds(front) + {last.cameraId}
      {
        var i :| 0 <= i < |specs| && specs[i].cameraId == id;
        assert i < |front| ==> front[i].cameraId == id;
      }
      SubsetCount(NamedIds(specs), NamedIds(front) + {last.cameraId});
    }
  }

  /** So a run with one to fifteen configured cameras can be judged whoever else may send. */
  lemma SmallTablesDecide(cfg: Config, ms: seq<seq<byte>>)
    requires 1 <= |cfg.specs| <= 15
    ensures Verdict(Receive(cfg, ms)) == 0 <==> GoodTrace(cfg, ms)
  {
    NamedCount(cfg.specs);
    SubsetCount(IdsOf(Parsed(ms)) * NamedIds(cfg.specs), NamedIds(cfg.specs));
    VerdictDecidesTrace(cfg, ms);
  }

  // ---- interleaving ----

  /** Two arrivals of the same per-camera streams, with the same rejected messages in number. */
  ghost predicate SameStreams(a: seq<seq<byte>>, b: seq<seq<byte>>) {
    && |a| == |b| && |Parsed(a)| == |Parsed(b)|
    && forall id: u32 :: FramesOf(id, Parsed(a)) == FramesOf(id, Parsed(b))
  }

  lemma SlotsRearranged(cfg: Config, fs: seq<FrameValue>, gs: seq<FrameValue>)
    requires |IdsOf(fs)| <= MAX_SOURCES && |IdsOf(gs)| <= MAX_SOURCES
    requires forall id: u32 :: FramesOf(id, fs) == FramesOf(id, gs)
    ensures Rearranged(Admitted(Validation(cfg), fs), Admitted(Validation(cfg), gs))
  {
    var a, b := Admitted(Validation(cfg), fs), Admitted(Validation(cfg), gs);
    forall i | 0 <= i < |a|
      ensures IndexOf(b, a[i], 0) < |b|
    {
      AdmittedAppear(cfg, fs, i);
      EveryCameraHasSlot(cfg, gs, a[i]);
    }
    forall i | 0 <= i < |b|
      ensures IndexOf(a, b[i], 0) < |a|
    {
      AdmittedAppear(cfg, gs, i);
      EveryCameraHasSlot(cfg, fs, b[i]);
    }
    SameMembers(a, b);
  }

  lemma SameMembers(a: seq<u32>, b: seq<u32>)
    requires Distinct(a) && Distinct(b)
    requires forall i :: 0 <= i < |a| ==> IndexOf(b, a[i], 0) < |b|
    requires forall i :: 0 <= i < |b| ==> IndexOf(a, b[i], 0) < |a|
    ensures |a| == |b|
  {
    forall x
      ensures x in Members(a) <==> x in Members(b)
    {
      if x in Members(a) {
        var i :| 0 <= i < |a| && a[i] == x;
        assert b[IndexOf(b, a[i], 0)] == x;
      }
      if x in Members(b) {
        var i :| 0 <= i < |b| && b[i] == x;
        assert a[IndexOf(a, b[i], 0)] == x;
      }
    }
    assert Members(a) == Members(b);
    MembersCount(a);
    MembersCount(b);
  }

  lemma SubstreamsAgree(cfg: Config, fs: seq<FrameValue>, gs: seq<FrameValue>)
    requires forall id: u32 :: FramesOf(id, fs) == FramesOf(id, gs)
    ensures forall id: u32 :: Substream(Validation(cfg), id, fs) == Substream(Validation(cfg), id, gs)
  {
    forall id: u32
      ensures Substream(Validation(cfg), id, fs) == Substream(Validation(cfg), id, gs)
    {
      SubstreamIsFramesOf(cfg, id, fs);
      SubstreamIsFramesOf(cfg, id, gs);
    }
  }

  /** The same table up to the order of its slots. */
  ghost predicate SameTable(s: CamTable, t: CamTable) {
    && s.found == t.found
    && |s.slots| == |s.ids| == |t.ids| == |t.slots|
    && forall i, j :: 0 <= i < |s.ids| && 0 <= j < |t.ids| && s.ids[i] == t.ids[j] ==> s.slots[i] == t.slots[j]
  }

  lemma TablesAgree(cfg: Config, fs: seq<FrameValue>, gs: seq<FrameValue>)
    requires |IdsOf(fs)| <= MAX_SOURCES && |IdsOf(gs)| <= MAX_SOURCES
    requires forall id: u32 :: FramesOf(id, fs) == FramesOf(id, gs)
    ensures SameTable(Run(Validation(cfg), fs), Run(Validation(cfg), gs))
  {
    var ck := Validation(cfg);
    Decompose(ck, fs);
    Decompose(ck, gs);
    SlotsRearranged(cfg, fs, gs);
    SubstreamsAgree(cfg, fs, gs);
    OrderIrrelevant(ck, Admitted(ck, fs), Admitted(ck, gs), fs, gs);
  }

  /** The order in which cameras interleave changes no counter, no slot and no verdict. */
  lemma InterleavingIrrelevant(cfg: Config, a: seq<seq<byte>>, b: seq<seq<byte>>)
    requires SameStreams(a, b)
    requires |IdsOf(Parsed(a))| <= 16 && |IdsOf(Parsed(b))| <= 16
    ensures var s, t := Receive(cfg, a), Receive(cfg, b);
            && s.received == t.received && s.badParse == t.badParse
            && SameTable(s.table, t.table) && Verdict(s) == Verdict(t)
  {
    MessagesAreFrames(cfg, a);
    MessagesAreFrames(cfg, b);
    TablesAgree(cfg, Parsed(a), Parsed(b));
  }

  // ---- the table over whole runs ----

  function FramesHeld(slots: seq<CamState>): nat {
    if slots == [] then 0 else FramesHeld(slots[..|slots| - 1]) + slots[|slots| - 1].frames
  }

  /** Frames that arrived when all slots were taken by other cameras. */
  function TurnedAway(cfg: Config, fs: seq<FrameValue>): nat {
    if fs == [] then 0
    else
      var front, ids := fs[..|fs| - 1], Admitted(Validation(cfg), fs[..|fs| - 1]);
      TurnedAway(cfg, front)
      + One(IndexOf(ids, fs[|fs| - 1].cameraId, 0) == |ids| == MAX_SOURCES)
  }

  lemma {:induction false} HeldUpdate(slots: seq<CamState>, k: nat, cam: CamState)
    requires k < |slots|
    ensures FramesHeld(slots[k := cam]) == FramesHeld(slots) - slots[k].frames + cam.frames
    decreases |slots|
  {
    var last := |slots| - 1;
    if k == last {
      assert slots[k := cam][..last] == slots[..last];
    } else {
      HeldUpdate(slots[..last], k, cam);
      assert slots[k := cam][..last] == slots[..last][k := cam];
    }
  }

  lemma UpdateHolds(cfg: Config, t: CamTable, k: nat, f: FrameValue)
    requires k < |t.slots|
    ensures FramesHeld(Update(Validation(cfg), t, k, f).slots) == FramesHeld(t.slots) + 1
  {
    HeldUpdate(t.slots, k, NextCam(t.slots[k], f));
  }

  lemma AdmitHolds(cfg: Config, t: CamTable, id: u32)
    ensures FramesHeld(Admit(Validation(cfg), t, id).slots) == FramesHeld(t.slots)
  {
    Snoc(t.slots, FreshCam(cfg, id));
  }

  lemma StepHolds(cfg: Config, t: CamTable, f: FrameValue)
    requires |t.ids| == |t.slots| <= MAX_SOURCES
    ensures FramesHeld(Step(Validation(cfg), t, f).slots)
            == FramesHeld(t.slots) + One(!(IndexOf(t.ids, f.cameraId, 0) == |t.ids| == MAX_SOURCES))
  {
    var ck, k := Validation(cfg), IndexOf(t.ids, f.cameraId, 0);
    if k < |t.ids| {
      UpdateHolds(cfg, t, k, f);
    } else if |t.ids| < MAX_SOURCES {
      AdmitHolds(cfg, t, f.cameraId);
      UpdateHolds(cfg, Admit(ck, t, f.cameraId), |t.ids|, f);
    }
  }

  lemma {:induction false} HeldOrTurnedAway(cfg: Config, fs: seq<FrameValue>)
    ensures FramesHeld(Run(Validation(cfg), fs).slots) + TurnedAway(cfg, fs) == |fs|
  {
    if fs != [] {
      var front := fs[..|fs| - 1];
      HeldOrTurnedAway(cfg, front);
      Decompose(Validation(cfg), front);
      StepHolds(cfg, Run(Validation(cfg), front), fs[|fs| - 1]);
    }
  }

  /** Bounds cached at first sight are what the spec table, fixed beforehand, says. */
  ghost predicate BoundsCached(cfg: Config, t: CamTable) {
    forall k :: 0 <= k < |t.ids| && k < |t.slots| ==>
      Says(cfg, t.ids[k], t.slots[k].specKnown, t.slots[k].maxSites, t.slots[k].expectPeriodMs)
  }

  /**
    After any stream: slots are a prefix with distinct ids and the right bounds, and every
    message is a parse failure, a frame held by its camera's slot, or one turned away.
   */
  lemma TableInvariant(cfg: Config, ms: seq<seq<byte>>)
    ensures var s := Receive(cfg, ms);
            && Valid(s.table) && BoundsCached(cfg, s.table)
            && s.received == s.badParse + FramesHeld(s.table.slots) + TurnedAway(cfg, Parsed(ms))
  {
    var fs := Parsed(ms);
    MessagesAreFrames(cfg, ms);
    HeldOrTurnedAway(cfg, fs);
    Decompose(Validation(cfg), fs);
    var t := Run(Validation(cfg), fs);
    forall k | 0 <= k < |t.ids|
      ensures Says(cfg, t.ids[k], t.slots[k].specKnown, t.slots[k].maxSites, t.slots[k].expectPeriodMs)
    {
      SlotRemembers(cfg, t.ids[k], Substream(Validation(cfg), t.ids[k], fs));
    }
  }

  // ---- conservation in one camera's slot ----

  ghost predicate SequencesIncrease(s: seq<FrameValue>) {
    forall i :: 0 < i < |s| ==> s[i - 1].sequence < s[i].sequence
  }

  /** Frames seen and frames lost fill the span of sequence numbers exactly. */
  lemma {:induction false} SequenceConserved(s: seq<FrameValue>)
    requires s != [] && SequencesIncrease(s)
    ensures |s| + LostIn(s) == s[|s| - 1].sequence - s[0].sequence + 1
  {
    if |s| == 1 {
      assert LostIn(s[..0]) == 0;
    } else {
      SequenceConserved(s[..|s| - 1]);
    }
  }

  lemma SlotStep(cfg: Config, id: u32, s: seq<FrameValue>)
    requires |s| > 1
    ensures Alone(Validation(cfg), id, s) == NextCam(Alone(Validation(cfg), id, s[..|s| - 1]), s[|s| - 1])
    ensures var before := Alone(Validation(cfg), id, s[..|s| - 1]);
            before.frames == |s| - 1 && before.lastTNs == s[|s| - 2].tNs
  {
    SlotRemembers(cfg, id, s[..|s| - 1]);
  }

  /** Intervals telescope when stamps strictly increase. */
  lemma {:induction false} IntervalsTelescope(cfg: Config, id: u32, s: seq<FrameValue>)
    requires s != [] && StampsIncrease(s)
    ensures var cam := Alone(Validation(cfg), id, s);
            cam.dtSum == s[|s| - 1].tNs - s[0].tNs && cam.dtN == |s| - 1
  {
    if |s| == 1 {
      assert s[..0] == [];
    } else {
      IntervalsTelescope(cfg, id, s[..|s| - 1]);
      SlotStep(cfg, id, s);
    }
  }

  /** Mean between extremes, whatever the stamps did: min * n <= sum <= max * n. */
  ghost predicate Spread(cam: CamState) {
    cam.dtN > 0 ==> cam.dtMin * cam.dtN <= cam.dtSum <= cam.dtMax * cam.dtN && 0 < cam.dtMin <= cam.dtMax
  }

  ghost predicate Untimed(cam: CamState) {
    cam.dtN == 0 ==> cam.dtMin == FAR && cam.dtMax == -FAR && cam.dtSum == 0
  }

  lemma Weighted(bound: int, other: int, n: nat)
    ensures bound <= other ==> bound * n <= other * n
  {
    if bound <= other {
      assert (other - bound) * n >= 0;
    }
  }

  lemma Distribute(bound: int, n: nat)
    ensures bound * (n + 1) == bound * n + bound
  {
  }

  lemma SpreadStep(cam: CamState, f: FrameValue)
    requires Spread(cam) && Untimed(cam)
    ensures Spread(NextCam(cam, f)) && Untimed(NextCam(cam, f))
  {
    if Advances(cam, f) {
      var after := NextCam(cam, f);
      Weighted(after.dtMin, cam.dtMin, cam.dtN);
      Weighted(cam.dtMax, after.dtMax, cam.dtN);
      Distribute(after.dtMin, cam.dtN);
      Distribute(after.dtMax, cam.dtN);
    }
  }

  lemma {:induction false} MeanBetweenExtremes(cfg: Config, id: u32, s: seq<FrameValue>)
    ensures Spread(Alone(Validation(cfg), id, s)) && Untimed(Alone(Validation(cfg), id, s))
  {
    if s != [] {
      MeanBetweenExtremes(cfg, id, s[..|s| - 1]);
      SpreadStep(Alone(Validation(cfg), id, s[..|s| - 1]), s[|s| - 1]);
    }
  }

  /** Where a stamp advanced, by how much. */
  predicate AdvancesAt(s: seq<FrameValue>, i: nat) {
    0 < i < |s| && s[i].tNs > s[i - 1].tNs
  }

  function IntervalAt(s: seq<FrameValue>, i: nat): int
    requires 0 < i < |s|
  {
    s[i].tNs as int - s[i - 1].tNs
  }

  /** The extremes bound every interval, and each is one of them. */
  ghost predicate Extremes(cam: CamState, s: seq<FrameValue>) {
    && (forall i: nat :: AdvancesAt(s, i) ==> cam.dtMin <= IntervalAt(s, i) <= cam.dtMax)
    && (cam.dtMin == FAR || exists i: nat :: AdvancesAt(s, i) && IntervalAt(s, i) == cam.dtMin)
    && (cam.dtMax == -FAR || exists i: nat :: AdvancesAt(s, i) && IntervalAt(s, i) == cam.dtMax)
  }

  lemma ExtremesStep(before: CamState, s: seq<FrameValue>)
    requires |s| > 1 && Extremes(before, s[..|s| - 1])
    requires before.frames == |s| - 1 && before.lastTNs == s[|s| - 2].tNs
    ensures Extremes(NextCam(before, s[|s| - 1]), s)
  {
    var front, last, after := s[..|s| - 1], |s| - 1, NextCam(before, s[|s| - 1]);
    assert forall i: nat :: AdvancesAt(front, i) ==> AdvancesAt(s, i) && IntervalAt(s, i) == IntervalAt(front, i);
    assert forall i: nat :: AdvancesAt(s, i) && i < last ==> AdvancesAt(front, i);
    if AdvancesAt(s, last) {
      assert after.dtMin <= IntervalAt(s, last) <= after.dtMax;
    }
  }

  /** dt_min and dt_max bound every interval, and once there is one they are attained. */
  lemma {:induction false} ExtremesAttained(cfg: Config, id: u32, s: seq<FrameValue>)
    ensures Extremes(Alone(Validation(cfg), id, s), s)
    decreases |s|
  {
    if |s| > 1 {
      ExtremesAttained(cfg, id, s[..|s| - 1]);
      SlotStep(cfg, id, s);
      ExtremesStep(Alone(Validation(cfg), id, s[..|s| - 1]), s);
    } else if |s| == 1 {
      assert s[..0] == [];
      assert Alone(Validation(cfg), id, s) == NextCam(FreshCam(cfg, id), s[0]);
    }
  }
}

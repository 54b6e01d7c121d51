/** The sink as sink.c runs it: a fixed array of slots, counters, and one shared decode buffer. */
module Sink {
  import opened Machine
  import opened Frames
  import opened Wire
  import opened WireBuffers
  import opened FanIn
  import opened SinkModel
  import opened SinkTrace
  import Binary32

  datatype Slot = Slot(seen: bool, cameraId: u32, cam: CamState)

  const UNUSED := Slot(false, 0, CamState(false, 0, 0.0, 0, 0, 0, 0, 0, 0, 0))

  function IdsOf(slots: seq<Slot>): (ids: seq<u32>)
    ensures |ids| == |slots| && forall i :: 0 <= i < |ids| ==> ids[i] == slots[i].cameraId
  {
    seq(|slots|, i requires 0 <= i < |slots| => slots[i].cameraId)
  }

  function CamsOf(slots: seq<Slot>): (cams: seq<CamState>)
    ensures |cams| == |slots| && forall i :: 0 <= i < |cams| ==> cams[i] == slots[i].cam
  {
    seq(|slots|, i requires 0 <= i < |slots| => slots[i].cam)
  }

  /** What polling and receiving came back with. */
  datatype Arrival = Quiet | PollFailed | ReceiveFailed | Message(m: seq<byte>)

  class Sink {
    var check: Check
    var cams: array<Slot>
    var specs: array<CamSpec>
    var nSpecs: nat
    var decoded: Frame

    var received: nat
    var badParse: nat
    var backwards: nat
    var jitter: nat
    var seqGaps: nat
    var seqLost: u64
    var badIndex: nat
    var badValue: nat
    var camerasSeen: nat
    var unexpectedCams: nat

    /** Everything found so far; the counters are its multiplicities, frames lost modulo 2^64. */
    ghost var found: Findings

    ghost predicate Counted()
      reads this
    {
      && backwards == found[StampBackward]
      && jitter == found[CadenceJitter]
      && seqGaps == found[SequenceGap]
      && seqLost == found[FrameLost] % U64
      && badIndex == found[IndexBad]
      && badValue == found[ValueBad]
      && unexpectedCams == found[CameraUnexpected]
    }

    /** The slots in use are a prefix with distinct ids; the rest are as calloc left them. */
    ghost predicate SlotsValid()
      reads this, cams
    {
      && camerasSeen <= cams.Length == MAX_SOURCES
      && (forall i :: 0 <= i < camerasSeen ==> cams[i].seen)
      && (forall i :: camerasSeen <= i < cams.Length ==> cams[i] == UNUSED)
      && (forall i, j :: 0 <= i < j < camerasSeen ==> cams[i].cameraId != cams[j].cameraId)
    }

    ghost predicate Valid()
      reads this, cams, decoded
    {
      && SlotsValid()
      && nSpecs <= specs.Length == MAX_SOURCES
      && decoded.Valid()
      && Counted()
    }

    ghost function Config(): Config
      requires nSpecs <= specs.Length
      reads this, specs
    {
      SinkModel.Config(check, specs[..nSpecs])
    }

    ghost function Ids(): seq<u32>
      requires camerasSeen <= cams.Length
      reads this, cams
    {
      IdsOf(cams[..camerasSeen])
    }

    ghost function Table(): CamTable
      requires camerasSeen <= cams.Length
      reads this, cams
    {
      FanIn.Table(Ids(), CamsOf(cams[..camerasSeen]), found)
    }

    ghost function State(): SinkState
      requires camerasSeen <= cams.Length
      reads this, cams
    {
      SinkState(received, badParse, Table())
    }

    /** sink_new: a non-positive tolerance means one half, no bound means 4096 sites. */
    constructor (check: Check)
      ensures Valid() && State() == EMPTY && nSpecs == 0
      ensures this.check == check.(tol := if check.tol <= 0.0 then 0.5 else check.tol)
      ensures decoded.capacity == if check.maxSites != 0 then check.maxSites else 4096
      ensures fresh(cams) && fresh(specs) && fresh(decoded.Footprint())
    {
      this.check := check.(tol := if check.tol <= 0.0 then 0.5 else check.tol);
      cams := new Slot[MAX_SOURCES](_ => UNUSED);
      specs := new CamSpec[MAX_SOURCES](_ => CamSpec(0, 0, 0.0));
      nSpecs := 0;
      decoded := new Frame.Allocate(if check.maxSites != 0 then check.maxSites else 4096);
      received, badParse, backwards, jitter, seqGaps, seqLost := 0, 0, 0, 0, 0, 0;
      badIndex, badValue, camerasSeen, unexpectedCams := 0, 0, 0, 0;
      found := multiset{};
      new;
      assert Ids() == [] && CamsOf(cams[..camerasSeen]) == [];
    }

    /** sink_expect: replaces the table and grows the decode buffer to the widest camera. */
    method Expect(table: seq<CamSpec>) returns (rc: int)
      requires Valid()
      modifies this`nSpecs, specs, decoded
      ensures Valid() && rc == if |table| > 16 then -1 else 0
      ensures rc != 0 ==> nSpecs == old(nSpecs) && specs[..] == old(specs[..])
      ensures rc == 0 ==> Config() == SinkModel.Config(check, table)
      ensures rc == 0 ==> forall i :: 0 <= i < |table| ==> table[i].maxSites <= decoded.capacity
      ensures decoded.capacity >= old(decoded.capacity)
      ensures old(decoded.Readable()) ==> decoded.Readable()
      ensures State() == old(State())
    {
      if |table| > MAX_SOURCES {
        return -1;
      }
      var largest: u32 := 0;
      for i := 0 to |table|
        modifies specs
        invariant forall k :: 0 <= k < i ==> specs[k] == table[k] && table[k].maxSites <= largest
      {
        specs[i] := table[i];
        if table[i].maxSites > largest {
          largest := table[i].maxSites;
        }
      }
      nSpecs := |table|;
      assert specs[..nSpecs] == table;
      if largest != 0 {
        rc := decoded.Reserve(largest);
      }
      rc := 0;
    }

    /** The first slot seen with this id, or cams.Length. */
    method FindSeen(id: u32) returns (k: nat)
      requires Valid()
      ensures k <= MAX_SOURCES
      ensures k == if IndexOf(Ids(), id, 0) < camerasSeen then IndexOf(Ids(), id, 0) else MAX_SOURCES
    {
      k := 0;
      while k < MAX_SOURCES
        invariant k <= MAX_SOURCES
        invariant forall i :: 0 <= i < k && i < camerasSeen ==> Ids()[i] != id
      {
        if cams[k].seen && cams[k].cameraId == id {
          assert k < camerasSeen && Ids()[k] == id;
          return;
        }
        assert k < camerasSeen ==> Ids()[k] == cams[k].cameraId;
        k := k + 1;
      }
    }

    /** The first unused slot, or cams.Length. */
    method FindUnused() returns (k: nat)
      requires Valid()
      ensures k == camerasSeen
    {
      k := 0;
      while k < MAX_SOURCES && cams[k].seen
        invariant k <= camerasSeen
      {
        k := k + 1;
      }
    }

    method FindSpec(id: u32) returns (j: nat)
      requires Valid()
      ensures j == SpecIndex(Config().specs, id, 0)
    {
      j := 0;
      while j < nSpecs && specs[j].cameraId != id
        invariant j <= nSpecs
        invariant forall k :: 0 <= k < j ==> Config().specs[k].cameraId != id
      {
        assert Config().specs[j] == specs[j];
        j := j + 1;
      }
      assert j < nSpecs ==> Config().specs[j] == specs[j];
    }

    /** cam_find: the camera's slot, or a fresh one with bounds cached from its spec. */
    method FindCam(id: u32) returns (k: nat)
      requires Valid()
      modifies this`camerasSeen, this`unexpectedCams, this`found, cams
      ensures Valid() && k <= MAX_SOURCES
      ensures var t := old(Table());
              var j := IndexOf(t.ids, id, 0);
              if j < |t.ids| then k == j && Table() == t
              else if |t.ids| < MAX_SOURCES then k == |t.ids| && Table() == Admit(Validation(Config()), t, id)
              else k == MAX_SOURCES && Table() == t
    {
      k := FindSeen(id);
      if k < MAX_SOURCES {
        return;
      }
      k := FindUnused();
      if k < MAX_SOURCES {
        Claim(k, id);
      }
    }

    /** Bounds from the camera's spec, or the fallback, over a slot as calloc left it. */
    method Initialised(id: u32, blank: CamState) returns (cam: CamState)
      requires Valid() && blank == UNUSED.cam
      ensures cam == FreshCam(Config(), id)
      ensures Says(Config(), id, cam.specKnown, cam.maxSites, cam.expectPeriodMs)
    {
      cam := blank.(dtMin := FAR, dtMax := -FAR,
                    maxSites := check.maxSites, expectPeriodMs := check.expectPeriodMs);
      var j := FindSpec(id);
      if j < nSpecs {
        assert Config().specs[j] == specs[j];
        cam := cam.(maxSites := specs[j].maxSites, expectPeriodMs := specs[j].expectPeriodMs, specKnown := true);
      }
      TableSays(Config(), id);
    }

    /** Fill in the first unused slot. */
    method Claim(k: nat, id: u32)
      requires Valid() && k == camerasSeen < MAX_SOURCES && IndexOf(Ids(), id, 0) == camerasSeen
      modifies this`camerasSeen, this`unexpectedCams, this`found, cams
      ensures Valid() && Table() == Admit(Validation(Config()), old(Table()), id)
    {
      var cam := Initialised(id, cams[k].cam);
      CountUnexpected(id, cam.specKnown);
      OpenSlot(id, cam);
    }

    method CountUnexpected(id: u32, known: bool)
      requires nSpecs <= specs.Length && Counted() && known == Configured(Config(), id)
      modifies this`unexpectedCams, this`found
      ensures Counted() && found == old(found) + Admission(Config(), id)
    {
      if nSpecs > 0 && !known {
        unexpectedCams := unexpectedCams + 1;
      }
      found := found + Admission(Config(), id);
    }

    method OpenSlot(id: u32, cam: CamState)
      requires SlotsValid() && camerasSeen < MAX_SOURCES
      requires forall i :: 0 <= i < camerasSeen ==> Ids()[i] != id
      modifies this`camerasSeen, cams
      ensures SlotsValid() && Ids() == old(Ids()) + [id]
      ensures CamsOf(cams[..camerasSeen]) == old(CamsOf(cams[..camerasSeen])) + [cam]
    {
      ghost var before := cams[..camerasSeen];
      assert forall i :: 0 <= i < camerasSeen ==> cams[i].cameraId == Ids()[i];
      cams[camerasSeen] := Slot(true, id, cam);
      camerasSeen := camerasSeen + 1;
      assert cams[..camerasSeen] == before + [Slot(true, id, cam)];
    }

    method SetSlot(k: nat, cam: CamState)
      requires SlotsValid() && k < camerasSeen
      modifies cams
      ensures SlotsValid() && Ids() == old(Ids())
      ensures CamsOf(cams[..camerasSeen]) == old(CamsOf(cams[..camerasSeen]))[k := cam]
    {
      ghost var before := cams[..camerasSeen];
      cams[k] := cams[k].(cam := cam);
      assert cams[..camerasSeen] == before[k := before[k].(cam := cam)];
    }

    /** The part of sink_validate that compares a frame with the camera's previous one. */
    method JudgeTiming(cam: CamState, tNs: i64, sequence: u64, ghost f: FrameValue) returns (timed: CamState)
      requires f.tNs == tNs && f.sequence == sequence
      modifies this`backwards, this`jitter, this`seqGaps, this`seqLost
      ensures backwards == old(backwards) + One(GoesBackwards(cam, f))
      ensures jitter == old(jitter) + One(Jitters(check.tol, cam, f))
      ensures seqGaps == old(seqGaps) + One(SkipsSequence(cam, f))
      ensures seqLost == (old(seqLost) as int + LostBefore(cam, f)) % U64
      ensures timed.(frames := timed.frames + 1, lastTNs := tNs, lastSeq := sequence) == NextCam(cam, f)
    {
      timed := cam;
      if cam.frames > 0 {
        var dt := tNs as int - cam.lastTNs;
        if tNs <= cam.lastTNs {
          backwards := backwards + 1;
        } else if cam.expectPeriodMs > 0.0 {
          if OffCadence(dt as real / 1000000.0, cam.expectPeriodMs, check.tol) {
            jitter := jitter + 1;
          }
        }
        if sequence != (cam.lastSeq + 1) % U64 {
          var lost := if sequence > cam.lastSeq then sequence - cam.lastSeq - 1 else 0;
          seqGaps := seqGaps + 1;
          seqLost := (seqLost as int + lost) % U64;
        }
        if dt > 0 {
          if dt < timed.dtMin {
            timed := timed.(dtMin := dt);
          }
          if dt > timed.dtMax {
            timed := timed.(dtMax := dt);
          }
          timed := timed.(dtSum := timed.dtSum + dt, dtN := timed.dtN + 1);
        }
      }
    }

    /** The scan over a frame's sites: one flag per kind of fault, however many there are. */
    static method ScanSites(f: Frame, bound: u32) returns (idxBad: bool, valBad: bool)
      requires f.Readable()
      ensures idxBad == IndexOutside(bound, f.Value())
      ensures valBad == ValueOutside(f.Value())
    {
      idxBad, valBad := false, false;
      ghost var value := f.Value();
      for i := 0 to f.count
        invariant idxBad == (bound != 0 && exists k :: 0 <= k < i && value.support[k] >= bound)
        invariant valBad == exists k :: 0 <= k < i && Binary32.OutsideUnitInterval(value.signal[k])
      {
        if bound != 0 && f.support[i] >= bound {
          assert value.support[i] >= bound;
          idxBad := true;
        }
        if Binary32.OutsideUnitInterval(f.signal[i]) {
          assert Binary32.OutsideUnitInterval(value.signal[i]);
          valBad := true;
        }
      }
    }

    /** Counts the two flags of the scan, after the timing counters went ahead by these amounts. */
    method Settle(idxBad: bool, valBad: bool, ghost more: Findings)
      requires backwards == found[StampBackward] + more[StampBackward]
      requires jitter == found[CadenceJitter] + more[CadenceJitter]
      requires seqGaps == found[SequenceGap] + more[SequenceGap]
      requires seqLost == (found[FrameLost] % U64 + more[FrameLost]) % U64
      requires badIndex == found[IndexBad] && more[IndexBad] == One(idxBad)
      requires badValue == found[ValueBad] && more[ValueBad] == One(valBad)
      requires unexpectedCams == found[CameraUnexpected] && more[CameraUnexpected] == 0
      modifies this`badIndex, this`badValue, this`found
      ensures Counted() && found == old(found) + more
    {
      if idxBad {
        badIndex := badIndex + 1;
      }
      if valBad {
        badValue := badValue + 1;
      }
      ModuloAdd(found[FrameLost], more[FrameLost]);
      found := found + more;
    }

    /** Everything sink_validate counts once the slot is known, and the slot's next content. */
    method Count(cam: CamState, f: Frame) returns (next: CamState)
      requires Counted() && f.Readable()
      modifies this`backwards, this`jitter, this`seqGaps, this`seqLost, this`badIndex, this`badValue, this`found
      ensures Counted() && next == NextCam(cam, f.Value())
      ensures found == old(found) + FrameFindings(check.tol, cam, f.Value())
    {
      ghost var value := f.Value();
      var timed := JudgeTiming(cam, f.tNs, f.sequence, value);
      var idxBad, valBad := ScanSites(f, cam.maxSites);
      Settle(idxBad, valBad, FrameFindings(check.tol, cam, value));
      next := timed.(frames := timed.frames + 1, lastTNs := f.tNs, lastSeq := f.sequence);
    }

    method Judge(k: nat, f: Frame)
      requires Valid() && k < camerasSeen && f.Readable()
      modifies this`backwards, this`jitter, this`seqGaps, this`seqLost, this`badIndex, this`badValue, this`found, cams
      ensures Valid() && Table() == Update(Validation(Config()), old(Table()), k, f.Value())
    {
      var next := Count(cams[k].cam, f);
      SetSlot(k, next);
    }

    /** sink_validate. */
    method Validate(f: Frame)
      requires Valid() && f.Readable()
      modifies this`camerasSeen, this`unexpectedCams, this`found, cams
      modifies this`backwards, this`jitter, this`seqGaps, this`seqLost, this`badIndex, this`badValue
      ensures Valid() && Table() == Step(Validation(Config()), old(Table()), f.Value())
    {
      var k := FindCam(f.cameraId);
      if k == MAX_SOURCES {
        return;
      }
      Judge(k, f);
    }

    /**
      Whatever capacity the decode buffer starts with, the outcome is what the message
      says: a frame that does not fit is reserved for and unpacked again.
     */
    method Decode(m: seq<byte>) returns (status: Status)
      requires decoded.Valid()
      modifies decoded, decoded.support, decoded.signal
      ensures decoded.Valid() && decoded.capacity >= old(decoded.capacity)
      ensures status == match Parse(m) { case Success(_) => Ok case Failure(e) => Rejected(e) }
      ensures status.Ok? ==> decoded.Readable() && decoded.Value() == Parse(m).value
      ensures status.Ok? && |Parse(m).value.support| <= old(decoded.capacity) ==>
                decoded.capacity == old(decoded.capacity)
    {
      status := Unpack(m, decoded);
      if status.TooSmall? {
        var reserved := decoded.Reserve(decoded.count);
        status := Unpack(m, decoded);
      }
    }

    method RecvMessage(m: seq<byte>)
      requires Valid()
      modifies this`received, this`badParse, this`camerasSeen, this`unexpectedCams, this`found, cams
      modifies this`backwards, this`jitter, this`seqGaps, this`seqLost, this`badIndex, this`badValue
      modifies decoded, decoded.support, decoded.signal
      ensures Valid() && State() == Deliver(Config(), old(State()), m)
      ensures decoded.capacity >= old(decoded.capacity)
    {
      var status := Decode(m);
      received := received + 1;
      if !status.Ok? {
        badParse := badParse + 1;
      } else {
        Validate(decoded);
      }
    }

    /** sink_recv. */
    method Recv(arrival: Arrival) returns (rc: int)
      requires Valid()
      modifies this`received, this`badParse, this`camerasSeen, this`unexpectedCams, this`found, cams
      modifies this`backwards, this`jitter, this`seqGaps, this`seqLost, this`badIndex, this`badValue
      modifies decoded, decoded.support, decoded.signal
      ensures Valid()
      ensures rc == match arrival
                    case Quiet => 1
                    case PollFailed => -2
                    case ReceiveFailed => -3
                    case Message(_) => 0
      ensures State() == if arrival.Message? then Deliver(Config(), old(State()), arrival.m) else old(State())
      ensures decoded.capacity >= old(decoded.capacity)
    {
      match arrival
      case Quiet => return 1;
      case PollFailed => return -2;
      case ReceiveFailed => return -3;
      case Message(m) =>
        RecvMessage(m);
        rc := 0;
    }

    /** sink_report, without the printing. */
    method Report() returns (failed: int)
      requires Valid()
      ensures failed == Verdict(State())
    {
      failed := if received == 0 || badParse > 0 || backwards > 0 || seqGaps > 0
                   || badIndex > 0 || badValue > 0 || unexpectedCams > 0 then 1 else 0;
    }
  }

  lemma ModuloAdd(a: nat, b: nat)
    ensures (a % U64 + b) % U64 == (a + b) % U64
  {
  }
}

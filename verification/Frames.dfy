/** The sparse frame of frame.h: a growable pair of arrays and a header. */
module Frames {
  import opened Machine

  /**
    The live part of a frame as a value. Entries of `signal` are binary32 bit
    patterns: the program only ever moves them with memcpy.
   */
  datatype FrameValue = FrameValue(
    cameraId: u32,
    tNs: i64,
    sequence: u64,
    support: seq<u32>,
    signal: seq<u32>)
  {
    ghost predicate WellFormed() {
      |support| == |signal| < U32
    }
  }

  class Frame {
    var support: array<u32>
    var signal: array<u32>
    var tNs: i64
    var sequence: u64
    var cameraId: u32
    var count: u32
    var capacity: u32

    /** The arrays are as long as one another and as long as `capacity` claims. */
    ghost predicate Valid()
      reads this
    {
      && support.Length == signal.Length
      && capacity <= support.Length
      && support != signal
    }

    /** A frame whose `count` may be trusted; unpacking breaks this on purpose. */
    ghost predicate Readable()
      reads this
    {
      Valid() && count <= capacity
    }

    ghost function Footprint(): set<object>
      reads this
    {
      {this, support, signal}
    }

    ghost function Value(): FrameValue
      requires Readable()
      reads this, support, signal
    {
      FrameValue(cameraId, tNs, sequence, support[..count], signal[..count])
    }

    constructor Allocate(cap: nat)
      requires 0 < cap
      ensures Readable() && fresh(Footprint())
      ensures support.Length == cap && capacity == cap % U32
      ensures count == 0 && tNs == 0 && sequence == 0
    {
      support := new u32[cap];
      signal := new u32[cap];
      capacity := cap % U32;
      tNs, sequence, cameraId, count := 0, 0, 0, 0;
    }

    /** new_frames: null for a zero capacity; the capacity field is a truncating cast. */
    static method NewFrames(cap: nat) returns (frame: Frame?)
      ensures frame == null <==> cap == 0
      ensures frame != null ==>
                && frame.Readable() && fresh(frame.Footprint())
                && frame.support.Length == cap && frame.capacity == cap % U32
                && frame.count == 0 && frame.tNs == 0 && frame.sequence == 0
    {
      if cap == 0 {
        return null;
      }
      frame := new Frame.Allocate(cap);
    }

    /** frame_reserve when allocation succeeds: grows, never shrinks, keeps every entry. */
    method Reserve(cap: nat) returns (rc: int)
      requires Valid() && cap < U32
      modifies this
      ensures rc == 0 && Valid()
      ensures capacity == if cap <= old(capacity) then old(capacity) else cap
      ensures cap <= old(capacity) ==> support == old(support) && signal == old(signal)
      ensures old(capacity) < cap ==> fresh(support) && fresh(signal)
      ensures support[..old(capacity)] == old(support[..capacity])
      ensures signal[..old(capacity)] == old(signal[..capacity])
      ensures count == old(count) && tNs == old(tNs)
      ensures sequence == old(sequence) && cameraId == old(cameraId)
    {
      if cap <= capacity {
        return 0;
      }
      var newSupport := new u32[cap];
      var newSignal := new u32[cap];
      for i := 0 to capacity
        modifies newSupport, newSignal
        invariant newSupport[..i] == support[..i]
        invariant newSignal[..i] == signal[..i]
      {
        newSupport[i] := support[i];
        newSignal[i] := signal[i];
      }
      support, signal, capacity := newSupport, newSignal, cap;
      rc := 0;
    }

    /** frame_reset: forgets the header's moving parts, keeps the allocation. */
    method Reset()
      requires Valid()
      modifies this`count, this`tNs, this`sequence
      ensures Readable()
      ensures count == 0 && tNs == 0 && sequence == 0
    {
      count, tNs, sequence := 0, 0, 0;
    }
  }
}

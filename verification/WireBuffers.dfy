/** frame_wire_pack and frame_wire_unpack as they run: copies between buffers and a frame. */
module WireBuffers {
  import opened Machine
  import opened Frames
  import opened Wire

  datatype Status = Ok | Rejected(error: WireError) | TooSmall

  method PutWord(out: array<byte>, at: nat, w: u32)
    requires at + 4 <= out.Length
    modifies out
    ensures out[at..at + 4] == Bytes32(w)
    ensures forall k :: 0 <= k < out.Length && !(at <= k < at + 4) ==> out[k] == old(out[k])
  {
    out[at], out[at + 1], out[at + 2], out[at + 3] :=
      w % 0x100, w / 0x100 % 0x100, w / 0x1_0000 % 0x100, w / 0x100_0000;
  }

  /** One memcpy of n words on a little-endian host. */
  method PutWords(out: array<byte>, at: nat, ws: seq<u32>)
    requires at + 4 * |ws| <= out.Length
    modifies out
    ensures out[at..at + 4 * |ws|] == Words(ws)
    ensures forall k :: 0 <= k < out.Length && !(at <= k < at + 4 * |ws|) ==> out[k] == old(out[k])
  {
    for i := 0 to |ws|
      invariant out[at..at + 4 * i] == Words(ws[..i])
      invariant forall k :: 0 <= k < out.Length && !(at <= k < at + 4 * i) ==> out[k] == old(out[k])
    {
      label Before:
      var from := at + 4 * i;
      PutWord(out, from, ws[i]);
      assert out[at..from] == old@Before(out[at..from]);
      assert out[at..from + 4] == out[at..from] + out[from..from + 4];
      assert ws[..i + 1][..i] == ws[..i];
    }
    assert ws[..|ws|] == ws;
  }

  /** Three contiguous blocks from the start of the buffer. */
  method PutBlocks(out: array<byte>, a: seq<u32>, b: seq<u32>, c: seq<u32>)
    requires 4 * (|a| + |b| + |c|) <= out.Length
    modifies out
    ensures out[..4 * (|a| + |b| + |c|)] == Words(a + b + c)
    ensures forall k :: 4 * (|a| + |b| + |c|) <= k < out.Length ==> out[k] == old(out[k])
  {
    var second, third := 4 * |a|, 4 * |a| + 4 * |b|;
    PutWords(out, 0, a);
    assert out[..second] == Words(a);
    PutWords(out, second, b);
    assert out[..third] == Words(a) + Words(b);
    PutWords(out, third, c);
    WordsAppend(a, b);
    WordsAppend(a + b, c);
    assert out[..third + 4 * |c|] == out[..third] + out[third..third + 4 * |c|];
  }

  method Pack(frame: Frame, out: array<byte>, cap: nat) returns (written: nat)
    requires frame.Readable() && cap <= out.Length
    modifies out
    ensures written == if cap < 32 + 8 * frame.count then 0 else 32 + 8 * frame.count
    ensures written != 0 ==> out[..written] == Encode(frame.Value())
    ensures forall k :: written <= k < out.Length ==> out[k] == old(out[k])
  {
    var need := MessageSize(frame.count);
    if cap < need {
      return 0;
    }
    var header := HeaderWords(
      Header(FORMAT, VERSION, 0, frame.cameraId, frame.count, frame.tNs, frame.sequence));
    PutBlocks(out, header, frame.support[..frame.count], frame.signal[..frame.count]);
    written := need;
  }

  /** The reading half of memcpy: n words of the message into an array. */
  method TakeWords(m: seq<byte>, at: nat, n: nat, dst: array<u32>)
    requires at + 4 * n <= |m| && n <= dst.Length
    modifies dst
    ensures dst[..n] == ReadWords(m, at, n)
    ensures forall k :: n <= k < dst.Length ==> dst[k] == old(dst[k])
  {
    for i := 0 to n
      invariant forall k :: 0 <= k < i ==> dst[k] == Read32(m, at + 4 * k)
      invariant forall k :: n <= k < dst.Length ==> dst[k] == old(dst[k])
    {
      dst[i] := Read32(m, at + 4 * i);
    }
  }

  /**
    A rejected message leaves the frame alone. One that does not fit leaves only
    its count behind, above the capacity, for the caller to reserve.
   */
  method Unpack(m: seq<byte>, out: Frame) returns (status: Status)
    requires out.Valid()
    modifies out`count, out`cameraId, out`tNs, out`sequence, out.support, out.signal
    ensures out.Valid()
    ensures status == match Parse(m)
                      case Failure(e) => Rejected(e)
                      case Success(f) => if |f.support| > out.capacity then TooSmall else Ok
    ensures status.Ok? ==> out.Readable() && out.Value() == Parse(m).value
    ensures status.TooSmall? ==> out.count == |Parse(m).value.support| > out.capacity
    ensures status.Rejected? ==> out.count == old(out.count)
    ensures !status.Ok? ==>
              && out.cameraId == old(out.cameraId) && out.tNs == old(out.tNs)
              && out.sequence == old(out.sequence)
              && out.support[..] == old(out.support[..]) && out.signal[..] == old(out.signal[..])
  {
    var peeked := Peek(m);
    if peeked.Failure? {
      return Rejected(peeked.error);
    }
    var header := peeked.value;
    if header.count > out.capacity {
      out.count := header.count;
      return TooSmall;
    }
    TakeWords(m, HEADER_SIZE, header.count, out.support);
    TakeWords(m, HEADER_SIZE + 4 * header.count, header.count, out.signal);
    out.cameraId, out.count, out.tNs, out.sequence :=
      header.cameraId, header.count, header.tNs, header.sequence;
    status := Ok;
  }
}

/** The message format of wire.h, as a pure codec on byte strings. */
module Wire {
  import opened Machine
  import opened Frames

  const FORMAT: u32 := 0x314d5246
  const VERSION: u16 := 1
  const HEADER_SIZE := 32
  const SITE_SIZE := 8

  datatype WireError = Short | Format | Version | Length

  datatype Header = Header(
    format: u32,
    version: u16,
    flags: u16,
    cameraId: u32,
    count: u32,
    tNs: i64,
    sequence: u64)

  // ---- little-endian words ----

  function Bytes32(n: u32): (s: seq<byte>)
    ensures |s| == 4
  {
    [n % 0x100, n / 0x100 % 0x100, n / 0x1_0000 % 0x100, n / 0x100_0000]
  }

  function Read32(s: seq<byte>, at: nat): u32
    requires at + 4 <= |s|
  {
    s[at] as int + 0x100 * s[at + 1] as int + 0x1_0000 * s[at + 2] as int + 0x100_0000 * s[at + 3] as int
  }

  lemma Read32Bytes(n: u32)
    ensures Read32(Bytes32(n), 0) == n
  {
    var b := n / 0x100;
    var c := n / 0x1_0000;
    assert b / 0x100 == c && c / 0x100 == n / 0x100_0000;
    assert n == 0x100 * b + n % 0x100 && b == 0x100 * c + b % 0x100 && c == 0x100 * (c / 0x100) + c % 0x100;
  }

  lemma Bytes32Read(s: seq<byte>, at: nat)
    requires at + 4 <= |s|
    ensures Bytes32(Read32(s, at)) == s[at..at + 4]
  {
    var n := Read32(s, at);
    assert n / 0x100 == s[at + 1] as int + 0x100 * s[at + 2] as int + 0x1_0000 * s[at + 3] as int;
    assert n / 0x1_0000 == s[at + 2] as int + 0x100 * s[at + 3] as int;
    assert n / 0x100_0000 == s[at + 3];
  }

  /** Two's complement of a 64-bit signed stamp, and back. */
  function ToUnsigned(t: i64): u64 {
    if t < 0 then t + U64 else t
  }

  function ToSigned(n: u64): i64 {
    if n < I63 then n else n - U64
  }

  function Words(ws: seq<u32>): (s: seq<byte>)
    ensures |s| == 4 * |ws|
  {
    if ws == [] then [] else Words(ws[..|ws| - 1]) + Bytes32(ws[|ws| - 1])
  }

  function ReadWords(s: seq<byte>, at: nat, n: nat): (ws: seq<u32>)
    requires at + 4 * n <= |s|
    ensures |ws| == n
    ensures forall i :: 0 <= i < n ==> ws[i] == Read32(s, at + 4 * i)
  {
    seq(n, i requires 0 <= i < n => Read32(s, at + 4 * i))
  }

  lemma {:induction false} WordAt(ws: seq<u32>, i: nat)
    requires i < |ws|
    ensures Read32(Words(ws), 4 * i) == ws[i]
  {
    var last := |ws| - 1;
    var front, back := Words(ws[..last]), Bytes32(ws[last]);
    if i == last {
      Read32Bytes(ws[last]);
    } else {
      WordAt(ws[..last], i);
      assert forall k :: 0 <= k < |front| ==> (front + back)[k] == front[k];
    }
  }

  lemma {:induction false} WordsRead(s: seq<byte>, n: nat)
    requires 4 * n <= |s|
    ensures Words(ReadWords(s, 0, n)) == s[..4 * n]
  {
    if n == 0 {
    } else {
      var k := 4 * (n - 1);
      WordsRead(s, n - 1);
      Bytes32Read(s, k);
      assert ReadWords(s, 0, n)[..n - 1] == ReadWords(s, 0, n - 1);
      assert s[..k + 4] == s[..k] + s[k..k + 4];
    }
  }

  lemma {:induction false} WordsAppend(a: seq<u32>, b: seq<u32>)
    ensures Words(a + b) == Words(a) + Words(b)
  {
    if b == [] {
      assert a + b == a;
    } else {
      var last := |b| - 1;
      WordsAppend(a, b[..last]);
      assert (a + b)[..|a + b| - 1] == a + b[..last];
    }
  }

  // ---- the codec ----

  function MessageSize(count: nat): nat {
    HEADER_SIZE + count * SITE_SIZE
  }

  /** The packed 32-byte header is eight little-endian words; version and flags share the second. */
  function HeaderWords(h: Header): (ws: seq<u32>)
    ensures |ws| == 8
  {
    [h.format, h.version as int + U16 * h.flags, h.cameraId, h.count,
     ToUnsigned(h.tNs) % U32, ToUnsigned(h.tNs) / U32, h.sequence % U32, h.sequence / U32]
  }

  function ReadHeader(m: seq<byte>): Header
    requires |m| >= HEADER_SIZE
  {
    Header(Read32(m, 0), Read32(m, 4) % U16, Read32(m, 4) / U16, Read32(m, 8), Read32(m, 12),
           ToSigned(Read32(m, 16) as int + U32 * Read32(m, 20)),
           Read32(m, 24) as int + U32 * Read32(m, 28))
  }

  function HeaderOf(version: u16, flags: u16, f: FrameValue): Header
    requires |f.support| < U32
  {
    Header(FORMAT, version, flags, f.cameraId, |f.support|, f.tNs, f.sequence)
  }

  function FrameWords(version: u16, flags: u16, f: FrameValue): seq<u32>
    requires |f.support| < U32
  {
    HeaderWords(HeaderOf(version, flags, f)) + f.support + f.signal
  }

  /** A message carrying `f`, whatever its version and reserved flags say. */
  function EncodeAs(version: u16, flags: u16, f: FrameValue): (m: seq<byte>)
    requires |f.support| < U32
  {
    Words(FrameWords(version, flags, f))
  }

  /** frame_wire_pack's message. */
  function Encode(f: FrameValue): seq<byte>
    requires |f.support| < U32
  {
    EncodeAs(VERSION, 0, f)
  }

  /** frame_wire_peek: the checks in the order the code makes them. */
  function Peek(m: seq<byte>): Result<Header, WireError> {
    if |m| < HEADER_SIZE then Failure(Short)
    else
      var h := ReadHeader(m);
      if h.format != FORMAT then Failure(Format)
      else if h.version > VERSION then Failure(Version)
      else if |m| != MessageSize(h.count) then Failure(Length)
      else Success(h)
  }

  /** What a message says, independent of any destination buffer. */
  function Parse(m: seq<byte>): Result<FrameValue, WireError> {
    match Peek(m)
    case Failure(e) => Failure(e)
    case Success(h) =>
      Success(FrameValue(h.cameraId, h.tNs, h.sequence,
                         ReadWords(m, HEADER_SIZE, h.count),
                         ReadWords(m, HEADER_SIZE + 4 * h.count, h.count)))
  }

  lemma SplitFields(version: u16, flags: u16, t: i64, n: u64)
    ensures (version as int + U16 * flags) % U16 == version && (version as int + U16 * flags) / U16 == flags
    ensures ToSigned(ToUnsigned(t)) == t
    ensures n % U32 + U32 * (n / U32) == n
  {
  }

  lemma HeaderRoundTrip(h: Header, m: seq<byte>)
    requires |m| >= HEADER_SIZE
    requires forall i :: 0 <= i < 8 ==> Read32(m, 4 * i) == HeaderWords(h)[i]
    ensures ReadHeader(m) == h
  {
    var ws := HeaderWords(h);
    assert Read32(m, 4 * 0) == ws[0] && Read32(m, 4 * 1) == ws[1] && Read32(m, 4 * 2) == ws[2];
    assert Read32(m, 4 * 3) == ws[3] && Read32(m, 4 * 4) == ws[4] && Read32(m, 4 * 5) == ws[5];
    assert Read32(m, 4 * 6) == ws[6] && Read32(m, 4 * 7) == ws[7];
    SplitFields(h.version, h.flags, h.tNs, h.sequence);
    SplitFields(h.version, h.flags, h.tNs, ToUnsigned(h.tNs));
  }

  lemma Halves(low: u32, high: u32)
    ensures (low as int + U32 * high) % U32 == low && (low as int + U32 * high) / U32 == high
    ensures ToUnsigned(ToSigned(low as int + U32 * high)) == low as int + U32 * high
  {
  }

  lemma HeaderRead(m: seq<byte>, i: nat)
    requires |m| >= HEADER_SIZE && i < 8
    ensures HeaderWords(ReadHeader(m))[i] == Read32(m, 4 * i)
  {
    Halves(Read32(m, 16), Read32(m, 20));
    Halves(Read32(m, 24), Read32(m, 28));
    assert Read32(m, 4) % U16 + U16 * (Read32(m, 4) / U16) == Read32(m, 4);
  }

  lemma HeaderEncoded(version: u16, flags: u16, f: FrameValue)
    requires |f.support| < U32
    ensures ReadHeader(EncodeAs(version, flags, f)) == HeaderOf(version, flags, f)
  {
    var ws, h := FrameWords(version, flags, f), HeaderOf(version, flags, f);
    forall i | 0 <= i < 8
      ensures Read32(Words(ws), 4 * i) == HeaderWords(h)[i]
    {
      WordAt(ws, i);
    }
    HeaderRoundTrip(h, Words(ws));
  }

  /** A run of words at word offset `from` reads back. */
  lemma WordsReadBack(ws: seq<u32>, from: nat, part: seq<u32>)
    requires from + |part| <= |ws| && ws[from..from + |part|] == part
    ensures ReadWords(Words(ws), 4 * from, |part|) == part
  {
    forall i | 0 <= i < |ws|
      ensures Read32(Words(ws), 4 * i) == ws[i]
    {
      WordAt(ws, i);
    }
    RunOfWords(Words(ws), 4 * from, from, ws, part);
  }

  lemma RunOfWords(m: seq<byte>, at: nat, from: nat, ws: seq<u32>, part: seq<u32>)
    requires |m| == 4 * |ws| && at == 4 * from
    requires forall i :: 0 <= i < |ws| ==> Read32(m, 4 * i) == ws[i]
    requires from + |part| <= |ws| && ws[from..from + |part|] == part
    ensures ReadWords(m, at, |part|) == part
  {
    var got := ReadWords(m, at, |part|);
    forall i | 0 <= i < |part|
      ensures got[i] == part[i]
    {
      assert part[i] == ws[from + i];
      assert Read32(m, 4 * (from + i)) == ws[from + i];
    }
  }

  lemma ParsesTo(m: seq<byte>, h: Header, f: FrameValue)
    requires |m| == MessageSize(h.count) && ReadHeader(m) == h && h.format == FORMAT && h.version <= VERSION
    requires f.cameraId == h.cameraId && f.tNs == h.tNs && f.sequence == h.sequence
    requires f.support == ReadWords(m, 32, h.count) && f.signal == ReadWords(m, 32 + 4 * h.count, h.count)
    ensures Parse(m) == Success(f)
  {
  }

  /** Any message built for a well-formed frame, at an accepted version, parses to that frame. */
  lemma EncodedParses(version: u16, flags: u16, f: FrameValue)
    requires f.WellFormed() && version <= 1
    ensures Parse(EncodeAs(version, flags, f)) == Success(f)
  {
    var ws := FrameWords(version, flags, f);
    HeaderEncoded(version, flags, f);
    assert ws[8..8 + |f.support|] == f.support;
    WordsReadBack(ws, 8, f.support);
    assert ws[8 + |f.support|..8 + |f.support| + |f.signal|] == f.signal;
    WordsReadBack(ws, 8 + |f.support|, f.signal);
    ParsesTo(EncodeAs(version, flags, f), HeaderOf(version, flags, f), f);
  }

  /** Pack then unpack restores every field and every array bit. */
  lemma RoundTrip(f: FrameValue)
    requires f.WellFormed()
    ensures Parse(Encode(f)) == Success(f)
    ensures |Encode(f)| == 32 + 8 * |f.support|
  {
    EncodedParses(VERSION, 0, f);
  }

  lemma PackInjective(f: FrameValue, g: FrameValue)
    requires f.WellFormed() && g.WellFormed() && Encode(f) == Encode(g)
    ensures f == g
  {
    RoundTrip(f);
    RoundTrip(g);
  }

  /** Re-packing an accepted message under its own version and flags gives it back. */
  lemma ParsedEncodes(m: seq<byte>)
    requires Parse(m).Success?
    ensures Parse(m).value.WellFormed()
    ensures ReadHeader(m).version <= VERSION
    ensures EncodeAs(ReadHeader(m).version, ReadHeader(m).flags, Parse(m).value) == m
  {
    var h := ReadHeader(m);
    var f := Parse(m).value;
    var all := 8 + h.count + h.count;
    var ws := FrameWords(h.version, h.flags, f);
    assert HeaderOf(h.version, h.flags, f) == h;
    forall i | 0 <= i < all
      ensures ws[i] == Read32(m, 4 * i)
    {
      if i < 8 {
        HeaderRead(m, i);
      } else if i < 8 + h.count {
        assert ws[i] == f.support[i - 8] == Read32(m, HEADER_SIZE + 4 * (i - 8));
      } else {
        var j := i - 8 - h.count;
        assert ws[i] == f.signal[j] == Read32(m, HEADER_SIZE + 4 * h.count + 4 * j);
      }
    }
    assert ws == ReadWords(m, 0, all);
    WordsRead(m, all);
    assert m[..4 * all] == m;
  }

  /** The accepted language, exactly: encodings of well-formed frames at version 0 or 1, any flags. */
  lemma AcceptedLanguage(m: seq<byte>, f: FrameValue)
    ensures Parse(m) == Success(f) <==>
            f.WellFormed()
            && exists version: u16, flags: u16 ::
                 version <= 1 && m == EncodeAs(version, flags, f)
  {
    if Parse(m) == Success(f) {
      ParsedEncodes(m);
    }
    if f.WellFormed() {
      forall version: u16, flags: u16 | version <= VERSION && m == EncodeAs(version, flags, f)
        ensures Parse(m) == Success(f)
      {
        EncodedParses(version, flags, f);
      }
    }
  }

  /** Every strict prefix or extension of an accepted message is rejected, and with which status. */
  lemma LengthIsExact(m: seq<byte>, other: seq<byte>)
    requires Parse(m).Success? && m != other
    requires m <= other || other <= m
    ensures Parse(other) == Failure(if |other| < 32 then Short else Length)
  {
    if |other| >= HEADER_SIZE {
      SameHeader(m, other);
    }
  }

  lemma SameHeader(a: seq<byte>, b: seq<byte>)
    requires |a| >= HEADER_SIZE && |b| >= HEADER_SIZE && (a <= b || b <= a)
    ensures ReadHeader(a) == ReadHeader(b)
  {
    SameWord(a, b, 0);
    SameWord(a, b, 4);
    SameWord(a, b, 8);
    SameWord(a, b, 12);
    SameWord(a, b, 16);
    SameWord(a, b, 20);
    SameWord(a, b, 24);
    SameWord(a, b, 28);
  }

  lemma SameWord(a: seq<byte>, b: seq<byte>, at: nat)
    requires at + 4 <= |a| && at + 4 <= |b| && (a <= b || b <= a)
    ensures Read32(a, at) == Read32(b, at)
  {
    assert forall k :: at <= k < at + 4 ==> a[k] == b[k];
  }

  /** Re-packing what was parsed changes at most the version and flags, bytes 4 to 7. */
  lemma RepackAgrees(m: seq<byte>)
    requires Parse(m).Success?
    ensures var again := Encode(Parse(m).value);
            && |again| == |m|
            && forall k :: 0 <= k < |m| && !(4 <= k < 8) ==> again[k] == m[k]
  {
    var h := ReadHeader(m);
    ParsedEncodes(m);
    var mine, ours := FrameWords(h.version, h.flags, Parse(m).value), FrameWords(VERSION, 0, Parse(m).value);
    assert forall i :: 0 <= i < |mine| && i != 1 ==> mine[i] == ours[i];
    forall k | 0 <= k < |m| && !(4 <= k < 8)
      ensures Words(ours)[k] == m[k]
    {
      var i := k / 4;
      WordAt(mine, i);
      WordAt(ours, i);
      SameByte(m, Words(ours), i, k);
    }
  }

  /** Re-packing is the identity exactly on messages of version 1 with zero flags. */
  lemma RepackIdentity(m: seq<byte>)
    requires Parse(m).Success?
    ensures Encode(Parse(m).value) == m <==> ReadHeader(m).version == 1 && ReadHeader(m).flags == 0
  {
    ParsedEncodes(m);
    WordAt(FrameWords(VERSION, 0, Parse(m).value), 1);
  }

  lemma SameByte(s: seq<byte>, t: seq<byte>, i: nat, k: nat)
    requires 4 * i <= k < 4 * i + 4 <= |s| == |t|
    requires Read32(s, 4 * i) == Read32(t, 4 * i)
    ensures s[k] == t[k]
  {
    var at := 4 * i;
    Bytes32Read(s, at);
    Bytes32Read(t, at);
    assert s[at..at + 4][k - at] == s[k] && t[at..at + 4][k - at] == t[k];
  }

  // ---- byte by byte ----

  /** Four bytes from `at` on, the least significant first. */
  ghost predicate Holds32(m: seq<byte>, at: nat, v: int)
    requires at + 4 <= |m|
  {
    v == m[at] as int + 256 * m[at + 1] as int + 65536 * m[at + 2] as int + 16777216 * m[at + 3] as int
  }

  /** Eight bytes from `at` on, the least significant first. */
  ghost predicate Holds64(m: seq<byte>, at: nat, v: int)
    requires at + 8 <= |m|
  {
    Holds32(m, at, v % 4294967296) && Holds32(m, at + 4, v / 4294967296)
  }

  /** The first eight bytes of a packed message: "FRM1", version 1, flags 0. */
  ghost predicate Preamble(m: seq<byte>)
    requires |m| >= 8
  {
    && m[0] == 0x46 && m[1] == 0x52 && m[2] == 0x4D && m[3] == 0x31
    && m[4] == 1 && m[5] == 0 && m[6] == 0 && m[7] == 0
  }

  /** Where everything is: the header's fields, then the support words, then the signal words. */
  ghost predicate LaidOut(m: seq<byte>, f: FrameValue) {
    var n := |f.support|;
    && |m| == 32 + 8 * n && |f.signal| == n
    && Preamble(m) && Holds32(m, 8, f.cameraId) && Holds32(m, 12, n)
    && Holds64(m, 16, if f.tNs < 0 then f.tNs + 0x1_0000_0000_0000_0000 else f.tNs)
    && Holds64(m, 24, f.sequence)
    && (forall i :: 0 <= i < n ==> Holds32(m, 32 + 4 * i, f.support[i]))
    && forall i :: 0 <= i < n ==> Holds32(m, 32 + 4 * n + 4 * i, f.signal[i])
  }

  lemma PreambleBytes(m: seq<byte>)
    requires |m| >= 8 && Read32(m, 0) == FORMAT && Read32(m, 4) == VERSION as int
    ensures Preamble(m)
  {
    Bytes32Read(m, 0);
    Bytes32Read(m, 4);
    assert m[0..4][0] == m[0] && m[0..4][1] == m[1] && m[0..4][2] == m[2] && m[0..4][3] == m[3];
    assert m[4..8][0] == m[4] && m[4..8][1] == m[5] && m[4..8][2] == m[6] && m[4..8][3] == m[7];
  }

  lemma HalvesHold(m: seq<byte>, at: nat, v: u64)
    requires at + 8 <= |m| && Read32(m, at) == v % U32 && Read32(m, at + 4) == v / U32
    ensures Holds64(m, at, v)
  {
  }

  lemma ArraysHold(m: seq<byte>, f: FrameValue)
    requires f.WellFormed() && m == Encode(f)
    ensures var n := |f.support|;
            && |m| == 32 + 8 * n
            && (forall i :: 0 <= i < n ==> Holds32(m, 32 + 4 * i, f.support[i]))
            && forall i :: 0 <= i < n ==> Holds32(m, 32 + 4 * n + 4 * i, f.signal[i])
  {
    var ws, n := FrameWords(VERSION, 0, f), |f.support|;
    forall i | 0 <= i < n
      ensures Holds32(m, 32 + 4 * i, f.support[i])
    {
      WordAt(ws, 8 + i);
    }
    forall i | 0 <= i < n
      ensures Holds32(m, 32 + 4 * n + 4 * i, f.signal[i])
    {
      WordAt(ws, 8 + n + i);
    }
  }

  /** Where every byte of a packed message goes. */
  lemma Layout(f: FrameValue)
    requires f.WellFormed()
    ensures LaidOut(Encode(f), f)
  {
    var ws, m := FrameWords(VERSION, 0, f), Encode(f);
    forall i | 0 <= i < 8
      ensures Read32(m, 4 * i) == ws[i]
    {
      WordAt(ws, i);
    }
    assert Read32(m, 4 * 0) == ws[0] && Read32(m, 4 * 1) == ws[1] && Read32(m, 4 * 2) == ws[2];
    assert Read32(m, 4 * 3) == ws[3] && Read32(m, 4 * 4) == ws[4] && Read32(m, 4 * 5) == ws[5];
    assert Read32(m, 4 * 6) == ws[6] && Read32(m, 4 * 7) == ws[7];
    PreambleBytes(m);
    HalvesHold(m, 16, ToUnsigned(f.tNs));
    HalvesHold(m, 24, f.sequence);
    ArraysHold(m, f);
  }

  /** The checks a message has to pass, in bytes, one after the other. */
  ghost predicate LongEnough(m: seq<byte>) {
    |m| >= 32
  }

  ghost predicate RightFormat(m: seq<byte>)
    requires LongEnough(m)
  {
    m[0] == 0x46 && m[1] == 0x52 && m[2] == 0x4D && m[3] == 0x31
  }

  ghost predicate KnownVersion(m: seq<byte>)
    requires LongEnough(m)
  {
    m[4] as int + 256 * m[5] as int <= 1
  }

  ghost predicate RightLength(m: seq<byte>)
    requires LongEnough(m)
  {
    exists count :: Holds32(m, 12, count) && |m| == 32 + 8 * count
  }

  lemma VersionBytes(m: seq<byte>)
    requires |m| >= 32
    ensures Read32(m, 4) % U16 == m[4] as int + 256 * m[5] as int
  {
    var low := m[4] as int + 256 * m[5] as int;
    assert Read32(m, 4) == low + U16 * (m[6] as int + 256 * m[7] as int);
  }

  lemma FormatBytes(m: seq<byte>)
    requires |m| >= 32
    ensures Read32(m, 0) == FORMAT <==> RightFormat(m)
  {
    if Read32(m, 0) == FORMAT {
      Bytes32Read(m, 0);
      assert m[0..4][0] == m[0] && m[0..4][1] == m[1] && m[0..4][2] == m[2] && m[0..4][3] == m[3];
    }
  }

  /** Exactly which messages are rejected, with which error, and what the others say. */
  lemma ErrorsAre(m: seq<byte>)
    ensures Parse(m) == Failure(Short) <==> !LongEnough(m)
    ensures Parse(m) == Failure(Format) <==> LongEnough(m) && !RightFormat(m)
    ensures Parse(m) == Failure(Version) <==> LongEnough(m) && RightFormat(m) && !KnownVersion(m)
    ensures Parse(m) == Failure(Length) <==>
            LongEnough(m) && RightFormat(m) && KnownVersion(m) && !RightLength(m)
  {
    if LongEnough(m) {
      FormatBytes(m);
      VersionBytes(m);
      assert Holds32(m, 12, Read32(m, 12));
    }
  }
}

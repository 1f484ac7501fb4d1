/**
 SWSP frames: the byte codec, the flag tests, and the constants of the
 version 4 per-stream flow control.
 */
module Protocol {

  type Byte = x: int | 0 <= x < 0x100
  type Uint16 = x: int | 0 <= x < 0x1_0000
  type Uint32 = x: int | 0 <= x < 0x1_0000_0000

  const FLAG_SYN: Uint16 := 1
  const FLAG_MORE: Uint16 := 2
  const FLAG_FIN: Uint16 := 4
  const FLAG_DAT: Uint16 := 0

  const MAX_CHUNK_SIZE := 32768
  const HEADER_SIZE := 8
  const SWSP_VERSION := 4

  const INITIAL_STREAM_WINDOW := 0x10_0000
  const STREAM_WINDOW_UPDATE_THRESHOLD := INITIAL_STREAM_WINDOW / 2
  const MAX_QUEUED_STREAM_FRAMES := 256

  datatype Frame = Frame(streamID: Uint32, flags: Uint16, payload: seq<Byte>) {
    predicate IsSYN() { flags % 2 == 1 }

    predicate IsMORE() { flags / 2 % 2 == 1 }

    predicate IsFIN() { flags / 4 % 2 == 1 }

    // Bytes charged against a receive window: SYN metadata is free.
    function FlowBytes(): nat {
      if IsSYN() then 0 else |payload|
    }

    predicate ValidPayload() { |payload| <= MAX_CHUNK_SIZE }
  }

  function NegotiateSWSPVersion(peerVersion: int): (v: int)
    ensures 1 <= v <= SWSP_VERSION
    ensures 0 < peerVersion ==> v <= peerVersion && (v < peerVersion ==> v == SWSP_VERSION)
    ensures peerVersion <= 0 ==> v == 2
  {
    if peerVersion <= 0 then 2 else if peerVersion > SWSP_VERSION then SWSP_VERSION else peerVersion
  }

  /** The three flags are bits of their own, whatever else is set beside them. */
  lemma FlagsApart(id: Uint32, syn: bool, more: bool, fin: bool, other: nat, payload: seq<Byte>)
    requires other < 0x2000
    ensures var flags := (if syn then FLAG_SYN else 0) + (if more then FLAG_MORE else 0) + (if fin then FLAG_FIN else 0)
                         + 8 * other;
      && flags < 0x1_0000
      && var f := Frame(id, flags, payload); f.IsSYN() == syn && f.IsMORE() == more && f.IsFIN() == fin
  {
    LowBits(if syn then 1 else 0, if more then 1 else 0, if fin then 1 else 0, other);
  }

  lemma LowBits(a: nat, b: nat, c: nat, d: nat)
    requires a <= 1 && b <= 1 && c <= 1
    ensures var n := a + 2 * b + 4 * c + 8 * d; n % 2 == a && n / 2 % 2 == b && n / 4 % 2 == c
  {
    var n := a + 2 * b + 4 * c + 8 * d;
    Divided(n, 2, b + 2 * c + 4 * d, a);
    Divided(n, 4, c + 2 * d, a + 2 * b);
    Divided(b + 2 * c + 4 * d, 2, c + 2 * d, b);
    Divided(c + 2 * d, 2, d, c);
  }

  lemma Divided(n: nat, d: nat, quotient: nat, rest: nat)
    requires (d == 2 || d == 4) && rest < d && n == d * quotient + rest
    ensures n / d == quotient && n % d == rest
  {
  }

  // ---- The byte codec ----

  function Uint16Bytes(n: Uint16): seq<Byte> {
    [n % 0x100, n / 0x100]
  }

  function Uint32Bytes(n: Uint32): seq<Byte> {
    [n % 0x100, n / 0x100 % 0x100, n / 0x1_0000 % 0x100, n / 0x100_0000]
  }

  function ReadUint16(b: seq<Byte>): Uint16
    requires |b| == 2
  {
    var lo: int, hi: int := b[0], b[1];
    lo + 0x100 * hi
  }

  function ReadUint32(b: seq<Byte>): Uint32
    requires |b| == 4
  {
    var b0: int, b1: int, b2: int, b3: int := b[0], b[1], b[2], b[3];
    b0 + 0x100 * b1 + 0x1_0000 * b2 + 0x100_0000 * b3
  }

  // What BuildFrame puts on the wire. The length field is a uint16, so a
  // payload of 64 KiB or more is truncated to its low bits there.
  function FrameBytes(streamID: Uint32, flags: Uint16, payload: seq<Byte>): seq<Byte> {
    Uint32Bytes(streamID) + Uint16Bytes(flags) + Uint16Bytes(|payload| % 0x1_0000) + payload
  }

  method BuildFrame(streamID: Uint32, flags: Uint16, payload: seq<Byte>) returns (buf: array<Byte>)
    ensures fresh(buf)
    ensures buf[..] == FrameBytes(streamID, flags, payload)
  {
    buf := new Byte[HEADER_SIZE + |payload|];
    var length: Uint16 := |payload| % 0x1_0000;
    buf[0], buf[1] := streamID % 0x100, streamID / 0x100 % 0x100;
    buf[2], buf[3] := streamID / 0x1_0000 % 0x100, streamID / 0x100_0000;
    buf[4], buf[5] := flags % 0x100, flags / 0x100;
    buf[6], buf[7] := length % 0x100, length / 0x100;
    assert buf[..HEADER_SIZE] == Uint32Bytes(streamID) + Uint16Bytes(flags) + Uint16Bytes(length);
    for i := 0 to |payload|
      invariant buf[..HEADER_SIZE] == Uint32Bytes(streamID) + Uint16Bytes(flags) + Uint16Bytes(length)
      invariant buf[HEADER_SIZE..HEADER_SIZE + i] == payload[..i]
    {
      buf[HEADER_SIZE + i] := payload[i];
    }
    assert buf[..] == buf[..HEADER_SIZE] + buf[HEADER_SIZE..HEADER_SIZE + |payload|];
  }

  datatype ParseResult = Parsed(frame: Frame) | Malformed

  function ParseFrame(data: seq<Byte>): ParseResult {
    if |data| < HEADER_SIZE then Malformed
    else if |data| != HEADER_SIZE + ReadUint16(data[6..8]) then Malformed
    else Parsed(Frame(ReadUint32(data[0..4]), ReadUint16(data[4..6]), data[HEADER_SIZE..]))
  }

  lemma BytesRead16(n: Uint16)
    ensures ReadUint16(Uint16Bytes(n)) == n
  {
  }

  lemma BytesRead32(n: Uint32)
    ensures ReadUint32(Uint32Bytes(n)) == n
  {
    var q1, q2, q3 := n / 0x100, n / 0x1_0000, n / 0x100_0000;
    assert n == 0x100 * q1 + n % 0x100;
    assert q1 == 0x100 * q2 + q1 % 0x100;
    assert q2 == 0x100 * q3 + q2 % 0x100;
    var b := Uint32Bytes(n);
    assert b[0] == n % 0x100 && b[1] == q1 % 0x100 && b[2] == q2 % 0x100 && b[3] == q3;
  }

  lemma FrameFields(streamID: Uint32, flags: Uint16, payload: seq<Byte>)
    ensures var data := FrameBytes(streamID, flags, payload);
      && |data| == HEADER_SIZE + |payload|
      && data[0..4] == Uint32Bytes(streamID) && data[4..6] == Uint16Bytes(flags)
      && data[6..8] == Uint16Bytes(|payload| % 0x1_0000) && data[HEADER_SIZE..] == payload
  {
  }

  /** Parsing recovers exactly the frames whose length the header can carry. */
  lemma ParseInvertsBuild(streamID: Uint32, flags: Uint16, payload: seq<Byte>)
    ensures ParseFrame(FrameBytes(streamID, flags, payload)) == Parsed(Frame(streamID, flags, payload))
       <==> |payload| < 0x1_0000
  {
    FrameFields(streamID, flags, payload);
    BytesRead32(streamID);
    BytesRead16(flags);
    BytesRead16(|payload| % 0x1_0000);
  }

  /** Every byte string that parses is the one encoding of the frame it parses to. */
  lemma BuildInvertsParse(data: seq<Byte>)
    requires ParseFrame(data).Parsed?
    ensures var f := ParseFrame(data).frame; FrameBytes(f.streamID, f.flags, f.payload) == data
  {
    Uint32Digits(data[0..4]);
    Uint16Digits(data[4..6]);
    Uint16Digits(data[6..8]);
    var f := ParseFrame(data).frame;
    assert |f.payload| == ReadUint16(data[6..8]);
    assert data == data[0..4] + data[4..6] + data[6..8] + data[HEADER_SIZE..];
  }

  lemma Uint16Digits(b: seq<Byte>)
    requires |b| == 2
    ensures Uint16Bytes(ReadUint16(b)) == b
  {
    var lo: int, hi: int := b[0], b[1];
    assert (lo + 0x100 * hi) / 0x100 == hi;
  }

  lemma Uint32Digits(b: seq<Byte>)
    requires |b| == 4
    ensures Uint32Bytes(ReadUint32(b)) == b
  {
    var b0: int, b1: int, b2: int, b3: int := b[0], b[1], b[2], b[3];
    var n := b0 + 0x100 * b1 + 0x1_0000 * b2 + 0x100_0000 * b3;
    assert n / 0x100 == b1 + 0x100 * b2 + 0x1_0000 * b3;
    assert n / 0x1_0000 == b2 + 0x100 * b3;
    assert n / 0x100_0000 == b3;
  }

  // ---- Sums over frames held in a queue ----

  function PayloadTotal(fs: seq<Frame>): nat {
    if fs == [] then 0 else |fs[0].payload| + PayloadTotal(fs[1..])
  }

  function FlowTotal(fs: seq<Frame>): nat {
    if fs == [] then 0 else fs[0].FlowBytes() + FlowTotal(fs[1..])
  }

  // Payload bytes of SYN frames: queued, but never charged to the window.
  function SynTotal(fs: seq<Frame>): nat {
    if fs == [] then 0 else |fs[0].payload| - fs[0].FlowBytes() + SynTotal(fs[1..])
  }

  lemma {:induction false} TotalsSplit(a: seq<Frame>, b: seq<Frame>)
    ensures PayloadTotal(a + b) == PayloadTotal(a) + PayloadTotal(b)
    ensures FlowTotal(a + b) == FlowTotal(a) + FlowTotal(b)
  {
    if a == [] {
      assert a + b == b;
    } else {
      assert (a + b)[1..] == a[1..] + b;
      TotalsSplit(a[1..], b);
    }
  }

  // How the totals move when a frame joins the back or leaves the front.
  lemma TotalsStep(fs: seq<Frame>, f: Frame)
    ensures PayloadTotal(fs + [f]) == PayloadTotal(fs) + |f.payload|
    ensures FlowTotal(fs + [f]) == FlowTotal(fs) + f.FlowBytes()
  {
    TotalsSplit(fs, [f]);
  }

  lemma {:induction false} PayloadIsFlowPlusSyn(fs: seq<Frame>)
    ensures PayloadTotal(fs) == FlowTotal(fs) + SynTotal(fs)
  {
    if fs != [] {
      PayloadIsFlowPlusSyn(fs[1..]);
    }
  }
}

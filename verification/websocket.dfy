/**
 WebSocket messages over stream frames: one message becomes bounded fragments
 on the sending side, and one message again on the receiving side.
 */
module WebSocket {
  import opened Protocol
  import opened Wrappers

  datatype Message = Message(binary: bool, data: seq<Byte>)

  // What a message looks like on the stream: its type byte and its data.
  function Tagged(m: Message): seq<Byte> { [if m.binary then 1 else 0] + m.data }

  // The frames for `body`: full ones flagged MORE, then the rest.
  function Fragments(id: Uint32, body: seq<Byte>): seq<Frame>
    decreases |body|
  {
    if |body| <= MAX_CHUNK_SIZE then [Frame(id, FLAG_DAT, body)]
    else [Frame(id, FLAG_MORE, body[..MAX_CHUNK_SIZE])] + Fragments(id, body[MAX_CHUNK_SIZE..])
  }

  // ---- The sender ----

  // A message as its reader gives it: all of it, or broken off after `data`.
  datatype Source = Whole(data: seq<Byte>) | Broken(data: seq<Byte>)

  method ReadFull(src: seq<Byte>, pos: nat, buf: array<Byte>, start: nat) returns (n: nat)
    requires pos <= |src| && start <= buf.Length
    modifies buf
    ensures n == if |src| - pos < buf.Length - start then |src| - pos else buf.Length - start
    ensures buf[..start] == old(buf[..start]) && buf[start..start + n] == src[pos..pos + n]
  {
    n := 0;
    while start + n < buf.Length && pos + n < |src|
      invariant start + n <= buf.Length && pos + n <= |src|
      invariant buf[..start] == old(buf[..start]) && buf[start..start + n] == src[pos..pos + n]
    {
      buf[start + n] := src[pos + n];
      n := n + 1;
    }
  }

  // The frames that go out when the stream accepts no more than `accepts`.
  // A broken source never yields the last fragment.
  function Outgoing(id: Uint32, binary: bool, src: Source, accepts: nat): seq<Frame> {
    var all := Fragments(id, Tagged(Message(binary, src.data)));
    FragmentsNotEmpty(id, Tagged(Message(binary, src.data)));
    var ready := if src.Whole? then all else all[..|all| - 1];
    if accepts < |ready| then ready[..accepts] else ready
  }

  lemma FragmentsNotEmpty(id: Uint32, body: seq<Byte>)
    ensures Fragments(id, body) != []
  {
  }

  lemma FragmentsStep(id: Uint32, body: seq<Byte>, off: nat, sent: seq<Frame>)
    requires off + MAX_CHUNK_SIZE < |body| && sent + Fragments(id, body[off..]) == Fragments(id, body)
    ensures sent + [Frame(id, FLAG_MORE, body[off..off + MAX_CHUNK_SIZE])] + Fragments(id, body[off + MAX_CHUNK_SIZE..])
         == Fragments(id, body)
  {
    var rest := body[off..];
    assert rest[..MAX_CHUNK_SIZE] == body[off..off + MAX_CHUNK_SIZE];
    assert rest[MAX_CHUNK_SIZE..] == body[off + MAX_CHUNK_SIZE..];
    var f, more := Frame(id, FLAG_MORE, rest[..MAX_CHUNK_SIZE]), Fragments(id, rest[MAX_CHUNK_SIZE..]);
    assert sent + ([f] + more) == sent + [f] + more;
  }

  lemma LastFragment(id: Uint32, body: seq<Byte>, off: nat, sent: seq<Frame>)
    requires off <= |body| <= off + MAX_CHUNK_SIZE && sent + Fragments(id, body[off..]) == Fragments(id, body)
    ensures Fragments(id, body) == sent + [Frame(id, FLAG_DAT, body[off..])]
  {
  }

  // Where the next fragment starts in the tagged message.
  function Offset(first: bool, pos: nat): nat { if first then 0 else pos + 1 }

  lemma TaggedSlice(m: Message, pos: nat, n: nat)
    requires pos + n <= |m.data|
    ensures Tagged(m)[pos + 1..pos + n + 1] == m.data[pos..pos + n]
    ensures Tagged(m)[0..n + 1] == [if m.binary then 1 else 0] + m.data[..n]
  {
  }

  // Fills the buffer for one fragment: the type byte takes its first place in
  // the first one.
  method FillBuffer(buf: array<Byte>, m: Message, first: bool, pos: nat) returns (payload: seq<Byte>, n: nat)
    requires buf.Length == MAX_CHUNK_SIZE && pos <= |m.data| && (first ==> pos == 0)
    modifies buf
    ensures n <= |m.data| - pos && Offset(first, pos) + |payload| == pos + n + 1
    ensures payload == Tagged(m)[Offset(first, pos)..pos + n + 1]
    ensures |payload| == MAX_CHUNK_SIZE || (|payload| < MAX_CHUNK_SIZE && pos + n == |m.data|)
  {
    var start := 0;
    if first {
      buf[0] := if m.binary then 1 else 0;
      start := 1;
    }
    n := ReadFull(m.data, pos, buf, start);
    payload := buf[..start + n];
    TaggedSlice(m, pos, n);
    assert buf[start..start + n] == m.data[pos..pos + n];
    if first {
      assert payload == [buf[0]] + buf[1..1 + n];
    } else {
      assert payload == buf[0..n];
    }
  }

  // One buffer serves every fragment, and a byte of lookahead tells whether
  // more follows.
  method WriteMessage(id: Uint32, binary: bool, src: Source, accepts: nat) returns (ok: bool, sent: seq<Frame>)
    ensures sent == Outgoing(id, binary, src, accepts)
    ensures ok <==> src.Whole? && |Fragments(id, Tagged(Message(binary, src.data)))| <= accepts
  {
    var buf := new Byte[MAX_CHUNK_SIZE];
    var m := Message(binary, src.data);
    ghost var body := Tagged(m);
    var first := true;
    var pos: nat := 0;
    sent := [];
    assert body[0..] == body && [] + Fragments(id, body) == Fragments(id, body);
    while true
      invariant pos <= |m.data| && (first ==> pos == 0) && Offset(first, pos) < |body|
      invariant |sent| <= accepts && sent + Fragments(id, body[Offset(first, pos)..]) == Fragments(id, body)
      decreases |body| - Offset(first, pos)
    {
      var payload, n := FillBuffer(buf, m, first, pos);
      ghost var off := Offset(first, pos);
      pos := pos + n;
      if pos == |m.data| {
        assert body[off..] == payload;
        LastFragment(id, body, off, sent);
        // A broken source fails the read, or the lookahead after a full one.
        if src.Broken? || |sent| == accepts { return false, sent; }
        return true, sent + [Frame(id, FLAG_DAT, payload)];
      }
      FragmentsStep(id, body, off, sent);
      if |sent| == accepts { return false, sent; }
      sent := sent + [Frame(id, FLAG_MORE, payload)];
      first := false;
    }
  }

  /** What goes out is the beginning of the fragments: all of them for a whole message the stream
      accepts, all but the last for a broken one, and never more than the stream accepts. */
  lemma OutgoingIsPrefix(id: Uint32, binary: bool, src: Source, accepts: nat)
    ensures var all, out := Fragments(id, Tagged(Message(binary, src.data))), Outgoing(id, binary, src, accepts);
      var ready := |all| - if src.Whole? then 0 else 1;
      out <= all && |out| == if accepts < ready then accepts else ready
  {
    FragmentsNotEmpty(id, Tagged(Message(binary, src.data)));
  }

  // ---- The shape of the fragments ----

  function Ceiling(n: nat, d: nat): nat
    requires d > 0
  {
    (n + d - 1) / d
  }

  function Joined(fs: seq<Frame>): seq<Byte> {
    if fs == [] then [] else fs[0].payload + Joined(fs[1..])
  }

  /** As many fragments as the body fills; each valid, all but the last full and flagged MORE;
      and together they are the body. */
  lemma {:induction false} FragmentsShape(id: Uint32, body: seq<Byte>)
    requires body != []
    ensures var fs := Fragments(id, body);
      && |fs| == Ceiling(|body|, MAX_CHUNK_SIZE) && Joined(fs) == body
      && forall i :: 0 <= i < |fs| ==>
           && fs[i].streamID == id && fs[i].ValidPayload() && fs[i].payload != []
           && !fs[i].IsSYN() && !fs[i].IsFIN()
           && (fs[i].IsMORE() <==> i < |fs| - 1)
           && (i < |fs| - 1 ==> |fs[i].payload| == MAX_CHUNK_SIZE)
    decreases |body|
  {
    if |body| <= MAX_CHUNK_SIZE {
      assert body + [] == body;
    } else {
      var rest := body[MAX_CHUNK_SIZE..];
      FragmentsShape(id, rest);
      assert body == body[..MAX_CHUNK_SIZE] + rest;
      var fs := Fragments(id, body);
      assert fs[1..] == Fragments(id, rest);
      assert forall i :: 0 < i < |fs| ==> fs[i] == fs[1..][i - 1];
    }
  }

  // ---- The receiver ----

  // An upstream writer is open for one message at a time.
  datatype Upstream = Upstream(connected: bool, writer: Option<Message>, delivered: seq<Message>)

  datatype FragmentError = NotConnected | MissingType | BadType(tag: Byte) | UpstreamFailed

  function Written(u: Upstream, m: Message, more: bool): Upstream {
    if more then u.(writer := Some(m)) else u.(writer := None, delivered := u.delivered + [m])
  }

  function Fragment(u: Upstream, payload: seq<Byte>, more: bool): Result<Upstream, FragmentError> {
    if !u.connected then Err(NotConnected)
    else match u.writer
      case Some(m) => Ok(Written(u, m.(data := m.data + payload), more))
      case None =>
        if payload == [] then Err(MissingType)
        else if payload[0] > 1 then Err(BadType(payload[0]))
        else Ok(Written(u, Message(payload[0] == 1, payload[1..]), more))
  }

  // NextWriter fails, a write fails once `taken` bytes are in, or Close does.
  datatype Fault = Sound | Opening | Writing(taken: nat) | Closing

  // What a fragment leaves, and its error; no error delivers anything.
  function Attempt(u: Upstream, payload: seq<Byte>, more: bool, fault: Fault): (r: (Upstream, Option<FragmentError>))
    ensures r.1 == None ==> Fragment(u, payload, more) == Ok(r.0)
    ensures r.1.Some? ==> r.0.delivered == u.delivered && r.0.connected == u.connected
  {
    match Fragment(u, payload, more)
    case Err(e) => (u, Some(e))
    case Ok(next) =>
      var first := u.writer == None;
      var m := if first then Message(payload[0] == 1, []) else u.writer.value;
      var data := if first then payload[1..] else payload;
      match fault
      case Sound => (next, None)
      case Opening => if first then (u, Some(UpstreamFailed)) else (next, None)
      case Writing(taken) =>
        if data == [] then (next, None)
        else (u.(writer := Some(m.(data := m.data + data[..if taken < |data| then taken else |data|]))),
              Some(UpstreamFailed))
      case Closing => if more then (next, None) else (u.(writer := None), Some(UpstreamFailed))
  }

  /** A fragment is taken exactly on a connected stream, and as the first of a message only with a type
      byte of 0 or 1. */
  lemma FragmentIff(u: Upstream, payload: seq<Byte>, more: bool)
    ensures match Fragment(u, payload, more)
      case Ok(next) =>
        && u.connected && (u.writer == None ==> payload != [] && payload[0] in [0, 1])
        && next.connected && (next.writer.Some? <==> more)
        && (more ==> next.delivered == u.delivered) && |next.delivered| == |u.delivered| + if more then 0 else 1
      case Err(e) =>
        if !u.connected then e == NotConnected
        else u.writer == None && if payload == [] then e == MissingType else payload[0] > 1 && e == BadType(payload[0])
  {
  }

  /** An upstream that fails is reported exactly when it was needed: to open for a first fragment, to
      take some data, to close after the last. Nothing is open after a failure to open or to close,
      and after one to write what was taken is still there. */
  lemma FaultReported(u: Upstream, payload: seq<Byte>, more: bool, fault: Fault)
    requires Fragment(u, payload, more).Ok?
    ensures var (after, error) := Attempt(u, payload, more, fault);
      var data := if u.writer == None then payload[1..] else payload;
      var needed := (fault.Opening? && u.writer == None) || (fault.Writing? && data != []) || (fault.Closing? && !more);
      && error == (if needed then Some(UpstreamFailed) else None)
      && (needed ==> (after.writer.Some? <==> fault.Writing?))
      && (needed && fault.Writing? ==>
            |after.writer.value.data|
              == (if u.writer == None then 0 else |u.writer.value.data|)
                 + if fault.taken < |data| then fault.taken else |data|)
  {
  }

  class Stream {
    var connected: bool
    var writer: Option<Message>
    var delivered: seq<Message>

    ghost function Snapshot(): Upstream
      reads this
    {
      Upstream(connected, writer, delivered)
    }

    constructor ()
      ensures Snapshot() == Upstream(true, None, [])
    {
      connected, writer, delivered := true, None, [];
    }

    method WriteFragment(payload: seq<Byte>, more: bool, fault: Fault) returns (error: Option<FragmentError>)
      modifies this
      ensures (Snapshot(), error) == Attempt(old(Snapshot()), payload, more, fault)
    {
      if !connected { return Some(NotConnected); }
      var data := payload;
      if writer == None {
        if |payload| < 1 { return Some(MissingType); }
        if payload[0] != 0 && payload[0] != 1 { return Some(BadType(payload[0])); }
        if fault == Opening { return Some(UpstreamFailed); }
        writer := Some(Message(payload[0] == 1, []));
        data := payload[1..];
      }
      var m := writer.value;
      assert [] + data == data;
      if fault.Writing? && |data| > 0 {
        writer := Some(m.(data := m.data + data[..if fault.taken < |data| then fault.taken else |data|]));
        return Some(UpstreamFailed);
      }
      m := m.(data := m.data + data);
      writer := Some(m);
      if !more {
        writer := None;
        if fault == Closing { return Some(UpstreamFailed); }
        delivered := delivered + [m];
      }
      return None;
    }
  }

  // ---- Round trip ----

  // Data frames, handed on as the session hands them on.
  function Receive(u: Upstream, fs: seq<Frame>): Option<Upstream>
    decreases |fs|
  {
    if fs == [] then Some(u)
    else match Fragment(u, fs[0].payload, fs[0].IsMORE())
      case Err(_) => None
      case Ok(next) => Receive(next, fs[1..])
  }

  // The same off the wire.
  function ReceiveWire(u: Upstream, wire: seq<seq<Byte>>): Option<Upstream>
    decreases |wire|
  {
    if wire == [] then Some(u)
    else match ParseFrame(wire[0])
      case Malformed => None
      case Parsed(f) =>
        match Fragment(u, f.payload, f.IsMORE())
        case Err(_) => None
        case Ok(next) => ReceiveWire(next, wire[1..])
  }

  function Encoded(fs: seq<Frame>): seq<seq<Byte>> {
    if fs == [] then [] else [FrameBytes(fs[0].streamID, fs[0].flags, fs[0].payload)] + Encoded(fs[1..])
  }

  lemma {:induction false} WireCarries(u: Upstream, fs: seq<Frame>)
    requires forall i :: 0 <= i < |fs| ==> fs[i].ValidPayload()
    ensures ReceiveWire(u, Encoded(fs)) == Receive(u, fs)
    decreases |fs|
  {
    if fs != [] {
      var f := fs[0];
      ParseInvertsBuild(f.streamID, f.flags, f.payload);
      assert Encoded(fs)[1..] == Encoded(fs[1..]);
      match Fragment(u, f.payload, f.IsMORE())
      case Ok(next) => WireCarries(next, fs[1..]);
      case Err(_) =>
    }
  }

  lemma {:induction false} ReceiveAppend(u: Upstream, a: seq<Frame>, b: seq<Frame>)
    requires Receive(u, a).Some?
    ensures Receive(u, a + b) == Receive(Receive(u, a).value, b)
    decreases |a|
  {
    if a == [] {
      assert a + b == b;
    } else {
      assert (a + b)[1..] == a[1..] + b;
      ReceiveAppend(Fragment(u, a[0].payload, a[0].IsMORE()).value, a[1..], b);
    }
  }

  // The fragments of what is left of a message, with its beginning written.
  lemma {:induction false} ReceiveRest(u: Upstream, m: Message, id: Uint32, rest: seq<Byte>)
    requires u.connected && u.writer == Some(m)
    ensures Receive(u, Fragments(id, rest)) == Some(Written(u, m.(data := m.data + rest), false))
    decreases |rest|
  {
    var fs := Fragments(id, rest);
    if |rest| > MAX_CHUNK_SIZE {
      var cut, left := rest[..MAX_CHUNK_SIZE], rest[MAX_CHUNK_SIZE..];
      var next := m.(data := m.data + cut);
      assert fs[1..] == Fragments(id, left);
      ReceiveRest(u.(writer := Some(next)), next, id, left);
      assert m.data + cut + left == m.data + rest by { assert cut + left == rest; }
    }
  }

  lemma ReceiveMessage(u: Upstream, m: Message, id: Uint32)
    requires u.connected && u.writer == None
    ensures Receive(u, Fragments(id, Tagged(m))) == Some(u.(delivered := u.delivered + [m]))
  {
    var body := Tagged(m);
    var fs := Fragments(id, body);
    if |body| <= MAX_CHUNK_SIZE {
      assert body[1..] == m.data;
    } else {
      var left := body[MAX_CHUNK_SIZE..];
      var begun := Message(m.binary, body[..MAX_CHUNK_SIZE][1..]);
      assert fs[1..] == Fragments(id, left);
      assert begun.data + left == m.data;
      ReceiveRest(u.(writer := Some(begun)), begun, id, left);
    }
  }

  // Every message of a list, fragmented one after the other.
  function AllFragments(id: Uint32, ms: seq<Message>): seq<Frame> {
    if ms == [] then [] else Fragments(id, Tagged(ms[0])) + AllFragments(id, ms[1..])
  }

  lemma {:induction false} AllValid(id: Uint32, ms: seq<Message>)
    ensures forall i :: 0 <= i < |AllFragments(id, ms)| ==> AllFragments(id, ms)[i].ValidPayload()
  {
    if ms != [] {
      FragmentsShape(id, Tagged(ms[0]));
      AllValid(id, ms[1..]);
    }
  }

  lemma {:induction false} ReceiveMessages(u: Upstream, id: Uint32, ms: seq<Message>)
    requires u.connected && u.writer == None
    ensures Receive(u, AllFragments(id, ms)) == Some(u.(delivered := u.delivered + ms))
    decreases |ms|
  {
    if ms == [] {
      assert u.delivered + ms == u.delivered;
    } else {
      var next := u.(delivered := u.delivered + [ms[0]]);
      ReceiveMessage(u, ms[0], id);
      ReceiveAppend(u, Fragments(id, Tagged(ms[0])), AllFragments(id, ms[1..]));
      ReceiveMessages(next, id, ms[1..]);
      assert next.delivered + ms[1..] == u.delivered + ms;
    }
  }

  /** Any messages, fragmented, built into frames, parsed and written on, arrive as they were:
      the same types and bytes, in order, with the writer closed. */
  lemma MessagesRoundTrip(u: Upstream, id: Uint32, ms: seq<Message>)
    requires u.connected && u.writer == None
    ensures ReceiveWire(u, Encoded(AllFragments(id, ms))) == Some(u.(delivered := u.delivered + ms))
  {
    AllValid(id, ms);
    WireCarries(u, AllFragments(id, ms));
    ReceiveMessages(u, id, ms);
  }

  lemma {:induction false} MoreOnly(u: Upstream, fs: seq<Frame>)
    requires u.connected && u.writer.Some? && forall i :: 0 <= i < |fs| ==> fs[i].IsMORE()
    ensures var r := Receive(u, fs); r.Some? && r.value.delivered == u.delivered && r.value.writer.Some?
    decreases |fs|
  {
    if fs != [] {
      MoreOnly(Fragment(u, fs[0].payload, true).value, fs[1..]);
    }
  }

  lemma FirstTag(id: Uint32, m: Message)
    ensures var p := Fragments(id, Tagged(m))[0].payload; p != [] && p[0] == if m.binary then 1 else 0
  {
  }

  /** A message cut short, by its source or by the stream, delivers nothing and leaves the
      writer open: no part of it ever passes for a message. */
  lemma CutMessageDeliversNothing(u: Upstream, id: Uint32, binary: bool, src: Source, accepts: nat)
    requires u.connected && u.writer == None
    requires |Outgoing(id, binary, src, accepts)| < |Fragments(id, Tagged(Message(binary, src.data)))|
    ensures var out := Outgoing(id, binary, src, accepts);
      var r := ReceiveWire(u, Encoded(out));
      r.Some? && r.value.delivered == u.delivered && (r.value.writer == None <==> out == [])
  {
    var m, out := Message(binary, src.data), Outgoing(id, binary, src, accepts);
    var all := Fragments(id, Tagged(m));
    FragmentsShape(id, Tagged(m));
    assert out == all[..|out|];
    WireCarries(u, out);
    if out != [] {
      FirstTag(id, m);
      assert out[0] == all[0];
      forall i | 0 <= i < |out[1..]| ensures out[1..][i].IsMORE() { assert out[1..][i] == all[i + 1]; }
      MoreOnly(Fragment(u, out[0].payload, true).value, out[1..]);
    }
  }
}

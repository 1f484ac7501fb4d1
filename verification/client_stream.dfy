/**
 One stream's state on the client. The same protocol as the listener's, kept
 under two locks and three atomics: consuming a frame also uncounts it, and the
 receive window opens with the outgoing SYN.
 */
module ClientStream {
  import opened Protocol
  import opened Wrappers

  datatype ReceiveError = StreamFinished | StreamNotStarted | ReceiveWindowExceeded | StreamQueueFull

  datatype Counting = Counted(rx: Receiving) | Refused(why: ReceiveError)
  // The update is 0 when no window_update is due.
  datatype Consumption = Consumption(rx: Receiving, update: nat)

  // Guarded by queueMu, with the pending channel and the inbound FIN flag set
  // in the same critical section.
  datatype Receiving = Receiving(
    pending: seq<Frame>,
    queuedFrames: int,
    queuedBytes: int,
    received: nat,
    consumed: nat,
    advertised: nat,
    lastUpdate: nat,
    windowActive: bool,
    inboundFIN: bool)
  {
    predicate IsFresh() {
      && |pending| == queuedFrames == queuedBytes == received == consumed == advertised == lastUpdate == 0
      && !windowActive && !inboundFIN
    }

    // enqueue up to the release of queueMu; the frame is not yet in the channel.
    function Count(f: Frame, enforceWindow: bool): Counting {
      if inboundFIN then Refused(StreamFinished)
      else if enforceWindow && !windowActive then Refused(StreamNotStarted)
      else if enforceWindow && (received > advertised || f.FlowBytes() > advertised - received) then
        Refused(ReceiveWindowExceeded)
      else if queuedFrames >= MAX_QUEUED_STREAM_FRAMES || queuedBytes + |f.payload| > INITIAL_STREAM_WINDOW then
        Refused(StreamQueueFull)
      else
        Counted(this.(queuedFrames := queuedFrames + 1, queuedBytes := queuedBytes + |f.payload|,
                      received := received + f.FlowBytes(), inboundFIN := inboundFIN || f.IsFIN()))
    }

    function Push(f: Frame): Receiving { this.(pending := pending + [f]) }

    function Take(): Receiving
      requires pending != []
    {
      this.(pending := pending[1..])
    }

    function Release(f: Frame): Receiving {
      this.(queuedFrames := queuedFrames - 1, queuedBytes := queuedBytes - |f.payload|)
    }

    function Consume(f: Frame, flowControl: bool): Consumption {
      var rx := Release(f);
      if !flowControl || f.FlowBytes() == 0 then Consumption(rx, 0)
      else
        var total := consumed + f.FlowBytes();
        if total - lastUpdate < STREAM_WINDOW_UPDATE_THRESHOLD then Consumption(rx.(consumed := total), 0)
        else
          var max := INITIAL_STREAM_WINDOW + total;
          Consumption(rx.(consumed := total, lastUpdate := total, advertised := max), max)
    }

    function Activate(): Receiving {
      if windowActive then this else this.(advertised := INITIAL_STREAM_WINDOW, windowActive := true)
    }
  }

  datatype Reservation = Reserved(tx: Sending) | Blocked | Failed

  // uint64 subtraction wraps.
  function Uint64Minus(a: nat, b: nat): int {
    if a >= b then a - b else a - b + 0x1_0000_0000_0000_0000
  }

  // Guarded by sendMu.
  datatype Sending = Sending(sent: nat, limit: nat, failed: bool) {
    // One turn of the reserveSend loop. The source does not check sent <= limit
    // before subtracting.
    function TryReserve(bytes: nat): Reservation {
      if failed then Failed
      else if bytes <= Uint64Minus(limit, sent) then Reserved(this.(sent := sent + bytes))
      else Blocked
    }

    function UpdateLimit(max: nat): Sending { if max > limit then this.(limit := max) else this }
  }

  const FRESH := Receiving([], 0, 0, 0, 0, 0, 0, false, false)

  // ---- What every critical section keeps ----

  ghost predicate Bounded(rx: Receiving, counted: seq<Frame>, hand: seq<Frame>) {
    && rx.queuedFrames == |rx.pending| + |counted| + |hand| <= MAX_QUEUED_STREAM_FRAMES
    && rx.queuedBytes == PayloadTotal(rx.pending) + PayloadTotal(counted) + PayloadTotal(hand) <= INITIAL_STREAM_WINDOW
  }

  ghost predicate WindowOk(rx: Receiving) {
    if rx.windowActive then
      && rx.lastUpdate <= rx.consumed < rx.lastUpdate + STREAM_WINDOW_UPDATE_THRESHOLD
      && rx.advertised == rx.lastUpdate + INITIAL_STREAM_WINDOW
      && rx.received <= rx.advertised
    else
      rx.received == rx.consumed == rx.advertised == rx.lastUpdate == 0
  }

  // With at most one frame in the dispatcher's hands and one in the worker's.
  ghost predicate ReceiveOk(rx: Receiving, counted: seq<Frame>, hand: seq<Frame>) {
    Bounded(rx, counted, hand) && WindowOk(rx) && |counted| <= 1 && |hand| <= 1
  }

  lemma CountKeeps(rx: Receiving, hand: seq<Frame>, f: Frame)
    requires Bounded(rx, [], hand) && WindowOk(rx) && rx.Count(f, true).Counted?
    ensures Bounded(rx.Count(f, true).rx, [f], hand) && WindowOk(rx.Count(f, true).rx)
  {
    assert PayloadTotal([f]) == |f.payload|;
  }

  /** Within the bounds a frame is counted exactly when the stream was opened and not finished, the
      window covers it, and it fits beside the frames still held; otherwise the first of these that
      fails is the reason. Counting it changes nothing else. */
  lemma CountedIff(rx: Receiving, hand: seq<Frame>, f: Frame)
    requires Bounded(rx, [], hand) && WindowOk(rx)
    ensures var fits := |rx.pending| + |hand| < MAX_QUEUED_STREAM_FRAMES
                     && PayloadTotal(rx.pending) + PayloadTotal(hand) + |f.payload| <= INITIAL_STREAM_WINDOW;
      var covered := rx.received + f.FlowBytes() <= rx.advertised;
      match rx.Count(f, true)
      case Counted(next) =>
        && !rx.inboundFIN && rx.windowActive && covered && fits
        && next.pending == rx.pending && next.received == rx.received + f.FlowBytes()
        && next.inboundFIN == (rx.inboundFIN || f.IsFIN()) && next.windowActive
        && next.consumed == rx.consumed && next.advertised == rx.advertised && next.lastUpdate == rx.lastUpdate
      case Refused(why) =>
        if rx.inboundFIN then why == StreamFinished
        else if !rx.windowActive then why == StreamNotStarted
        else if !covered then why == ReceiveWindowExceeded
        else !fits && why == StreamQueueFull
  {
  }

  /** A counted frame always fits the channel, so pushing it never falls back. */
  lemma PushKeeps(rx: Receiving, hand: seq<Frame>, f: Frame)
    requires Bounded(rx, [f], hand)
    ensures |rx.pending| < MAX_QUEUED_STREAM_FRAMES && Bounded(rx.Push(f), [], hand)
  {
    TotalsStep(rx.pending, f);
    assert PayloadTotal([f]) == |f.payload|;
  }

  lemma TakeKeeps(rx: Receiving, counted: seq<Frame>)
    requires Bounded(rx, counted, []) && rx.pending != []
    ensures Bounded(rx.Take(), counted, [rx.pending[0]])
  {
    assert PayloadTotal([rx.pending[0]]) == |rx.pending[0].payload|;
  }

  lemma ReleaseKeeps(rx: Receiving, counted: seq<Frame>, f: Frame)
    requires Bounded(rx, counted, [f])
    ensures Bounded(rx.Release(f), counted, [])
  {
    assert PayloadTotal([f]) == |f.payload|;
  }

  /** As on the listener, but uncounting the frame in the same critical section. */
  lemma ConsumeKeeps(rx: Receiving, counted: seq<Frame>, f: Frame)
    requires Bounded(rx, counted, [f]) && WindowOk(rx) && rx.windowActive
    ensures var c := rx.Consume(f, true);
      && Bounded(c.rx, counted, []) && WindowOk(c.rx)
      && rx.advertised <= c.rx.advertised
      && c.rx.consumed == rx.consumed + f.FlowBytes()
      && (c.update != 0 <==>
            f.FlowBytes() > 0 && rx.consumed + f.FlowBytes() - rx.lastUpdate >= STREAM_WINDOW_UPDATE_THRESHOLD)
      && (c.update != 0 ==> c.update == c.rx.advertised == c.rx.consumed + INITIAL_STREAM_WINDOW)
  {
    ReleaseKeeps(rx, counted, f);
  }

  // ---- Waiting for credit ----

  datatype Wake = Raise(max: nat) | Fail | Abandon | SessionDone

  datatype SendOutcome = Granted | ErrStream | ErrClosed | ErrSessionClosed | StillWaiting

  function ReserveOutcome(tx: Sending, bytes: nat, wakes: seq<Wake>): (SendOutcome, Sending)
    decreases |wakes|
  {
    match tx.TryReserve(bytes)
    case Failed => (ErrStream, tx)
    case Reserved(tx') => (Granted, tx')
    case Blocked =>
      if wakes == [] then (StillWaiting, tx)
      else match wakes[0]
        case Raise(max) => ReserveOutcome(tx.UpdateLimit(max), bytes, wakes[1..])
        case Fail => ReserveOutcome(tx.(failed := true), bytes, wakes[1..])
        case Abandon => (ErrClosed, tx)
        case SessionDone => (ErrSessionClosed, tx)
  }

  /** Whatever wakes the writer, it is charged exactly when it is granted, and the
      charge never passes the limit, so the unsigned subtraction never wraps. */
  lemma {:induction false} ReserveNeverOverdraws(tx: Sending, bytes: nat, wakes: seq<Wake>)
    requires tx.sent <= tx.limit
    ensures var (outcome, tx') := ReserveOutcome(tx, bytes, wakes);
      && tx'.sent == (if outcome == Granted then tx.sent + bytes else tx.sent) <= tx'.limit
      && tx.limit <= tx'.limit
      && (outcome == Granted ==> !tx'.failed)
    decreases |wakes|
  {
    if tx.TryReserve(bytes).Blocked? && wakes != [] {
      match wakes[0]
      case Raise(max) => ReserveNeverOverdraws(tx.UpdateLimit(max), bytes, wakes[1..]);
      case Fail => ReserveNeverOverdraws(tx.(failed := true), bytes, wakes[1..]);
      case _ =>
    }
  }

  ghost predicate OnlyRaises(wakes: seq<Wake>) { forall i :: 0 <= i < |wakes| ==> wakes[i].Raise? }

  ghost function RaisedTo(limit: nat, wakes: seq<Wake>): nat
    decreases |wakes|
  {
    if wakes == [] then limit
    else RaisedTo(if wakes[0].Raise? && wakes[0].max > limit then wakes[0].max else limit, wakes[1..])
  }

  // After the first k wakes, all of them updates, the limit covers the frame.
  ghost predicate CoveredBy(tx: Sending, bytes: nat, wakes: seq<Wake>, k: nat) {
    k <= |wakes| && OnlyRaises(wakes[..k]) && tx.sent + bytes <= RaisedTo(tx.limit, wakes[..k])
  }

  // The first wake that is no update.
  function FirstEnd(wakes: seq<Wake>): Option<Wake> {
    if wakes == [] then None else if wakes[0].Raise? then FirstEnd(wakes[1..]) else Some(wakes[0])
  }

  function EndOf(end: Option<Wake>): SendOutcome {
    if end == None then StillWaiting
    else if end.value.Fail? then ErrStream
    else if end.value.Abandon? then ErrClosed
    else ErrSessionClosed
  }

  /** A writer gets its credit exactly when the updates before anything else raise the limit far
      enough, and otherwise fails as the first other wake says; on a failed stream at once. */
  lemma {:induction false} ReserveIffRaised(tx: Sending, bytes: nat, wakes: seq<Wake>)
    requires tx.sent <= tx.limit
    ensures tx.failed ==> ReserveOutcome(tx, bytes, wakes) == (ErrStream, tx)
    ensures !tx.failed ==>
              var outcome := ReserveOutcome(tx, bytes, wakes).0;
              && (outcome == Granted <==> exists k: nat :: CoveredBy(tx, bytes, wakes, k))
              && (outcome != Granted ==> outcome == EndOf(FirstEnd(wakes)))
    decreases |wakes|
  {
    if !tx.failed && bytes <= tx.limit - tx.sent {
      assert CoveredBy(tx, bytes, wakes, 0);
    } else if !tx.failed && wakes != [] && wakes[0].Raise? {
      var next := tx.UpdateLimit(wakes[0].max);
      ReserveIffRaised(next, bytes, wakes[1..]);
      if k: nat :| CoveredBy(next, bytes, wakes[1..], k) {
        assert wakes[..k + 1][1..] == wakes[1..][..k];
        assert CoveredBy(tx, bytes, wakes, k + 1);
      }
      forall k: nat | CoveredBy(tx, bytes, wakes, k)
        ensures k > 0 && CoveredBy(next, bytes, wakes[1..], k - 1)
      {
        assert wakes[..k][1..] == wakes[1..][..k - 1];
      }
    } else if !tx.failed {
      assert forall k: nat :: 0 < k <= |wakes| && OnlyRaises(wakes[..k]) ==> wakes[..k][0] == wakes[0];
      if wakes != [] && wakes[0].Fail? { assert ReserveOutcome(tx.(failed := true), bytes, wakes[1..]).0 == ErrStream; }
    }
  }

  /** Opening the windows a second time changes nothing. */
  lemma ActivatedOnce(rx: Receiving)
    ensures rx.Activate().windowActive && (rx.windowActive ==> rx.Activate() == rx)
    ensures !rx.windowActive ==> rx.Activate() == rx.(advertised := INITIAL_STREAM_WINDOW, windowActive := true)
  {
  }

  // ---- The stream as it is updated in place ----

  class StreamState {
    var pending: seq<Frame>
    var abandoned: bool
    var queuedBytes: int
    var queuedFrames: int
    var receivedBytes: nat
    var consumedBytes: nat
    var advertisedMax: nat
    var lastUpdateAt: nat
    var windowActive: bool
    var sentBytes: nat
    var sendLimit: nat
    var streamErr: bool
    var inboundFIN: bool
    // Frames counted but in no channel: the dispatcher's and the worker's.
    ghost var counted: seq<Frame>
    ghost var hand: seq<Frame>

    ghost function Receive(): Receiving
      reads this
    {
      Receiving(pending, queuedFrames, queuedBytes, receivedBytes, consumedBytes, advertisedMax,
                lastUpdateAt, windowActive, inboundFIN)
    }

    ghost function Send(): Sending
      reads this
    {
      Sending(sentBytes, sendLimit, streamErr)
    }

    ghost predicate Valid()
      reads this
    {
      ReceiveOk(Receive(), counted, hand) && sentBytes <= sendLimit
    }

    constructor ()
      ensures Valid() && Receive().IsFresh() && Send() == Sending(0, 0, false)
      ensures !abandoned && |counted| == |hand| == 0
    {
      pending, abandoned, queuedBytes, queuedFrames := [], false, 0, 0;
      receivedBytes, consumedBytes, advertisedMax, lastUpdateAt := 0, 0, 0, 0;
      windowActive, inboundFIN, streamErr := false, false, false;
      sentBytes, sendLimit, counted, hand := 0, 0, [], [];
    }

    // enqueue up to the release of queueMu.
    method CountFrame(frame: Frame) returns (ok: bool, why: ReceiveError)
      requires Valid() && counted == []
      modifies `queuedFrames, `queuedBytes, `receivedBytes, `inboundFIN, `counted
      ensures Valid() && counted == if ok then [frame] else []
      ensures match old(Receive()).Count(frame, true)
        case Refused(w) => !ok && why == w && Receive() == old(Receive())
        case Counted(rx) => ok && Receive() == rx
    {
      why := StreamFinished;
      if inboundFIN { return false, StreamFinished; }
      var flowBytes := frame.FlowBytes();
      if !windowActive { return false, StreamNotStarted; }
      if receivedBytes > advertisedMax || flowBytes > advertisedMax - receivedBytes {
        return false, ReceiveWindowExceeded;
      }
      if queuedFrames >= MAX_QUEUED_STREAM_FRAMES || queuedBytes + |frame.payload| > INITIAL_STREAM_WINDOW {
        return false, StreamQueueFull;
      }
      CountKeeps(Receive(), hand, frame);
      queuedFrames := queuedFrames + 1;
      queuedBytes := queuedBytes + |frame.payload|;
      receivedBytes := receivedBytes + flowBytes;
      inboundFIN := inboundFIN || frame.IsFIN();
      counted := [frame];
      return true, why;
    }

    // The rest of it. `sawAbandoned` is which ready case the select picks when
    // the stream has been abandoned; the third, a full channel, is never ready.
    method PushFrame(frame: Frame, sawAbandoned: bool) returns (closed: bool)
      requires Valid() && counted == [frame]
      modifies `queuedFrames, `queuedBytes, `pending, `counted
      ensures Valid() && counted == []
      ensures closed == (abandoned && sawAbandoned)
      ensures Receive() == if closed then old(Receive()).Release(frame) else old(Receive()).Push(frame)
    {
      PushKeeps(Receive(), hand, frame);
      counted := [];
      if abandoned && sawAbandoned {
        assert PayloadTotal([frame]) == |frame.payload|;
        queuedFrames := queuedFrames - 1;
        queuedBytes := queuedBytes - |frame.payload|;
        return true;
      }
      pending := pending + [frame];
      return false;
    }

    method TakeFrame() returns (frame: Frame)
      requires Valid() && pending != [] && hand == []
      modifies `pending, `hand
      ensures Valid() && hand == [frame] && frame == old(pending)[0]
      ensures Receive() == old(Receive()).Take()
    {
      TakeKeeps(Receive(), counted);
      frame := pending[0];
      pending := pending[1..];
      hand := [frame];
    }

    method Release(frame: Frame)
      requires Valid() && hand == [frame]
      modifies `queuedFrames, `queuedBytes, `hand
      ensures Valid() && hand == []
      ensures Receive() == old(Receive()).Release(frame)
    {
      ReleaseKeeps(Receive(), counted, frame);
      queuedFrames := queuedFrames - 1;
      queuedBytes := queuedBytes - |frame.payload|;
      hand := [];
    }

    method Consume(frame: Frame) returns (max: nat, update: bool)
      requires Valid() && hand == [frame] && windowActive
      modifies `queuedFrames, `queuedBytes, `hand, `consumedBytes, `lastUpdateAt, `advertisedMax
      ensures Valid() && hand == [] && update == (max != 0)
      ensures Consumption(Receive(), max) == old(Receive()).Consume(frame, true)
    {
      ConsumeKeeps(Receive(), counted, frame);
      var flowBytes := frame.FlowBytes();
      Release(frame);
      if flowBytes == 0 { return 0, false; }
      consumedBytes := consumedBytes + flowBytes;
      if consumedBytes - lastUpdateAt < STREAM_WINDOW_UPDATE_THRESHOLD { return 0, false; }
      lastUpdateAt := consumedBytes;
      advertisedMax := INITIAL_STREAM_WINDOW + consumedBytes;
      return advertisedMax, true;
    }

    method ActivateInitialWindow()
      requires Valid()
      modifies `advertisedMax, `windowActive, `sendLimit
      ensures Valid()
      ensures Receive() == old(Receive()).Activate()
      ensures Send() == if old(windowActive) then old(Send()) else old(Send()).UpdateLimit(INITIAL_STREAM_WINDOW)
    {
      if !windowActive {
        advertisedMax := INITIAL_STREAM_WINDOW;
        windowActive := true;
        UpdateSendLimit(INITIAL_STREAM_WINDOW);
      }
    }

    method UpdateSendLimit(max: nat)
      requires Valid()
      modifies this`sendLimit
      ensures Valid()
      ensures Send() == old(Send()).UpdateLimit(max)
    {
      if max > sendLimit { sendLimit := max; }
    }

    // The wait loop; `wakes` is what other threads do, each while it is blocked.
    method ReserveSend(bytes: nat, wakes: seq<Wake>) returns (outcome: SendOutcome)
      requires Valid()
      modifies this`sentBytes, this`sendLimit, this`streamErr
      ensures Valid()
      ensures (outcome, Send()) == ReserveOutcome(old(Send()), bytes, wakes)
    {
      var next := 0;
      while true
        invariant 0 <= next <= |wakes| && Valid()
        invariant ReserveOutcome(Send(), bytes, wakes[next..]) == ReserveOutcome(old(Send()), bytes, wakes)
        decreases |wakes| - next
      {
        if streamErr { return ErrStream; }
        if bytes <= Uint64Minus(sendLimit, sentBytes) {
          sentBytes := sentBytes + bytes;
          return Granted;
        }
        if next == |wakes| { return StillWaiting; }
        assert wakes[next..][1..] == wakes[next + 1..];
        match wakes[next] {
          case Raise(max) => UpdateSendLimit(max);
          case Fail => streamErr := true;
          case Abandon => return ErrClosed;
          case SessionDone => return ErrSessionClosed;
        }
        next := next + 1;
      }
    }

    method Fail()
      requires Valid()
      modifies this`streamErr, this`abandoned
      ensures Valid() && abandoned && Send() == old(Send()).(failed := true)
    {
      if !streamErr { streamErr := true; }
      abandoned := true;
    }
  }
}

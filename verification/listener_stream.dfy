/**
 One stream's mutex-guarded state on the listener: ordering, receive bounds and
 the directional flow-control counters. Each critical section is a function on
 the records `Stream` and `Receiving`, and the class `StreamState` performs it in place.
 Counters are unbounded naturals here; uint64 wrap-around is not modelled.
 */
module ListenerStream {
  import opened Protocol
  import opened Wrappers

  datatype ReceiveError = StreamClosed | ProtocolError | FlowControlViolation | ReceiveOverflow

  datatype Enqueued = Accepted(rx: Receiving) | Refused(why: ReceiveError)
  // The update is 0 when no window_update is due.
  datatype Consumption = Consumption(rx: Receiving, update: nat)
  datatype Reservation = Reserved(st: Stream) | Blocked | Closed

  // The receive half: the queue, its counters, and the granted window.
  datatype Receiving = Receiving(
    flow: bool,
    queue: seq<Frame>,
    queuedFrames: int,
    queuedBytes: int,
    received: nat,
    consumed: nat,
    advertised: nat,
    lastUpdate: nat,
    queuedFIN: bool)
  {
    function Enqueue(f: Frame): Enqueued {
      if queuedFIN then Refused(ProtocolError)
      else if flow && f.FlowBytes() > 0 && (received > advertised || f.FlowBytes() > advertised - received) then
        Refused(FlowControlViolation)
      else if queuedFrames >= MAX_QUEUED_STREAM_FRAMES || |f.payload| > INITIAL_STREAM_WINDOW - queuedBytes then
        Refused(ReceiveOverflow)
      else if |queue| >= MAX_QUEUED_STREAM_FRAMES then
        Refused(ReceiveOverflow)  // the channel itself is full: everything is rolled back
      else
        Accepted(this.(received := received + f.FlowBytes(), queuedFIN := queuedFIN || f.IsFIN(),
                       queuedFrames := queuedFrames + 1, queuedBytes := queuedBytes + |f.payload|,
                       queue := queue + [f]))
    }

    // Receiving from the channel; the counters still hold the frame.
    function Take(): Receiving
      requires queue != []
    {
      this.(queue := queue[1..])
    }

    function Dequeued(f: Frame): Receiving {
      this.(queuedFrames := queuedFrames - 1, queuedBytes := queuedBytes - |f.payload|)
    }

    function Consume(bytes: nat): Consumption {
      if !flow || bytes == 0 then Consumption(this, 0)
      else
        var total := consumed + bytes;
        if total - lastUpdate >= STREAM_WINDOW_UPDATE_THRESHOLD then
          var max := total + INITIAL_STREAM_WINDOW;
          Consumption(this.(consumed := total, lastUpdate := total, advertised := max), max)
        else
          Consumption(this.(consumed := total), 0)
    }

    // The critical section of sendWindowUpdate.
    function Announce(max: nat): Receiving {
      if max > advertised then this.(advertised := max) else this
    }
  }

  datatype Stream = Stream(
    rx: Receiving,
    closed: bool,
    sent: nat,
    sendMax: nat,
    receiveFIN: bool,
    sendFIN: bool)
  {
    function Enqueue(f: Frame): Enqueued {
      if closed then Refused(StreamClosed) else rx.Enqueue(f)
    }

    function Consume(bytes: nat): Consumption {
      if closed then Consumption(rx, 0) else rx.Consume(bytes)
    }

    function UpdateSendMax(max: nat): Stream {
      if !closed && max > sendMax then this.(sendMax := max) else this
    }

    // One turn of the reserveSend loop.
    function TryReserve(bytes: nat): Reservation {
      if closed then Closed
      else if !rx.flow || bytes == 0 then Reserved(this)
      else if sent <= sendMax && bytes <= sendMax - sent then Reserved(this.(sent := sent + bytes))
      else Blocked
    }
  }

  // The v4 SYN opens both directions with the implicit initial window.
  function New(flow: bool): Stream {
    var window := if flow then INITIAL_STREAM_WINDOW else 0;
    Stream(Receiving(flow, [], 0, 0, 0, 0, window, 0, false), false, 0, window, false, false)
  }

  // ---- What every critical section keeps ----

  // The counters hold exactly the queued frames and the one in the worker's
  // hand, within both bounds.
  ghost predicate Bounded(rx: Receiving, hand: seq<Frame>) {
    && rx.queuedFrames == |rx.queue| + |hand| <= MAX_QUEUED_STREAM_FRAMES
    && rx.queuedBytes == PayloadTotal(rx.queue) + PayloadTotal(hand) <= INITIAL_STREAM_WINDOW
  }

  ghost predicate WindowOk(rx: Receiving) {
    rx.flow ==>
      && rx.lastUpdate <= rx.consumed < rx.lastUpdate + STREAM_WINDOW_UPDATE_THRESHOLD
      && rx.advertised == rx.lastUpdate + INITIAL_STREAM_WINDOW
      && rx.received <= rx.advertised
  }

  lemma EnqueueKeeps(rx: Receiving, hand: seq<Frame>, f: Frame)
    requires Bounded(rx, hand) && WindowOk(rx) && rx.Enqueue(f).Accepted?
    ensures Bounded(rx.Enqueue(f).rx, hand) && WindowOk(rx.Enqueue(f).rx)
  {
    TotalsStep(rx.queue, f);
  }

  /** Within the bounds, a frame that passes the counters always fits the channel. */
  lemma ChannelNeverFull(rx: Receiving, hand: seq<Frame>, f: Frame)
    requires Bounded(rx, hand)
    ensures rx.Enqueue(f).Accepted? <==>
              && !rx.queuedFIN
              && (rx.flow && f.FlowBytes() > 0 ==> rx.received + f.FlowBytes() <= rx.advertised)
              && |rx.queue| + |hand| < MAX_QUEUED_STREAM_FRAMES
              && PayloadTotal(rx.queue) + PayloadTotal(hand) + |f.payload| <= INITIAL_STREAM_WINDOW
  {
  }

  lemma TakeKeeps(rx: Receiving)
    requires Bounded(rx, []) && rx.queue != []
    ensures Bounded(rx.Take(), [rx.queue[0]])
  {
    assert PayloadTotal([rx.queue[0]]) == |rx.queue[0].payload|;
  }

  lemma DequeuedKeeps(rx: Receiving, f: Frame)
    requires Bounded(rx, [f])
    ensures Bounded(rx.Dequeued(f), [])
  {
    assert PayloadTotal([f]) == |f.payload|;
  }

  /** An update is due exactly when half a window was consumed since the last one,
      and it is the whole of the new advertisement, a full window past the consumption. */
  lemma ConsumeKeeps(rx: Receiving, hand: seq<Frame>, bytes: nat)
    requires Bounded(rx, hand) && WindowOk(rx)
    ensures var c := rx.Consume(bytes);
      && Bounded(c.rx, hand) && WindowOk(c.rx)
      && rx.advertised <= c.rx.advertised
      && (c.update != 0 <==>
            && rx.flow && bytes > 0
            && rx.consumed + bytes - rx.lastUpdate >= STREAM_WINDOW_UPDATE_THRESHOLD)
      && (c.update != 0 ==>
            && c.update == c.rx.advertised == c.rx.consumed + INITIAL_STREAM_WINDOW
            && c.update >= rx.advertised + STREAM_WINDOW_UPDATE_THRESHOLD)
  {
  }

  /** A closed stream takes no frame, grants no credit, and moves no window. */
  lemma ClosedIsInert(st: Stream, f: Frame, bytes: nat, max: nat)
    requires st.closed
    ensures st.Enqueue(f) == Refused(StreamClosed) && st.TryReserve(bytes) == Closed
    ensures st.UpdateSendMax(max) == st && st.Consume(bytes) == Consumption(st.rx, 0)
  {
  }

  /** On an open stream a writer's limit is the largest granted; a frame that costs nothing, or any
      frame without flow control, is never held back. */
  lemma OpenReserves(st: Stream, bytes: nat, max: nat)
    requires !st.closed
    ensures st.UpdateSendMax(max) == st.(sendMax := if max > st.sendMax then max else st.sendMax)
    ensures st.TryReserve(bytes) ==
              if !st.rx.flow || bytes == 0 then Reserved(st)
              else if st.sent + bytes <= st.sendMax then Reserved(st.(sent := st.sent + bytes))
              else Blocked
  {
  }

  /** What an update announces is never less than what was advertised, and nothing else moves. */
  lemma AnnounceRaises(rx: Receiving, max: nat)
    ensures rx.Announce(max) == rx.(advertised := if max > rx.advertised then max else rx.advertised)
  {
  }

  // ---- Waiting for credit ----

  // What may happen to a blocked writer: the peer's update, or the stream or
  // the session going away.
  datatype Wake = Raise(max: nat) | Stop | SessionDone

  datatype SendOutcome = Granted | ErrClosed | ErrSessionClosed | StillWaiting

  function ReserveOutcome(st: Stream, bytes: nat, wakes: seq<Wake>): (SendOutcome, Stream)
    decreases |wakes|
  {
    match st.TryReserve(bytes)
    case Closed => (ErrClosed, st)
    case Reserved(st') => (Granted, st')
    case Blocked =>
      if wakes == [] then (StillWaiting, st)
      else match wakes[0]
        case Raise(max) => ReserveOutcome(st.UpdateSendMax(max), bytes, wakes[1..])
        case Stop => (ErrClosed, st.(closed := true))
        case SessionDone => (ErrSessionClosed, st)
  }

  ghost predicate OnlyRaises(wakes: seq<Wake>) {
    forall i :: 0 <= i < |wakes| ==> wakes[i].Raise?
  }

  ghost function RaisedTo(limit: nat, wakes: seq<Wake>): nat
    decreases |wakes|
  {
    if wakes == [] then limit
    else RaisedTo(if wakes[0].Raise? && wakes[0].max > limit then wakes[0].max else limit, wakes[1..])
  }

  // After the first k wakes, none of them terminal, the limit covers the frame.
  ghost predicate CoveredBy(st: Stream, bytes: nat, wakes: seq<Wake>, k: nat) {
    k <= |wakes| && OnlyRaises(wakes[..k]) && st.sent + bytes <= RaisedTo(st.sendMax, wakes[..k])
  }

  // The first wake that is no update.
  function FirstEnd(wakes: seq<Wake>): Option<Wake> {
    if wakes == [] then None else if wakes[0].Raise? then FirstEnd(wakes[1..]) else Some(wakes[0])
  }

  predicate EndsAs(outcome: SendOutcome, closed: bool, end: Option<Wake>) {
    if end == None then outcome == StillWaiting && !closed
    else if end.value.Stop? then outcome == ErrClosed && closed
    else outcome == ErrSessionClosed && !closed
  }

  /** An open stream's writer gets its credit iff the updates that arrive before
      anything terminal raise the limit far enough; it is charged once, and the
      charge never passes the limit; and otherwise it fails as the first other wake says. */
  lemma {:induction false} ReserveIffRaised(st: Stream, bytes: nat, wakes: seq<Wake>)
    requires st.rx.flow && !st.closed && st.sent <= st.sendMax && bytes > 0
    ensures var (outcome, st') := ReserveOutcome(st, bytes, wakes);
      && (outcome == Granted <==> exists k: nat :: CoveredBy(st, bytes, wakes, k))
      && st'.sent == (if outcome == Granted then st.sent + bytes else st.sent) <= st'.sendMax
      && (if outcome == Granted then !st'.closed else EndsAs(outcome, st'.closed, FirstEnd(wakes)))
    decreases |wakes|
  {
    if bytes <= st.sendMax - st.sent {
      assert CoveredBy(st, bytes, wakes, 0);
    } else if wakes != [] && wakes[0].Raise? {
      var next := st.UpdateSendMax(wakes[0].max);
      ReserveIffRaised(next, bytes, wakes[1..]);
      if k: nat :| CoveredBy(next, bytes, wakes[1..], k) {
        assert wakes[..k + 1][1..] == wakes[1..][..k];
        assert CoveredBy(st, bytes, wakes, k + 1);
      }
      forall k: nat | CoveredBy(st, bytes, wakes, k)
        ensures k > 0 && CoveredBy(next, bytes, wakes[1..], k - 1)
      {
        assert wakes[..k][1..] == wakes[1..][..k - 1];
      }
    } else {
      assert forall k: nat :: 0 < k <= |wakes| && OnlyRaises(wakes[..k]) ==> wakes[..k][0] == wakes[0];
    }
  }

  // ---- The stream as it is updated in place ----

  class StreamState {
    const flow: bool
    var closed: bool
    var queue: seq<Frame>
    var queuedFrames: int
    var queuedBytes: int
    var received: nat
    var consumed: nat
    var advertised: nat
    var lastUpdate: nat
    var sent: nat
    var sendMax: nat
    var receiveFIN: bool
    var receiveQueuedFIN: bool
    var sendFIN: bool
    // The frame the worker has taken from the channel and not yet uncounted.
    ghost var hand: seq<Frame>

    ghost function Snapshot(): Stream
      reads this
    {
      Stream(Receiving(flow, queue, queuedFrames, queuedBytes, received, consumed, advertised, lastUpdate,
                       receiveQueuedFIN),
             closed, sent, sendMax, receiveFIN, sendFIN)
    }

    ghost predicate Valid()
      reads this
    {
      Bounded(Snapshot().rx, hand) && WindowOk(Snapshot().rx) && |hand| <= 1 && (flow ==> sent <= sendMax)
    }

    constructor (flow: bool)
      ensures Valid() && Snapshot() == New(flow) && hand == []
    {
      this.flow := flow;
      closed, queue, queuedFrames, queuedBytes := false, [], 0, 0;
      received, consumed, lastUpdate, sent := 0, 0, 0, 0;
      advertised := if flow then INITIAL_STREAM_WINDOW else 0;
      sendMax := if flow then INITIAL_STREAM_WINDOW else 0;
      receiveFIN, receiveQueuedFIN, sendFIN := false, false, false;
      hand := [];
    }

    method Enqueue(frame: Frame) returns (ok: bool, why: ReceiveError)
      requires Valid()
      modifies this
      ensures Valid() && hand == old(hand)
      ensures match old(Snapshot()).Enqueue(frame)
        case Accepted(rx) => ok && Snapshot() == old(Snapshot()).(rx := rx)
        case Refused(w) => !ok && why == w && Snapshot() == old(Snapshot())
    {
      var bytes, flowBytes := |frame.payload|, frame.FlowBytes();
      if closed { return false, StreamClosed; }
      if receiveQueuedFIN { return false, ProtocolError; }
      if flow && flowBytes > 0 {
        if received > advertised || flowBytes > advertised - received {
          return false, FlowControlViolation;
        }
      }
      if queuedFrames >= MAX_QUEUED_STREAM_FRAMES || bytes > INITIAL_STREAM_WINDOW - queuedBytes {
        return false, ReceiveOverflow;
      }
      assert |queue| < MAX_QUEUED_STREAM_FRAMES;  // so the source's fallback branch is dead
      ghost var before := Snapshot().rx;
      received := received + flowBytes;
      if frame.IsFIN() { receiveQueuedFIN := true; }
      queuedFrames := queuedFrames + 1;
      queuedBytes := queuedBytes + bytes;
      queue := queue + [frame];
      assert Snapshot().rx == before.Enqueue(frame).rx;
      EnqueueKeeps(before, hand, frame);
      return true, StreamClosed;
    }

    method TakeFrame() returns (frame: Frame)
      requires Valid() && queue != [] && hand == []
      modifies this
      ensures Valid() && hand == [frame] && frame == old(queue)[0]
      ensures Snapshot() == old(Snapshot()).(rx := old(Snapshot()).rx.Take())
    {
      TakeKeeps(Snapshot().rx);
      frame := queue[0];
      queue := queue[1..];
      hand := [frame];
    }

    method Dequeued(frame: Frame)
      requires Valid() && hand == [frame]
      modifies this
      ensures Valid() && hand == []
      ensures Snapshot() == old(Snapshot()).(rx := old(Snapshot()).rx.Dequeued(frame))
    {
      DequeuedKeeps(Snapshot().rx, frame);
      queuedFrames := queuedFrames - 1;
      queuedBytes := queuedBytes - |frame.payload|;
      hand := [];
    }

    method StopNow() returns (first: bool)
      requires Valid()
      modifies this
      ensures Valid() && hand == old(hand)
      ensures first == !old(closed) && Snapshot() == old(Snapshot()).(closed := true)
    {
      if closed { return false; }
      closed := true;
      return true;
    }

    method UpdateSendMax(max: nat)
      requires Valid()
      modifies this
      ensures Valid() && hand == old(hand)
      ensures Snapshot() == old(Snapshot()).UpdateSendMax(max)
    {
      if !closed && max > sendMax { sendMax := max; }
    }

    // The wait loop. `wakes` is what other threads do to this stream, in
    // order, each while the writer is blocked.
    method ReserveSend(bytes: nat, wakes: seq<Wake>) returns (outcome: SendOutcome)
      requires Valid()
      modifies this
      ensures Valid() && hand == old(hand)
      ensures (outcome, Snapshot()) == ReserveOutcome(old(Snapshot()), bytes, wakes)
    {
      if !flow || bytes == 0 {
        return if closed then ErrClosed else Granted;
      }
      var next := 0;
      while true
        invariant 0 <= next <= |wakes| && Valid() && hand == old(hand)
        invariant ReserveOutcome(Snapshot(), bytes, wakes[next..])
               == ReserveOutcome(old(Snapshot()), bytes, wakes)
        decreases |wakes| - next
      {
        if closed { return ErrClosed; }
        if sent <= sendMax && bytes <= sendMax - sent {
          sent := sent + bytes;
          return Granted;
        }
        if next == |wakes| { return StillWaiting; }
        assert wakes[next..][1..] == wakes[next + 1..];
        match wakes[next] {
          case Raise(max) => UpdateSendMax(max);
          case Stop => closed := true; return ErrClosed;
          case SessionDone => return ErrSessionClosed;
        }
        next := next + 1;
      }
    }

    method Consume(bytes: nat) returns (update: nat)
      requires Valid()
      modifies this
      ensures Valid() && hand == old(hand)
      ensures Consumption(Snapshot().rx, update) == old(Snapshot()).Consume(bytes)
      ensures Snapshot() == old(Snapshot()).(rx := Snapshot().rx)
    {
      update := 0;
      if !flow || bytes == 0 { return; }
      if !closed {
        consumed := consumed + bytes;
        if consumed - lastUpdate >= STREAM_WINDOW_UPDATE_THRESHOLD {
          lastUpdate := consumed;
          advertised := consumed + INITIAL_STREAM_WINDOW;
          update := advertised;
        }
      }
    }

    // The critical section of sendWindowUpdate.
    method Announce(max: nat) returns (open: bool)
      requires Valid() && (flow && !closed ==> max <= advertised)
      modifies this
      ensures Valid() && hand == old(hand)
      ensures open == !closed
      ensures Snapshot() == old(Snapshot()).(rx := if open then old(Snapshot()).rx.Announce(max)
          else old(Snapshot()).rx)
    {
      if closed { return false; }
      if max > advertised { advertised := max; }
      return true;
    }

    method MarkReceiveClosed() returns (complete: bool)
      requires Valid()
      modifies this
      ensures Valid() && hand == old(hand)
      ensures complete == old(sendFIN)
      ensures Snapshot() == old(Snapshot()).(receiveFIN := true)
    {
      receiveFIN := true;
      complete := sendFIN;
    }

    method MarkSendClosed() returns (complete: bool)
      requires Valid()
      modifies this
      ensures Valid() && hand == old(hand)
      ensures complete == old(receiveFIN)
      ensures Snapshot() == old(Snapshot()).(sendFIN := true)
    {
      sendFIN := true;
      complete := receiveFIN;
    }
  }
}

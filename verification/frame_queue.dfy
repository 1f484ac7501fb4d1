/**
 The frame hand-over queue: frames that arrive before a peer's session exists
 are held, and delivered in order once it is published. One step per critical
 section; one thread enqueues, and Publish starts one drain.
 */
module FrameQueue {
  import opened Protocol

  type Bytes = seq<Byte>

  function TotalBytes(s: seq<Bytes>): nat {
    if s == [] then 0 else |s[0]| + TotalBytes(s[1..])
  }

  lemma {:induction false} TotalBytesGrows(s: seq<Bytes>, data: Bytes)
    ensures TotalBytes(s + [data]) == TotalBytes(s) + |data|
  {
    if s == [] {
      assert [] + [data] == [data] && [data][1..] == [];
    } else {
      assert (s + [data])[1..] == s[1..] + [data];
      TotalBytesGrows(s[1..], data);
    }
  }

  datatype Routing = Ignored | Overflowed | Queued(q: Q) | Direct

  datatype Q = Q(
    closed: bool, published: bool, dispatching: bool, pending: seq<Bytes>, pendingBytes: nat, maxBytes: nat)
  {
    // The critical section of Enqueue. Overflowed closes the connection.
    function Route(data: Bytes): Routing {
      if closed then Ignored
      else if published && !dispatching then Direct
      else if pendingBytes + |data| > maxBytes then Overflowed
      else Queued(this.(pending := pending + [data], pendingBytes := pendingBytes + |data|))
    }

    function TakePending(): Q { this.(pending := [], pendingBytes := 0) }

    function Publish(): Q { TakePending().(published := true, dispatching := true) }

    function Close(): Q { TakePending().(closed := true) }
  }

  const DEFAULT_MAX_PENDING_BYTES := 0x4_0000

  function NewQueue(maxBytes: int): Q {
    Q(false, false, false, [], 0, if maxBytes <= 0 then DEFAULT_MAX_PENDING_BYTES else maxBytes)
  }

  ghost predicate Bounded(q: Q) { q.pendingBytes == TotalBytes(q.pending) <= q.maxBytes }

  lemma RouteKeepsBound(q: Q, data: Bytes)
    requires Bounded(q) && q.Route(data).Queued?
    ensures Bounded(q.Route(data).q)
  {
    TotalBytesGrows(q.pending, data);
  }

  // ---- The queue as it is updated in place ----

  class Queue {
    var closed: bool
    var published: bool
    var dispatching: bool
    var pending: seq<Bytes>
    var pendingBytes: nat
    const maxBytes: nat

    ghost function Snapshot(): Q
      reads this
    {
      Q(closed, published, dispatching, pending, pendingBytes, maxBytes)
    }

    ghost predicate Valid()
      reads this
    {
      Bounded(Snapshot())
    }

    constructor (max: int)
      ensures Valid() && Snapshot() == NewQueue(max)
    {
      closed, published, dispatching, pending, pendingBytes := false, false, false, [], 0;
      maxBytes := if max <= 0 then DEFAULT_MAX_PENDING_BYTES else max;
    }

    method Enqueue(data: Bytes) returns (deliver: bool, overflowed: bool)
      requires Valid()
      modifies this
      ensures Valid()
      ensures deliver == old(Snapshot()).Route(data).Direct? && overflowed == old(Snapshot()).Route(data).Overflowed?
      ensures Snapshot() ==
              if old(Snapshot()).Route(data).Queued? then old(Snapshot()).Route(data).q else old(Snapshot())
    {
      deliver, overflowed := false, false;
      if closed { return; }
      if !published || dispatching {
        if pendingBytes + |data| > maxBytes { return false, true; }
        RouteKeepsBound(Snapshot(), data);
        pending := pending + [data];
        pendingBytes := pendingBytes + |data|;
        return;
      }
      return true, false;
    }

    method Publish() returns (ok: bool, batch: seq<Bytes>)
      requires Valid()
      modifies this
      ensures Valid() && ok == !old(closed)
      ensures Snapshot() == if ok then old(Snapshot()).Publish() else old(Snapshot())
      ensures batch == if ok then old(pending) else []
    {
      if closed { return false, []; }
      published, dispatching := true, true;
      batch := pending;
      pending, pendingBytes := [], 0;
      return true, batch;
    }

    method Close() returns (first: bool)
      requires Valid()
      modifies this
      ensures Valid() && first == !old(closed)
      ensures Snapshot() == if first then old(Snapshot()).Close() else old(Snapshot())
    {
      if closed { return false; }
      closed := true;
      pending, pendingBytes := [], 0;
      return true;
    }

    // drain with nothing else running: the batch and then the whole backlog,
    // in order, and routing handed back.
    method Drain(first: seq<Bytes>) returns (delivered: seq<Bytes>)
      requires Valid() && dispatching
      modifies this
      ensures Valid() && delivered == if closed then [] else first + old(pending)
      ensures Snapshot() == (if closed then old(Snapshot()) else old(Snapshot()).TakePending()).(dispatching := false)
    {
      var batch := first;
      delivered := [];
      var more := !closed;
      while more
        invariant Valid() && dispatching && closed == old(closed) && (closed ==> !more)
        invariant Snapshot() == old(Snapshot()) || (!closed && Snapshot() == old(Snapshot()).TakePending())
        invariant !closed ==> delivered + batch + pending == first + old(pending)
        invariant closed ==> delivered == [] && Snapshot() == old(Snapshot())
        invariant !more && !closed ==> batch == [] && pending == []
        decreases more, |pending| + |batch|, |pending|
      {
        ghost var before := delivered;
        for i := 0 to |batch|
          invariant delivered == before + batch[..i]
        {
          delivered := delivered + [batch[i]];
        }
        batch := pending;
        pending, pendingBytes := [], 0;
        more := batch != [];
      }
      dispatching := false;
    }
  }

  // ---- Every interleaving ----

  // The drain goroutine between two critical sections.
  datatype Drainer =
    | NotStarted
    | Delivering(batch: seq<Bytes>)
    | Looked(batch: seq<Bytes>)     // saw the queue open; the first frame is due
    | Leaving(rest: seq<Bytes>)     // decided to return; dispatching is still set
    | Finished(rest: seq<Bytes>)

  // Frames taken in, frames delivered, how many of them by the drain, and the
  // backlog Close threw away.
  datatype History = History(accepted: seq<Bytes>, delivered: seq<Bytes>, byDrain: nat, dropped: seq<Bytes>)

  // direct: the frame the enqueuing thread is about to deliver itself.
  datatype State = State(q: Q, drain: Drainer, direct: seq<Bytes>, hist: History)

  function Start(maxBytes: int): State {
    State(NewQueue(maxBytes), NotStarted, [], History([], [], 0, []))
  }

  // Check is drain's test for an empty backlog. CheckAndHandBack is the same
  // test clearing dispatching in the same critical section.
  datatype Step =
    | Arrive(data: Bytes) | DeliverDirect | Publish | Look | DeliverNext | Check | CheckAndHandBack | Leave | Close

  datatype Next = Disabled | To(s: State)

  function Undelivered(d: Drainer): seq<Bytes> {
    match d
    case NotStarted => []
    case Delivering(batch) => batch
    case Looked(batch) => batch
    case Leaving(rest) => rest
    case Finished(rest) => rest
  }

  function ArriveAt(s: State, data: Bytes): State {
    match s.q.Route(data)
    case Ignored => s
    case Overflowed => s
    case Queued(q) => s.(q := q, hist := s.hist.(accepted := s.hist.accepted + [data]))
    case Direct => s.(direct := [data], hist := s.hist.(accepted := s.hist.accepted + [data]))
  }

  function CheckBacklog(s: State, handBack: bool): State {
    if s.q.closed || s.q.pending == [] then
      if handBack then s.(q := s.q.(dispatching := false), drain := Finished([]))
      else s.(drain := Leaving([]))
    else s.(q := s.q.TakePending(), drain := Delivering(s.q.pending))
  }

  function DrainStep(s: State, m: Step): Next {
    match m
    case Look =>
      if !s.drain.Delivering? || s.drain.batch == [] then Disabled
      else To(s.(drain := if s.q.closed then Leaving(s.drain.batch) else Looked(s.drain.batch)))
    case DeliverNext =>
      if !s.drain.Looked? || s.drain.batch == [] then Disabled
      else To(s.(drain := Delivering(s.drain.batch[1..]),
                 hist := s.hist.(delivered := s.hist.delivered + [s.drain.batch[0]], byDrain := s.hist.byDrain + 1)))
    case Leave =>
      if !s.drain.Leaving? then Disabled
      else To(s.(q := s.q.(dispatching := false), drain := Finished(s.drain.rest)))
    case _ =>
      if !s.drain.Delivering? || s.drain.batch != [] then Disabled else To(CheckBacklog(s, m.CheckAndHandBack?))
  }

  function NextOf(s: State, m: Step): Next {
    match m
    case Arrive(data) => if s.direct != [] then Disabled else To(ArriveAt(s, data))
    case DeliverDirect =>
      if s.direct == [] then Disabled
      else To(s.(direct := s.direct[1..], hist := s.hist.(delivered := s.hist.delivered + [s.direct[0]])))
    case Publish =>
      if !s.drain.NotStarted? || s.q.closed then Disabled
      else To(s.(q := s.q.Publish(), drain := Delivering(s.q.pending)))
    case Close =>
      if s.q.closed then To(s) else To(s.(q := s.q.Close(), hist := s.hist.(dropped := s.q.pending)))
    case _ => DrainStep(s, m)
  }

  function Run(s: State, steps: seq<Step>): Next
    decreases |steps|
  {
    if steps == [] then To(s)
    else match NextOf(s, steps[0])
      case Disabled => Disabled
      case To(s') => Run(s', steps[1..])
  }

  // ---- What every step keeps ----

  ghost predicate Routes(q: Q, d: Drainer) {
    && (q.published <==> !d.NotStarted?)
    && (q.dispatching <==> d.Delivering? || d.Looked? || d.Leaving?)
    && (d.Looked? ==> d.batch != [])
    && (d.Leaving? || d.Finished? ==> d.rest == [] || q.closed)
  }

  // Frames still held back: the backlog, or what Close made of it.
  function Held(s: State): seq<Bytes> { if s.q.closed then s.hist.dropped else s.q.pending }

  // accepted = delivered by the drain, then its batch, then the held frames,
  // then those delivered directly, then the one about to be.
  ghost predicate Accounts(accepted: seq<Bytes>, delivered: seq<Bytes>, byDrain: nat, missing: seq<Bytes>,
      direct: seq<Bytes>) {
    && byDrain <= |delivered| && |direct| <= 1
    && accepted == delivered[..byDrain] + missing + (delivered[byDrain..] + direct)
  }

  ghost predicate Inv(s: State) {
    && Bounded(s.q) && Routes(s.q, s.drain)
    && (s.q.closed ==> s.q.pending == []) && (!s.q.closed ==> s.hist.dropped == [])
    && (!s.drain.Finished? ==> s.direct == [] && s.hist.byDrain == |s.hist.delivered|)
    && Accounts(s.hist.accepted, s.hist.delivered, s.hist.byDrain, Undelivered(s.drain) + Held(s), s.direct)
  }

  lemma QueuedAccounts(s: State, data: Bytes)
    requires Inv(s) && !s.drain.Finished?
    ensures Accounts(s.hist.accepted + [data], s.hist.delivered, s.hist.byDrain,
                     Undelivered(s.drain) + (Held(s) + [data]), s.direct)
  {
    var h := s.hist;
    assert h.delivered[h.byDrain..] + s.direct == [];
  }

  lemma DirectAccounts(s: State, data: Bytes)
    requires Inv(s) && s.direct == []
    ensures Accounts(s.hist.accepted + [data], s.hist.delivered, s.hist.byDrain, Undelivered(s.drain) + Held(s), [data])
  {
  }

  lemma DrainDelivers(h: History, batch: seq<Bytes>, held: seq<Bytes>)
    requires batch != [] && h.byDrain == |h.delivered|
    requires Accounts(h.accepted, h.delivered, h.byDrain, batch + held, [])
    ensures Accounts(h.accepted, h.delivered + [batch[0]], h.byDrain + 1, batch[1..] + held, [])
  {
    var more := h.delivered + [batch[0]];
    assert more[..h.byDrain + 1] == more;
    assert h.delivered[..h.byDrain] == h.delivered;
    assert batch + held == [batch[0]] + (batch[1..] + held);
  }

  lemma DirectDelivers(h: History, missing: seq<Bytes>, direct: seq<Bytes>)
    requires direct != [] && Accounts(h.accepted, h.delivered, h.byDrain, missing, direct)
    ensures Accounts(h.accepted, h.delivered + [direct[0]], h.byDrain, missing, direct[1..])
  {
    var more := h.delivered + [direct[0]];
    assert more[..h.byDrain] == h.delivered[..h.byDrain];
    assert more[h.byDrain..] + direct[1..] == h.delivered[h.byDrain..] + direct;
  }

  lemma ArriveKeeps(s: State, data: Bytes)
    requires Inv(s) && s.direct == []
    ensures Inv(ArriveAt(s, data))
  {
    match s.q.Route(data)
    case Queued(q) =>
      RouteKeepsBound(s.q, data);
      QueuedAccounts(s, data);
    case Direct => DirectAccounts(s, data);
    case _ =>
  }

  lemma CheckKeeps(s: State, handBack: bool)
    requires Inv(s) && s.drain == Delivering([])
    ensures Inv(CheckBacklog(s, handBack))
  {
    assert s.q.pending + [] == s.q.pending == [] + s.q.pending;
  }

  lemma DrainKeeps(s: State, m: Step)
    requires Inv(s) && DrainStep(s, m).To?
    ensures Inv(DrainStep(s, m).s)
  {
    match m
    case DeliverNext => DrainDelivers(s.hist, s.drain.batch, Held(s));
    case Look =>
    case Leave =>
    case _ => CheckKeeps(s, m.CheckAndHandBack?);
  }

  lemma StepKeeps(s: State, m: Step)
    requires Inv(s) && NextOf(s, m).To?
    ensures Inv(NextOf(s, m).s)
  {
    match m
    case Arrive(data) => ArriveKeeps(s, data);
    case DeliverDirect => DirectDelivers(s.hist, Undelivered(s.drain) + Held(s), s.direct);
    case Publish => assert s.q.pending + [] == s.q.pending == [] + s.q.pending;
    case Close =>
    case _ => DrainKeeps(s, m);
  }

  lemma StartInv(maxBytes: int)
    ensures Inv(Start(maxBytes))
  {
  }

  lemma {:induction false} RunKeeps(s: State, steps: seq<Step>)
    requires Inv(s) && Run(s, steps).To?
    ensures Inv(Run(s, steps).s)
    decreases |steps|
  {
    if steps != [] {
      StepKeeps(s, steps[0]);
      RunKeeps(NextOf(s, steps[0]).s, steps[1..]);
    }
  }

  // Where the i-th delivered frame stands among the accepted ones.
  function Position(s: State, i: nat): nat {
    if i < s.hist.byDrain then i else i + |Undelivered(s.drain)| + |Held(s)|
  }

  /** In every interleaving the frames delivered are a repeat-free, in-order part of those
      accepted, and what is missing from it is one stretch: the drain's batch and the held frames. */
  lemma DeliveredInOrder(maxBytes: int, steps: seq<Step>)
    requires Run(Start(maxBytes), steps).To?
    ensures var t := Run(Start(maxBytes), steps).s;
      && t.q.pendingBytes == TotalBytes(t.q.pending) <= t.q.maxBytes
      && |t.hist.accepted| == |t.hist.delivered| + |Undelivered(t.drain)| + |Held(t)| + |t.direct|
      && (forall i :: 0 <= i < |t.hist.delivered| ==>
            Position(t, i) < |t.hist.accepted| && t.hist.delivered[i] == t.hist.accepted[Position(t, i)])
      && (forall i, j :: 0 <= i < j < |t.hist.delivered| ==> Position(t, i) < Position(t, j))
  {
    StartInv(maxBytes);
    RunKeeps(Start(maxBytes), steps);
    var t := Run(Start(maxBytes), steps).s;
    var h, missing := t.hist, Undelivered(t.drain) + Held(t);
    forall i | 0 <= i < |h.delivered|
      ensures Position(t, i) < |h.accepted| && h.delivered[i] == h.accepted[Position(t, i)]
    {
      if i >= h.byDrain {
        assert h.delivered[h.byDrain..][i - h.byDrain] == h.delivered[i];
      }
    }
  }

  // ---- What is taken in ----

  // The backlog has no room for a frame that would have to wait.
  predicate Turned(s: State, data: Bytes) {
    s.q.closed || (!s.drain.Finished? && TotalBytes(s.q.pending) + |data| > s.q.maxBytes)
  }

  /** A frame is taken in exactly unless the queue is closed, or it would have to wait and does not
      fit beside the backlog; it then waits until the drain has finished, and goes straight on after. */
  lemma TakenInIff(s: State, data: Bytes)
    requires Inv(s) && s.direct == []
    ensures var t := ArriveAt(s, data);
      if Turned(s, data) then t == s
      else
        && t.hist == s.hist.(accepted := s.hist.accepted + [data]) && t.drain == s.drain
        && t.q.pending == s.q.pending + (if s.drain.Finished? then [] else [data])
        && t.direct == (if s.drain.Finished? then [data] else [])
        && t.q.maxBytes == s.q.maxBytes && !t.q.closed
  {
  }

  function Arrived(steps: seq<Step>): seq<Bytes> {
    if steps == [] then [] else (if steps[0].Arrive? then [steps[0].data] else []) + Arrived(steps[1..])
  }

  predicate NeverCloses(steps: seq<Step>) {
    forall i :: 0 <= i < |steps| ==> steps[i] != Close
  }

  lemma OthersTakeNothing(s: State, m: Step)
    requires NextOf(s, m).To? && !m.Arrive? && m != Close
    ensures var t := NextOf(s, m).s;
      && t.hist.accepted == s.hist.accepted && t.q.maxBytes == s.q.maxBytes && t.q.closed == s.q.closed
      && (t.q.pending == s.q.pending || t.q.pending == [])
  {
  }

  lemma StepTakesIn(s: State, m: Step)
    requires Inv(s) && !s.q.closed && m != Close && NextOf(s, m).To?
    requires TotalBytes(s.q.pending) + TotalBytes(Arrived([m])) <= s.q.maxBytes
    ensures var t := NextOf(s, m).s;
      && !t.q.closed && t.q.maxBytes == s.q.maxBytes && t.hist.accepted == s.hist.accepted + Arrived([m])
      && TotalBytes(t.q.pending) <= TotalBytes(s.q.pending) + TotalBytes(Arrived([m]))
  {
    if m.Arrive? {
      TakenInIff(s, m.data);
      TotalBytesGrows(s.q.pending, m.data);
      assert TotalBytes([m.data]) == |m.data|;
    } else {
      OthersTakeNothing(s, m);
    }
  }

  lemma BytesFirst(data: Bytes, rest: seq<Bytes>)
    ensures TotalBytes([data] + rest) == TotalBytes([data]) + TotalBytes(rest) && TotalBytes([data]) == |data|
  {
    assert ([data] + rest)[1..] == rest && [data][1..] == [];
  }

  lemma ArrivedOne(m: Step)
    ensures Arrived([m]) == if m.Arrive? then [m.data] else []
  {
    assert [m][1..] == [];
  }

  lemma ArrivedSplit(steps: seq<Step>)
    requires steps != []
    ensures Arrived(steps) == Arrived([steps[0]]) + Arrived(steps[1..])
    ensures TotalBytes(Arrived(steps)) == TotalBytes(Arrived([steps[0]])) + TotalBytes(Arrived(steps[1..]))
  {
    ArrivedOne(steps[0]);
    if steps[0].Arrive? {
      BytesFirst(steps[0].data, Arrived(steps[1..]));
    } else {
      assert [] + Arrived(steps[1..]) == Arrived(steps[1..]);
    }
  }

  lemma Chained(from: seq<Bytes>, first: seq<Bytes>, mid: seq<Bytes>, rest: seq<Bytes>, end: seq<Bytes>)
    requires mid == from + first && end == mid + rest
    ensures end == from + (first + rest)
  {
  }

  lemma {:induction false} RunTakesIn(s: State, steps: seq<Step>)
    requires Inv(s) && !s.q.closed && NeverCloses(steps) && Run(s, steps).To?
    requires TotalBytes(s.q.pending) + TotalBytes(Arrived(steps)) <= s.q.maxBytes
    ensures Run(s, steps).s.hist.accepted == s.hist.accepted + Arrived(steps) && !Run(s, steps).s.q.closed
    decreases |steps|
  {
    if steps != [] {
      var next := NextOf(s, steps[0]).s;
      ArrivedSplit(steps);
      StepKeeps(s, steps[0]);
      StepTakesIn(s, steps[0]);
      RunTakesIn(next, steps[1..]);
      Chained(s.hist.accepted, Arrived([steps[0]]), next.hist.accepted, Arrived(steps[1..]),
              Run(s, steps).s.hist.accepted);
    }
  }

  // The bound a queue is made with.
  function Cap(maxBytes: int): nat { if maxBytes > 0 then maxBytes else 262144 }

  /** Until Close, as long as all that arrives fits the bound together, every frame is taken in. */
  lemma AllTakenIn(maxBytes: int, steps: seq<Step>)
    requires NeverCloses(steps) && Run(Start(maxBytes), steps).To? && TotalBytes(Arrived(steps)) <= Cap(maxBytes)
    ensures Run(Start(maxBytes), steps).s.hist.accepted == Arrived(steps)
  {
    StartInv(maxBytes);
    RunTakesIn(Start(maxBytes), steps);
  }

  // ---- What the drain can do ----

  // The drain's next move when nothing else moves.
  function Onward(s: State): Step {
    if s.drain.Looked? then DeliverNext
    else if s.drain.Delivering? && s.drain.batch != [] then Look
    else CheckAndHandBack
  }

  ghost predicate Draining(s: State) { Inv(s) && !s.q.closed && (s.drain.Delivering? || s.drain.Looked?) }

  function Backlog(s: State): seq<Bytes> { Undelivered(s.drain) + s.q.pending }

  // Nearer the end of the drain, or there.
  predicate Nearer(s: State, t: State) {
    if t.drain.Delivering? || t.drain.Looked? then
      |s.q.pending| > |t.q.pending| || (s.q.pending == t.q.pending
        && (|Undelivered(t.drain)| < |Undelivered(s.drain)|
            || (Undelivered(t.drain) == Undelivered(s.drain) && s.drain.Delivering? && t.drain.Looked?)))
    else t.drain == Finished([]) && t.q.pending == [] && !t.q.dispatching
  }

  lemma OneDelivered(delivered: seq<Bytes>, batch: seq<Bytes>, pending: seq<Bytes>)
    requires batch != []
    ensures delivered + (batch + pending) == (delivered + [batch[0]]) + (batch[1..] + pending)
  {
    assert batch == [batch[0]] + batch[1..];
  }

  lemma CheckMovesOn(s: State)
    requires !s.q.closed && s.drain == Delivering([])
    ensures var t := CheckBacklog(s, true);
      Nearer(s, t) && Backlog(t) == Backlog(s) && t.hist == s.hist && !t.q.closed
  {
    assert [] + s.q.pending == s.q.pending == s.q.pending + [];
  }

  lemma DrainGoesOn(s: State)
    requires Draining(s)
    ensures var next := NextOf(s, Onward(s));
      && next.To? && Inv(next.s) && !next.s.q.closed && Nearer(s, next.s)
      && next.s.hist.delivered + Backlog(next.s) == s.hist.delivered + Backlog(s)
  {
    StepKeeps(s, Onward(s));
    if s.drain.Looked? {
      OneDelivered(s.hist.delivered, s.drain.batch, s.q.pending);
    } else if s.drain.batch == [] {
      CheckMovesOn(s);
    }
  }

  lemma RunOn(s: State, m: Step, rest: seq<Step>)
    requires NextOf(s, m).To?
    ensures Run(s, [m] + rest) == Run(NextOf(s, m).s, rest)
  {
    assert ([m] + rest)[1..] == rest;
  }

  /** Left to itself on an open queue, the drain delivers its batch and the whole backlog, in order,
      and hands routing back. */
  lemma {:induction false} DrainCanFinish(s: State) returns (steps: seq<Step>)
    requires Draining(s)
    ensures Run(s, steps).To?
    ensures var t := Run(s, steps).s;
      && t.drain == Finished([]) && t.q.pending == [] && !t.q.closed && !t.q.dispatching
      && t.hist.delivered == s.hist.delivered + Backlog(s)
    decreases |s.q.pending|, |Undelivered(s.drain)|, s.drain.Delivering?
  {
    DrainGoesOn(s);
    var m := Onward(s);
    var next := NextOf(s, m).s;
    if Draining(next) {
      var rest := DrainCanFinish(next);
      RunOn(s, m, rest);
      steps := [m] + rest;
    } else {
      RunOn(s, m, []);
      steps := [m] + [];
      assert Backlog(next) == [] && next.hist.delivered + [] == next.hist.delivered;
    }
  }

  // ---- After Close ----

  // What may still be delivered once the queue is closed: the frame the drain has looked at, and the
  // one the enqueuing thread has in its hands.
  function StillDue(s: State): nat { (if s.drain.Looked? then 1 else 0) + |s.direct| }

  lemma ClosedStep(s: State, m: Step)
    requires s.q.closed && NextOf(s, m).To?
    ensures var t := NextOf(s, m).s;
      && t.q.closed && t.hist.accepted == s.hist.accepted && t.hist.dropped == s.hist.dropped
      && |t.hist.delivered| + StillDue(t) <= |s.hist.delivered| + StillDue(s)
  {
  }

  /** After Close nothing more is taken in, and at most the two frames already on their way are
      delivered: the rest of the backlog is not. */
  lemma {:induction false} CloseStopsDelivery(s: State, steps: seq<Step>)
    requires s.q.closed && Run(s, steps).To?
    ensures var t := Run(s, steps).s;
      && t.q.closed && t.hist.accepted == s.hist.accepted && t.hist.dropped == s.hist.dropped
      && |t.hist.delivered| <= |s.hist.delivered| + StillDue(s)
      && |t.hist.delivered| + StillDue(t) <= |s.hist.delivered| + StillDue(s)
    decreases |steps|
  {
    if steps != [] {
      ClosedStep(s, steps[0]);
      CloseStopsDelivery(NextOf(s, steps[0]).s, steps[1..]);
    }
  }

  // ---- Handing back in one critical section ----

  predicate HandsBackAtOnce(steps: seq<Step>) {
    forall i :: 0 <= i < |steps| ==> !steps[i].Check?
  }

  ghost predicate NothingOvertaken(s: State) {
    && ((s.drain.Leaving? || s.drain.Finished?) && !s.q.closed ==> s.drain.Finished? && s.q.pending == [])
    && (Undelivered(s.drain) + Held(s) == [] || (s.hist.byDrain == |s.hist.delivered| && s.direct == []))
  }

  lemma AtOnceKeeps(s: State, m: Step)
    requires Inv(s) && NothingOvertaken(s) && NextOf(s, m).To? && !m.Check?
    ensures NothingOvertaken(NextOf(s, m).s)
  {
    if m.CheckAndHandBack? {
      assert s.drain == Delivering([]);
    }
  }

  lemma {:induction false} AtOnceRun(s: State, steps: seq<Step>)
    requires Inv(s) && NothingOvertaken(s) && HandsBackAtOnce(steps) && Run(s, steps).To?
    ensures NothingOvertaken(Run(s, steps).s)
    decreases |steps|
  {
    if steps != [] {
      StepKeeps(s, steps[0]);
      AtOnceKeeps(s, steps[0]);
      AtOnceRun(NextOf(s, steps[0]).s, steps[1..]);
    }
  }

  lemma WholeAccount(h: History, batch: seq<Bytes>, held: seq<Bytes>, direct: seq<Bytes>)
    requires Accounts(h.accepted, h.delivered, h.byDrain, batch + held, direct)
    requires batch + held == [] || (h.byDrain == |h.delivered| && direct == [])
    ensures h.delivered <= h.accepted && h.accepted == h.delivered + batch + held + direct
  {
    assert h.delivered == h.delivered[..h.byDrain] + h.delivered[h.byDrain..];
    if batch + held == [] {
      assert |batch| == 0 && |held| == 0;
    }
  }

  /** With the empty check and the clearing of dispatching as one step, the frames accepted
      are those delivered, then the drain's batch, then the backlog (or the one direct frame),
      in arrival order, until Close; and delivery never skips a frame, even after it. */
  lemma NoFrameOvertakes(maxBytes: int, steps: seq<Step>)
    requires HandsBackAtOnce(steps) && Run(Start(maxBytes), steps).To?
    ensures var t := Run(Start(maxBytes), steps).s;
      && t.hist.delivered <= t.hist.accepted
      && (!t.q.closed ==> t.hist.accepted == t.hist.delivered + Undelivered(t.drain) + t.q.pending + t.direct)
      && (!t.q.closed && t.drain.Finished? && t.direct == [] ==> t.hist.accepted == t.hist.delivered)
  {
    StartInv(maxBytes);
    RunKeeps(Start(maxBytes), steps);
    AtOnceRun(Start(maxBytes), steps);
    var t := Run(Start(maxBytes), steps).s;
    WholeAccount(t.hist, Undelivered(t.drain), Held(t), t.direct);
  }

  /** So every frame that arrives before Close is delivered, in order, once the drain has finished, as
      long as all of them fit the bound together. */
  lemma EveryArrivalDelivered(maxBytes: int, steps: seq<Step>)
    requires HandsBackAtOnce(steps) && NeverCloses(steps) && Run(Start(maxBytes), steps).To?
    requires TotalBytes(Arrived(steps)) <= Cap(maxBytes)
    ensures var t := Run(Start(maxBytes), steps).s;
      t.drain.Finished? && t.direct == [] ==> t.hist.delivered == Arrived(steps)
  {
    NoFrameOvertakes(maxBytes, steps);
    AllTakenIn(maxBytes, steps);
    StartInv(maxBytes);
    RunTakesIn(Start(maxBytes), steps);
  }

  // ---- Handing back in two critical sections ----

  // A frame was queued between the drain's last look at the backlog and its clearing of dispatching.
  predicate QueuedInGap(s: State, steps: seq<Step>)
    decreases |steps|
  {
    steps != [] && NextOf(s, steps[0]).To?
    && ((steps[0].Arrive? && s.drain.Leaving? && s.q.Route(steps[0].data).Queued?)
        || QueuedInGap(NextOf(s, steps[0]).s, steps[1..]))
  }

  predicate Stranded(s: State) { (s.drain.Leaving? || s.drain.Finished?) && s.q.pending != [] }

  lemma {:induction false} StaysClosed(s: State, steps: seq<Step>)
    requires s.q.closed && Run(s, steps).To?
    ensures Run(s, steps).s.q.closed
    decreases |steps|
  {
    if steps != [] {
      StaysClosed(NextOf(s, steps[0]).s, steps[1..]);
    }
  }

  lemma {:induction false} StrandedIffQueuedInGap(s: State, steps: seq<Step>)
    requires Inv(s) && Run(s, steps).To? && !Run(s, steps).s.q.closed
    ensures Stranded(Run(s, steps).s) <==> Stranded(s) || QueuedInGap(s, steps)
    decreases |steps|
  {
    if steps != [] {
      var s' := NextOf(s, steps[0]).s;
      if s'.q.closed {
        StaysClosed(s', steps[1..]);
      }
      StepKeeps(s, steps[0]);
      StrandedIffQueuedInGap(s', steps[1..]);
    }
  }

  lemma AllDelivered(h: History, missing: seq<Bytes>, direct: seq<Bytes>)
    requires Accounts(h.accepted, h.delivered, h.byDrain, missing, direct)
    ensures h.accepted == h.delivered + direct <==> missing == []
  {
    assert h.delivered == h.delivered[..h.byDrain] + h.delivered[h.byDrain..];
    assert |h.accepted| == |h.delivered| + |missing| + |direct|;
  }

  /** Once the drain has finished on an open queue, everything accepted has been delivered
      if and only if no frame was queued in the gap between its two critical sections. */
  lemma DeliversAllIffNoGap(maxBytes: int, steps: seq<Step>)
    requires Run(Start(maxBytes), steps).To?
    ensures var t := Run(Start(maxBytes), steps).s;
      t.drain.Finished? && !t.q.closed ==>
        (t.hist.accepted == t.hist.delivered + t.direct <==> !QueuedInGap(Start(maxBytes), steps))
  {
    StartInv(maxBytes);
    RunKeeps(Start(maxBytes), steps);
    var t := Run(Start(maxBytes), steps).s;
    if t.drain.Finished? && !t.q.closed {
      StrandedIffQueuedInGap(Start(maxBytes), steps);
      AllDelivered(t.hist, t.drain.rest + t.q.pending, t.direct);
    }
  }

  lemma StepStrands(s: State, m: Step)
    requires Inv(s) && (s.drain.Leaving? || s.drain.Finished?) && NextOf(s, m).To?
    ensures var t := NextOf(s, m).s;
      && (t.drain.Leaving? || t.drain.Finished?) && t.hist.byDrain == s.hist.byDrain
      && Undelivered(t.drain) == Undelivered(s.drain) && Held(s) <= Held(t)
  {
  }

  /** A frame queued in the gap is never delivered, whatever follows. */
  lemma {:induction false} StrandedForGood(s: State, steps: seq<Step>)
    requires Inv(s) && (s.drain.Leaving? || s.drain.Finished?) && Run(s, steps).To?
    ensures var t := Run(s, steps).s;
      && (t.drain.Leaving? || t.drain.Finished?) && t.hist.byDrain == s.hist.byDrain
      && Undelivered(t.drain) == Undelivered(s.drain) && Held(s) <= Held(t)
    decreases |steps|
  {
    if steps != [] {
      StepKeeps(s, steps[0]);
      StepStrands(s, steps[0]);
      StrandedForGood(NextOf(s, steps[0]).s, steps[1..]);
    }
  }

  lemma RunStep(s: State, steps: seq<Step>)
    requires steps != [] && NextOf(s, steps[0]).To?
    ensures Run(s, steps) == Run(NextOf(s, steps[0]).s, steps[1..])
  {
  }

  /** A short run showing it: the second frame is delivered and the first never is. */
  lemma GapOvertakes(x: Bytes, y: Bytes)
    requires |x| <= DEFAULT_MAX_PENDING_BYTES
    ensures var t := Run(Start(0), [Publish, Check, Arrive(x), Leave, Arrive(y), DeliverDirect]);
      && t.To? && t.s.hist.accepted == [x, y] && t.s.hist.delivered == [y] && Stranded(t.s)
  {
    var s0 := Start(0);
    RunStep(s0, [Publish, Check, Arrive(x), Leave, Arrive(y), DeliverDirect]);
    var s1 := NextOf(s0, Publish).s;
    RunStep(s1, [Check, Arrive(x), Leave, Arrive(y), DeliverDirect]);
    var s2 := NextOf(s1, Check).s;
    RunStep(s2, [Arrive(x), Leave, Arrive(y), DeliverDirect]);
    var s3 := NextOf(s2, Arrive(x)).s;
    RunStep(s3, [Leave, Arrive(y), DeliverDirect]);
    var s4 := NextOf(s3, Leave).s;
    RunStep(s4, [Arrive(y), DeliverDirect]);
    var s5 := NextOf(s4, Arrive(y)).s;
    RunStep(s5, [DeliverDirect]);
  }
}

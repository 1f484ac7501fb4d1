/**
 What runs of the listener's end amount to: which frames are accepted and
 handed to the handler, when the stream leaves the table, which resets are
 sent, and that everything accepted can be handled.
 */
module ListenerRuns {
  import opened Protocol
  import opened ListenerStream
  import opened Wire
  import opened ListenerEndpoint

  // ---- The calls for a sequence of frames ----

  // The frame before leaves a fragmented message open.
  predicate Continues(frames: seq<Frame>, i: nat)
    requires i <= |frames|
  {
    i > 0 && !frames[i - 1].IsSYN() && frames[i - 1].IsMORE()
  }

  predicate IsFragment(frames: seq<Frame>, i: nat)
    requires i < |frames|
  {
    frames[i].IsMORE() || Continues(frames, i)
  }

  // The call due for the i-th frame.
  function EventOf(frames: seq<Frame>, i: nat): Event
    requires i < |frames|
  {
    var f := frames[i];
    if f.IsSYN() then OnSYN(f.payload, f.IsFIN())
    else if f.IsFIN() then OnFIN(f.payload)
    else if IsFragment(frames, i) then OnFragment(f.payload, f.IsMORE())
    else OnDAT(f.payload)
  }

  // A FIN that is or continues a fragment, or a fragment for a handler that takes none.
  predicate Unfit(frames: seq<Frame>, i: nat, fragments: bool)
    requires i < |frames|
  {
    !frames[i].IsSYN() && IsFragment(frames, i) && (frames[i].IsFIN() || !fragments)
  }

  // The handler's calls are those due for the first frames accepted.
  ghost predicate Traced(h: Handling) {
    && |h.events| <= |h.accepted|
    && (forall i :: 0 <= i < |h.events| ==> h.events[i] == EventOf(h.accepted, i))
    && (h.fragmenting <==> Continues(h.accepted, |h.events|))
  }

  ghost predicate TraceInv(l: Listener) { AcceptedInv(l) && HandlerInv(l) && Traced(l.handling) }

  // The frame in hand is the next one due a call.
  lemma NextDue(l: Listener)
    requires TraceInv(l) && l.worker.Taken?
    ensures |l.handling.events| < |l.handling.accepted|
    ensures l.handling.accepted[|l.handling.events|] == l.worker.f
  {
    assert Hand(l.worker)[0] == l.worker.f;
  }

  /** The handler is called exactly once for the frame in hand, as due, unless the frame is unfit;
      the worker gives up exactly on an unfit frame or when the handler refuses. */
  lemma CalledUnlessUnfit(l: Listener, ok: bool, fragments: bool)
    requires TraceInv(l) && l.worker.Taken?
    ensures var n, accepted := |l.handling.events|, l.handling.accepted;
      var l' := HandleFrame(l, l.worker.f, ok, fragments);
      && n < |accepted| && Traced(l'.handling) && l'.handling.accepted == accepted
      && l'.handling.events == l.handling.events
           + (if Unfit(accepted, n, fragments) then [] else [EventOf(accepted, n)])
      && (GivenUp(l'.worker) <==> Unfit(accepted, n, fragments) || !ok)
  {
    NextDue(l);
    TraceGrows(l.handling, l.worker.f, fragments);
  }

  lemma TraceGrows(h: Handling, f: Frame, fragments: bool)
    requires Traced(h) && |h.events| < |h.accepted| && h.accepted[|h.events|] == f
    requires f.IsSYN() ==> |h.events| == 0
    ensures var calls := CallFor(f, h.fragmenting, fragments);
      if Unfit(h.accepted, |h.events|, fragments) then calls == []
      else calls == [EventOf(h.accepted, |h.events|)] && Traced(Called(h, calls[0]))
  {
  }

  lemma TraceKept(l: Listener, s: Step)
    requires TraceInv(l) && NextOf(l, s).To?
    ensures Traced(NextOf(l, s).l.handling)
  {
    match s
    case Deliver(msg, stale) =>
      if msg.Data? { AcceptedExtends(l.handling, msg.frame); }
    case Work(m) =>
      if m.Handle? { CalledUnlessUnfit(l, m.ok, m.fragments); } else { OthersCallNothing(l, m); }
    case Writing(m) => WriterLeavesReceiving(l, m);
    case _ =>
  }

  lemma AcceptedExtends(h: Handling, f: Frame)
    requires Traced(h)
    ensures Traced(h.(accepted := h.accepted + [f]))
  {
    forall i | 0 <= i < |h.events| ensures EventOf(h.accepted + [f], i) == EventOf(h.accepted, i) {}
  }

  lemma OthersCallNothing(l: Listener, m: WorkerMove)
    requires WorkerStep(l, m).To? && !m.Handle?
    ensures WorkerStep(l, m).l.handling == l.handling
  {
  }

  // ---- Runs ----

  ghost predicate RunInv(l: Listener) { Inv(l) && Traced(l.handling) }

  lemma RunInvKept(l: Listener, s: Step)
    requires RunInv(l) && NextOf(l, s).To?
    ensures RunInv(NextOf(l, s).l)
  {
    StepKeepsInv(l, s);
    TraceKept(l, s);
  }

  lemma RunInvAtOpening(syn: Frame, flow: bool)
    requires syn.IsSYN() && New(flow).Enqueue(syn).Accepted?
    ensures RunInv(Opened(syn, flow))
  {
    InvAtOpening(syn, flow);
  }

  lemma {:induction false} RunInvInRun(l: Listener, steps: seq<Step>)
    requires RunInv(l) && Run(l, steps).To?
    ensures RunInv(Run(l, steps).l)
    decreases |steps|
  {
    if steps != [] {
      RunInvKept(l, steps[0]);
      RunInvInRun(NextOf(l, steps[0]).l, steps[1..]);
    }
  }

  // A step that gives the worker no reason to give up.
  predicate GoesWell(l: Listener, s: Step) {
    && s != Work(SendUpdate(false))
    && (s.Work? && s.worker.Handle? ==>
          && s.worker.ok && |l.handling.events| < |l.handling.accepted|
          && !Unfit(l.handling.accepted, |l.handling.events|, s.worker.fragments))
  }

  predicate AllGoesWell(l: Listener, steps: seq<Step>)
    decreases |steps|
  {
    steps == [] || NextOf(l, steps[0]).Disabled?
    || (GoesWell(l, steps[0]) && AllGoesWell(NextOf(l, steps[0]).l, steps[1..]))
  }

  predicate Ended(l: Listener) { l.st.closed || l.reg.sessionDone }

  // Everything received is consumed, queued, or in the worker's hand and not consumed yet.
  predicate AllConsumed(rx: Receiving, w: Worker) {
    && (rx.flow ==> rx.received == rx.consumed + FlowTotal(rx.queue) + UneatenBytes(w))
    && (w.Done? && w.ok && !w.eaten ==> w.f.IsSYN())
  }

  // The worker has the FIN, and has yet to close the direction for it.
  predicate HasFin(w: Worker) {
    (w.Taken? || w.Handled? || w.Owing? || w.Announcing? || w.Closing?) && w.f.IsFIN()
  }

  // The FIN, once taken, closes the receive direction.
  predicate ClosesDirection(l: Listener) {
    Finished(l.handling.accepted) && l.st.rx.queue == [] ==> HasFin(l.worker) || l.st.receiveFIN
  }

  // Without a reason to, the worker does not give up, and it consumes and closes as it should, until
  // the stream is stopped or the session is closed.
  predicate Tended(l: Listener) {
    Ended(l) || (!GivenUp(l.worker) && AllConsumed(l.st.rx, l.worker) && ClosesDirection(l))
  }

  lemma TendedKept(l: Listener, s: Step)
    requires TraceInv(l) && Tended(l) && NextOf(l, s).To? && GoesWell(l, s)
    ensures Tended(NextOf(l, s).l) && (Ended(l) ==> Ended(NextOf(l, s).l))
  {
    match s
    case Deliver(msg, stale) => if msg.Data? { TotalsStep(l.st.rx.queue, msg.frame); }
    case Work(m) => TendedByWorker(l, m);
    case Writing(m) => WriterLeavesReceiving(l, m); WriterEndsNothing(l, m);
    case _ =>
  }

  lemma WriterEndsNothing(l: Listener, m: WriterMove)
    requires WriterStep(l, m).To?
    ensures (Ended(l) ==> Ended(WriterStep(l, m).l)) && WriterStep(l, m).l.st.receiveFIN == l.st.receiveFIN
  {
  }

  lemma TendedByWorker(l: Listener, m: WorkerMove)
    requires TraceInv(l) && Tended(l) && WorkerStep(l, m).To? && GoesWell(l, Work(m))
    ensures Tended(WorkerStep(l, m).l) && (Ended(l) ==> Ended(WorkerStep(l, m).l))
  {
    match m
    case Handle(ok, fragments) => TendedByHandling(l, ok, fragments);
    case Take => TakeInOrder(l.handling.accepted, l.st.rx.queue);
    case Consume => TendedByConsuming(l);
    case Drop =>
    case Dequeue =>
    case _ => TendedBetween(l, m);
  }

  lemma TendedByConsuming(l: Listener)
    requires Tended(l) && l.worker.Handled?
    ensures Tended(WorkerStep(l, Consume).l) && Ended(WorkerStep(l, Consume).l) == Ended(l)
  {
  }

  lemma TendedBetween(l: Listener, m: WorkerMove)
    requires Tended(l) && WorkerStep(l, m).To? && GoesWell(l, Work(m))
    requires !m.Handle? && m != Take && m != Consume && m != Drop && m != Dequeue
    ensures Tended(WorkerStep(l, m).l) && (Ended(l) ==> Ended(WorkerStep(l, m).l))
  {
  }

  lemma TendedByHandling(l: Listener, ok: bool, fragments: bool)
    requires TraceInv(l) && Tended(l) && l.worker.Taken? && GoesWell(l, Work(Handle(ok, fragments)))
    ensures var l' := HandleFrame(l, l.worker.f, ok, fragments); Tended(l') && Ended(l') == Ended(l)
  {
    CalledUnlessUnfit(l, ok, fragments);
    HandleMovesOnlyWorker(l, l.worker.f, ok, fragments);
    HandleLeavesRegistry(l, ok, fragments);
    HandledAsDue(l, fragments);
  }

  // What an accepting handler leaves to do: consume, or close at once after a SYN that is the whole of it.
  lemma HandledAsDue(l: Listener, fragments: bool)
    requires l.worker.Taken? && CallFor(l.worker.f, l.handling.fragmenting, fragments) != []
    ensures var f, w := l.worker.f, HandleFrame(l, l.worker.f, true, fragments).worker;
      && UneatenBytes(w) == f.FlowBytes() && (f.IsFIN() ==> HasFin(w))
      && (w.Done? ==> f.IsSYN())
  {
  }

  lemma HandleLeavesRegistry(l: Listener, ok: bool, fragments: bool)
    requires l.worker.Taken?
    ensures HandleFrame(l, l.worker.f, ok, fragments).reg == l.reg
  {
  }

  lemma {:induction false} TendedInRun(l: Listener, steps: seq<Step>)
    requires RunInv(l) && Tended(l) && Run(l, steps).To? && AllGoesWell(l, steps)
    ensures Tended(Run(l, steps).l)
    decreases |steps|
  {
    if steps != [] {
      TendedKept(l, steps[0]);
      RunInvKept(l, steps[0]);
      TendedInRun(NextOf(l, steps[0]).l, steps[1..]);
    }
  }

  // One call, as due, for each frame the worker has taken and dealt with.
  ghost predicate AllCalled(l: Listener) {
    && Traced(l.handling)
    && |l.handling.events| == |l.handling.accepted| - |l.st.rx.queue| - (if l.worker.Taken? then 1 else 0)
    && AllConsumed(l.st.rx, l.worker) && ClosesDirection(l)
  }

  lemma TendedAtOpening(syn: Frame, flow: bool)
    requires syn.IsSYN() && New(flow).Enqueue(syn).Accepted?
    ensures Tended(Opened(syn, flow))
  {
    TotalsStep([], syn);
    assert [] + [syn] == [syn];
  }

  /** Over every run: the handler's calls are those due for the first frames accepted; and as long as
      the handler refuses nothing, no frame is unfit, every update is sent and nothing ends the
      stream, for all those the worker has taken, each of which is consumed, and a FIN closes the
      direction. */
  lemma CallsOverRuns(syn: Frame, flow: bool, steps: seq<Step>)
    requires syn.IsSYN() && New(flow).Enqueue(syn).Accepted? && Run(Opened(syn, flow), steps).To?
    ensures var l := Run(Opened(syn, flow), steps).l;
      && Traced(l.handling)
      && (AllGoesWell(Opened(syn, flow), steps) && !Ended(l) ==> AllCalled(l))
  {
    var l0 := Opened(syn, flow);
    RunInvAtOpening(syn, flow);
    RunInvInRun(l0, steps);
    TendedAtOpening(syn, flow);
    if AllGoesWell(l0, steps) { TendedInRun(l0, steps); }
  }

  // ---- When a frame is accepted ----

  // The window covers the frame, nothing finished the direction, and it fits beside what is held.
  predicate Admits(l: Listener, f: Frame) {
    && !l.st.closed && !Finished(l.handling.accepted)
    && (l.st.rx.flow && f.FlowBytes() > 0 ==> l.st.rx.received + f.FlowBytes() <= l.st.rx.advertised)
    && |l.st.rx.queue| + |Hand(l.worker)| < MAX_QUEUED_STREAM_FRAMES
    && PayloadTotal(l.st.rx.queue) + PayloadTotal(Hand(l.worker)) + |f.payload| <= INITIAL_STREAM_WINDOW
  }

  /** A frame found in the table is accepted exactly when it is no SYN and the stream admits it. */
  lemma AcceptedIffAdmitted(l: Listener, f: Frame)
    requires ReceiveInv(l) && AcceptedInv(l)
    ensures var l' := DeliverMsg(l, Data(f), true);
      if !f.IsSYN() && Admits(l, f) then
        l'.reg == l.reg && l'.handling.accepted == l.handling.accepted + [f]
      else
        l' == Fail(l, true)
  {
    ChannelNeverFull(l.st.rx, Hand(l.worker), f);
  }

  /** A data frame inside the window of an open stream is refused only for the 256 frames held, or
      for bytes no window covers or no longer does. */
  lemma RefusalExplained(l: Listener, f: Frame)
    requires ReceiveInv(l) && AcceptedInv(l) && l.st.rx.flow && !f.IsSYN() && l.st.Enqueue(f).Refused?
    ensures l.st.closed || Finished(l.handling.accepted) || l.st.rx.received + f.FlowBytes() > l.st.rx.advertised
         || |l.st.rx.queue| + |Hand(l.worker)| == MAX_QUEUED_STREAM_FRAMES
         || SynTotal(l.st.rx.queue) + SynTotal(Hand(l.worker)) + EatenBytes(l.worker) > 0
  {
    ChannelNeverFull(l.st.rx, Hand(l.worker), f);
    if l.st.rx.received + f.FlowBytes() <= l.st.rx.advertised
       && |f.payload| > INITIAL_STREAM_WINDOW - l.st.rx.queuedBytes {
      RefusedBytesExplained(l, f);
    }
  }

  // ---- When the stream leaves the table ----

  // A duplicate SYN, a frame not admitted, or an invalid update: the peer is told.
  predicate Offends(l: Listener, msg: Msg) {
    match msg
    case Data(f) => f.IsSYN() || !Admits(l, f)
    case WindowUpdate(max) => l.st.rx.flow && max == 0
    case StreamReset => false
  }

  predicate EndsAnnounced(l: Listener, s: Step) {
    s == Work(FailWorker) || (s.Deliver? && Offends(l, s.msg))
  }

  predicate EndsQuietly(l: Listener, s: Step) {
    (s.Deliver? && s.msg.StreamReset? && l.st.rx.flow) || s == CloseSession || s == Writing(Write(false))
  }

  predicate EndsFinished(s: Step) { s == Work(FinishReceive) || s == Writing(FinishSend) }

  predicate EndsAsDue(l: Listener, s: Step, reg: Registry) {
    && (!reg.inTable <==> EndsAnnounced(l, s) || EndsQuietly(l, s) || EndsFinished(s))
    && reg.removal == (if EndsAnnounced(l, s) then StopAndReset else if EndsQuietly(l, s) then StopQuietly else Settled)
  }

  /** The stream leaves the table exactly when a frame is not admitted, an update is invalid or the
      worker gave up, when the peer resets it, a write fails or the session closes, or when a closer
      found both directions finished; and it is marked for a reset exactly in the first three. */
  lemma RemovedIff(l: Listener, s: Step)
    requires ReceiveInv(l) && AcceptedInv(l) && CloseInv(l) && l.reg.inTable && NextOf(l, s).To?
    ensures EndsAsDue(l, s, NextOf(l, s).l.reg) && (EndsFinished(s) ==> BothFinished(l.st))
  {
    match s
    case Deliver(msg, stale) => if msg.Data? { AcceptedIffAdmitted(l, msg.frame); }
    case Work(m) => RemovedIffByWorker(l, m);
    case Writing(m) => RemovedIffByWriter(l, m);
    case _ =>
  }

  lemma RemovedIffByWorker(l: Listener, m: WorkerMove)
    requires CloseInv(l) && l.reg.inTable && WorkerStep(l, m).To?
    ensures EndsAsDue(l, Work(m), WorkerStep(l, m).l.reg) && (m.FinishReceive? ==> BothFinished(l.st))
  {
    if m.Handle? { HandleLeavesRegistry(l, m.ok, m.fragments); }
  }

  lemma RemovedIffByWriter(l: Listener, m: WriterMove)
    requires CloseInv(l) && l.reg.inTable && WriterStep(l, m).To?
    ensures EndsAsDue(l, Writing(m), WriterStep(l, m).l.reg) && (m.FinishSend? ==> BothFinished(l.st))
  {
  }

  // ---- Out of the table ----

  // A stream out of the table is stopped, or about to be by whoever took it out.
  ghost predicate OutInv(l: Listener) {
    !l.reg.inTable ==> l.st.closed || l.reg.removal != Settled || l.worker.Stopping? || l.writer.StoppingSend?
  }

  lemma OutKept(l: Listener, s: Step)
    requires OutInv(l) && NextOf(l, s).To?
    ensures OutInv(NextOf(l, s).l)
  {
    match s
    case Work(m) => OutKeptByWorker(l, m);
    case Writing(m) => OutKeptByWriter(l, m);
    case _ =>
  }

  lemma OutKeptByWorker(l: Listener, m: WorkerMove)
    requires OutInv(l) && WorkerStep(l, m).To?
    ensures OutInv(WorkerStep(l, m).l)
  {
    if m.Handle? {
      HandleLeavesRegistry(l, m.ok, m.fragments);
      HandleMovesOnlyWorker(l, l.worker.f, m.ok, m.fragments);
    }
  }

  lemma OutKeptByWriter(l: Listener, m: WriterMove)
    requires OutInv(l) && WriterStep(l, m).To?
    ensures OutInv(WriterStep(l, m).l)
  {
  }

  lemma {:induction false} OutInRun(l: Listener, steps: seq<Step>)
    requires OutInv(l) && Run(l, steps).To?
    ensures OutInv(Run(l, steps).l)
    decreases |steps|
  {
    if steps != [] {
      OutKept(l, steps[0]);
      OutInRun(NextOf(l, steps[0]).l, steps[1..]);
    }
  }

  /** Over every run a stream out of the table is stopped, or whoever took it out has still to stop it. */
  lemma OutOverRuns(syn: Frame, flow: bool, steps: seq<Step>)
    requires New(flow).Enqueue(syn).Accepted? && Run(Opened(syn, flow), steps).To?
    ensures OutInv(Run(Opened(syn, flow), steps).l)
  {
    OutInRun(Opened(syn, flow), steps);
  }

  // ---- What a run accepts ----

  function Arrivals(steps: seq<Step>): seq<Frame> {
    if steps == [] then []
    else (if steps[0].Deliver? && steps[0].msg.Data? then [steps[0].msg.frame] else []) + Arrivals(steps[1..])
  }

  lemma ArrivalsStep(l: Listener, s: Step)
    requires NextOf(l, s).To? && NextOf(l, s).l.reg.inTable
    ensures l.reg.inTable && NextOf(l, s).l.handling.accepted == l.handling.accepted + Arrivals([s])
  {
    match s
    case Deliver(msg, stale) =>
    case Work(m) => WorkerAcceptsNothing(l, m);
    case Writing(m) => WriterLeavesReceiving(l, m); WriterRemoves(l, m);
    case _ =>
  }

  lemma WorkerAcceptsNothing(l: Listener, m: WorkerMove)
    requires WorkerStep(l, m).To?
    ensures var l' := WorkerStep(l, m).l;
      l'.handling.accepted == l.handling.accepted && (l'.reg.inTable ==> l.reg.inTable)
  {
    if m.Handle? { HandleLeavesRegistry(l, m.ok, m.fragments); }
  }

  lemma WriterRemoves(l: Listener, m: WriterMove)
    requires WriterStep(l, m).To?
    ensures WriterStep(l, m).l.reg.inTable ==> l.reg.inTable
  {
  }

  lemma ArrivalsSplit(steps: seq<Step>)
    requires steps != []
    ensures Arrivals(steps) == Arrivals([steps[0]]) + Arrivals(steps[1..])
  {
  }

  lemma {:induction false} ArrivalsInRun(l: Listener, steps: seq<Step>)
    requires Run(l, steps).To? && Run(l, steps).l.reg.inTable
    ensures l.reg.inTable && Run(l, steps).l.handling.accepted == l.handling.accepted + Arrivals(steps)
    decreases |steps|
  {
    if steps != [] {
      var next := NextOf(l, steps[0]).l;
      ArrivalsInRun(next, steps[1..]);
      ArrivalsStep(l, steps[0]);
      ArrivalsSplit(steps);
      Chained(l.handling.accepted, Arrivals([steps[0]]), next.handling.accepted, Arrivals(steps[1..]),
              Run(l, steps).l.handling.accepted);
    }
  }

  /** While the stream is in the table, it has accepted its SYN and every frame that came after. */
  lemma AllArrivalsAccepted(syn: Frame, flow: bool, steps: seq<Step>)
    requires New(flow).Enqueue(syn).Accepted? && Run(Opened(syn, flow), steps).To?
    requires Run(Opened(syn, flow), steps).l.reg.inTable
    ensures Run(Opened(syn, flow), steps).l.handling.accepted == [syn] + Arrivals(steps)
  {
    ArrivalsInRun(Opened(syn, flow), steps);
  }

  // ---- Resets ----

  // A reset on its way: the failure has yet to stop the stream, or the goroutine to send it.
  function Due(l: Listener): nat {
    if (l.reg.removal.StopAndReset? && !l.st.closed) || l.reg.resetDue then 1 else 0
  }

  function Announced(l: Listener, s: Step): nat { if l.reg.inTable && EndsAnnounced(l, s) then 1 else 0 }

  // A reset that is not sent: the send failed, or a closer stopped the finished stream first.
  function Unsent(l: Listener, s: Step): nat {
    if s == SendReset(false)
       || ((s == Work(StopReceive) || s == Writing(StopSend)) && l.reg.removal.StopAndReset? && !l.st.closed) then 1
    else 0
  }

  lemma ResetsSent(l: Listener, s: Step)
    requires l.st.rx.flow && NextOf(l, s).To?
    ensures Resets(NextOf(l, s).l.out.log) == Resets(l.out.log) + if s == SendReset(true) then 1 else 0
  {
    match s
    case SendReset(sent) => ResetsGrow(l.out.log, StreamReset);
    case Work(m) => if m == SendUpdate(true) { ResetsGrow(l.out.log, WindowUpdate(l.worker.max)); }
    case Writing(m) => if m == Write(true) { ResetsGrow(l.out.log, Data(l.writer.frame)); }
    case _ =>
  }

  lemma RemovalOutOfTable(l: Listener, s: Step)
    requires !l.reg.inTable && NextOf(l, s).To? && s != StopRemoved && !s.SendReset?
    ensures var l' := NextOf(l, s).l;
      && !l'.reg.inTable && l'.reg.removal == l.reg.removal && l'.reg.resetDue == l.reg.resetDue
      && l'.st.closed == (l.st.closed || s == Work(StopReceive) || s == Writing(StopSend))
  {
    match s
    case Work(m) => if m.Handle? { HandleLeavesRegistry(l, m.ok, m.fragments); }
    case Writing(m) =>
    case _ =>
  }

  lemma NoneDueInTable(l: Listener, s: Step)
    requires CloseInv(l) && l.reg.inTable && NextOf(l, s).To?
    ensures Due(l) == 0 && !s.SendReset? && s != StopRemoved && s != Work(StopReceive) && s != Writing(StopSend)
    ensures !NextOf(l, s).l.reg.resetDue && !NextOf(l, s).l.st.closed
  {
    match s
    case Work(m) => if m.Handle? { HandleLeavesRegistry(l, m.ok, m.fragments); }
    case Writing(m) =>
    case _ =>
  }

  lemma DueStep(l: Listener, s: Step)
    requires ReceiveInv(l) && AcceptedInv(l) && CloseInv(l) && NextOf(l, s).To?
    ensures var l' := NextOf(l, s).l;
      && Due(l') + Unsent(l, s) + (if s == SendReset(true) then 1 else 0) == Due(l) + Announced(l, s)
      && (!l.reg.inTable || Announced(l, s) == 1 ==> !l'.reg.inTable)
  {
    if l.reg.inTable {
      RemovedIff(l, s);
      NoneDueInTable(l, s);
    } else if s != StopRemoved && !s.SendReset? {
      RemovalOutOfTable(l, s);
    }
  }

  // Over a run: failures announced while the stream was in the table, and resets not sent.
  function AnnouncedIn(l: Listener, steps: seq<Step>): nat
    decreases |steps|
  {
    if steps == [] || NextOf(l, steps[0]).Disabled? then 0
    else Announced(l, steps[0]) + AnnouncedIn(NextOf(l, steps[0]).l, steps[1..])
  }

  function UnsentIn(l: Listener, steps: seq<Step>): nat
    decreases |steps|
  {
    if steps == [] || NextOf(l, steps[0]).Disabled? then 0
    else Unsent(l, steps[0]) + UnsentIn(NextOf(l, steps[0]).l, steps[1..])
  }

  // Resets on the wire, on their way or given up, and whether one can still come to be.
  predicate Accounts(l: Listener, l': Listener, announced: nat, unsent: nat) {
    && Resets(l'.out.log) + Due(l') + unsent == Resets(l.out.log) + Due(l) + announced
    && (!l.reg.inTable ==> !l'.reg.inTable && announced == 0)
    && announced <= (if l'.reg.inTable then 0 else 1)
  }

  lemma ResetsStep(l: Listener, s: Step)
    requires RunInv(l) && l.st.rx.flow && NextOf(l, s).To?
    ensures Accounts(l, NextOf(l, s).l, Announced(l, s), Unsent(l, s))
  {
    ResetsSent(l, s);
    DueStep(l, s);
  }

  lemma {:induction false} ResetsInRun(l: Listener, steps: seq<Step>)
    requires RunInv(l) && l.st.rx.flow && Run(l, steps).To?
    ensures Accounts(l, Run(l, steps).l, AnnouncedIn(l, steps), UnsentIn(l, steps))
    decreases |steps|
  {
    if steps != [] {
      ResetsStep(l, steps[0]);
      RunInvKept(l, steps[0]);
      FlowKept(l, steps[0]);
      ResetsInRun(NextOf(l, steps[0]).l, steps[1..]);
    }
  }

  /** Over every run with flow control, the stream is failed towards the peer at most once, and then
      exactly one reset is on the wire, or on its way, or could not be sent, or came too late for a
      stream finished in both directions; otherwise none ever is. */
  lemma ResetsAccounted(syn: Frame, steps: seq<Step>)
    requires syn.IsSYN() && New(true).Enqueue(syn).Accepted? && Run(Opened(syn, true), steps).To?
    ensures var l0 := Opened(syn, true);
      Resets(Run(l0, steps).l.out.log) + Due(Run(l0, steps).l) + UnsentIn(l0, steps) == AnnouncedIn(l0, steps) <= 1
  {
    RunInvAtOpening(syn, true);
    ResetsInRun(Opened(syn, true), steps);
  }

  // ---- Everything accepted can be handled ----

  // How far the worker is from having called the handler for everything queued.
  function Distance(l: Listener): nat {
    6 * |l.st.rx.queue| + match l.worker
      case Taken(_) => 5
      case Handled(_) => 4
      case Owing(_, _) => 3
      case Announcing(_, _) => 2
      case Done(_, _, _) => 1
      case _ => 0
  }

  predicate HandledAll(l: Listener) { l.st.rx.queue == [] && !l.worker.Taken? }

  // What is still due a call is fit for a handler that takes fragments.
  ghost predicate AllFit(h: Handling) {
    forall i :: |h.events| <= i < |h.accepted| ==> !Unfit(h.accepted, i, true)
  }

  ghost predicate Working(l: Listener) {
    RunInv(l) && !Ended(l) && l.reg.inTable && !GivenUp(l.worker) && AllFit(l.handling)
  }

  // The worker's next move when nothing fails.
  function Onward(w: Worker): WorkerMove {
    match w
    case Taken(_) => Handle(true, true)
    case Handled(_) => Consume
    case Owing(_, _) => Announce
    case Announcing(_, _) => SendUpdate(true)
    case Done(_, _, _) => Dequeue
    case _ => Take
  }

  predicate Closes(w: Worker) { w.Closing? || w.Finishing? || w.Stopping? }

  lemma Nearer(l: Listener)
    requires !Ended(l) && !HandledAll(l) && !GivenUp(l.worker) && !Closes(l.worker)
    requires Hand(l.worker) != [] && l.worker.f.IsFIN() ==> l.st.rx.queue == []
    requires l.worker.Taken? ==> CallFor(l.worker.f, l.handling.fragmenting, true) != []
    ensures var next := WorkerStep(l, Onward(l.worker));
      && next.To? && Distance(next.l) < Distance(l) && !GivenUp(next.l.worker)
      && next.l.reg == l.reg && next.l.st.closed == l.st.closed && next.l.handling.accepted == l.handling.accepted
      && |next.l.handling.events| >= |l.handling.events|
  {
  }

  lemma WorkerGoesOn(l: Listener)
    requires Working(l) && !HandledAll(l)
    ensures var next := WorkerStep(l, Onward(l.worker));
      && next.To? && Working(next.l) && Distance(next.l) < Distance(l)
      && next.l.handling.accepted == l.handling.accepted
  {
    if Hand(l.worker) != [] && l.worker.f.IsFIN() { FinIsLastTaken(l); }
    if l.worker.Taken? {
      NextDue(l);
      TraceGrows(l.handling, l.worker.f, true);
    }
    Nearer(l);
    RunInvKept(l, Work(Onward(l.worker)));
  }

  lemma AllHandled(l: Listener)
    requires Working(l) && HandledAll(l)
    ensures |l.handling.events| == |l.handling.accepted|
  {
  }

  lemma RunStepThen(l: Listener, s: Step, rest: seq<Step>)
    requires NextOf(l, s).To?
    ensures Run(l, [s] + rest) == Run(NextOf(l, s).l, rest)
  {
    assert ([s] + rest)[1..] == rest;
  }

  // The worker's own moves, that make the call due for everything accepted.
  ghost predicate HandlesAll(l: Listener, moves: seq<Step>) {
    && Run(l, moves).To? && Working(Run(l, moves).l)
    && Run(l, moves).l.handling.accepted == l.handling.accepted
    && |Run(l, moves).l.handling.events| == |l.handling.accepted|
    && forall i :: 0 <= i < |moves| ==> moves[i].Work?
  }

  lemma MoveFirst(l: Listener, move: WorkerMove, rest: seq<Step>)
    requires WorkerStep(l, move).To? && HandlesAll(WorkerStep(l, move).l, rest)
    requires WorkerStep(l, move).l.handling.accepted == l.handling.accepted
    ensures HandlesAll(l, [Work(move)] + rest)
  {
    RunStepThen(l, Work(move), rest);
  }

  /** While the stream is kept and its frames are fit, the worker always has moves that make the call
      due for every frame accepted so far. */
  lemma {:induction false} AllCanBeHandled(l: Listener) returns (moves: seq<Step>)
    requires Working(l)
    ensures HandlesAll(l, moves)
    decreases Distance(l)
  {
    if HandledAll(l) {
      moves := [];
      AllHandled(l);
    } else {
      WorkerGoesOn(l);
      var move := Onward(l.worker);
      var rest := AllCanBeHandled(WorkerStep(l, move).l);
      MoveFirst(l, move, rest);
      moves := [Work(move)] + rest;
    }
  }

  // ---- Everything stops ----

  // How far the worker is from its end, once it need not go on.
  function ToGo(w: Worker): nat {
    match w
    case Exited => 0
    case Idle => 1
    case Failing => 1
    case Done(_, _, _) => 2
    case Stopping(_) => 3
    case Announcing(_, _) => 3
    case Finishing(_) => 4
    case Closing(_) => 5
    case Owing(_, _) => 6
    case Handled(_) => 7
    case Taken(_) => 8
  }

  function Stopping(l: Listener): WorkerMove {
    match l.worker
    case Taken(_) => if l.st.closed then Drop else Handle(true, true)
    case Handled(_) => Consume
    case Owing(_, _) => Announce
    case Announcing(_, _) => SendUpdate(false)
    case Closing(_) => CloseReceive
    case Finishing(_) => FinishReceive
    case Stopping(_) => StopReceive
    case Done(_, _, _) => Dequeue
    case Failing => FailWorker
    case _ => Exit
  }

  lemma NearerEnd(l: Listener)
    requires Ended(l) && !l.worker.Exited?
    ensures var next := WorkerStep(l, Stopping(l));
      next.To? && ToGo(next.l.worker) < ToGo(l.worker) && Ended(next.l)
  {
  }

  /** Once the stream is stopped or the session closed, the worker can always come to its end, without
      taking another frame. */
  lemma {:induction false} WorkerCanStop(l: Listener) returns (moves: seq<Step>)
    requires Ended(l)
    ensures Run(l, moves).To? && Run(l, moves).l.worker.Exited?
    ensures forall i :: 0 <= i < |moves| ==> moves[i].Work? && moves[i] != Work(Take)
    decreases ToGo(l.worker)
  {
    if l.worker.Exited? {
      moves := [];
    } else {
      NearerEnd(l);
      var move := Work(Stopping(l));
      var rest := WorkerCanStop(NextOf(l, move).l);
      RunStepThen(l, move, rest);
      moves := [move] + rest;
    }
  }

  function Leaving(l: Listener): WriterMove {
    match l.writer
    case Reserving(_) => if l.st.closed then Reserve else GiveUp
    case Charged(_) => Write(false)
    case SentFin => CloseSend
    case FinishingSend => FinishSend
    case _ => StopSend
  }

  function WriterToGo(w: Writer): nat {
    match w
    case Free => 0
    case Reserving(_) => 1
    case Charged(_) => 1
    case StoppingSend => 1
    case FinishingSend => 2
    case SentFin => 3
  }

  /** And a writer, waiting for credit or not, always has moves that give up the stream's write lock. */
  lemma {:induction false} WriterCanStop(l: Listener) returns (moves: seq<Step>)
    requires Ended(l)
    ensures Run(l, moves).To? && Run(l, moves).l.writer.Free?
    decreases WriterToGo(l.writer)
  {
    if l.writer.Free? {
      moves := [];
    } else {
      var move := Writing(Leaving(l));
      WriterNearer(l);
      var rest := WriterCanStop(NextOf(l, move).l);
      RunStepThen(l, move, rest);
      moves := [move] + rest;
    }
  }

  lemma WriterNearer(l: Listener)
    requires Ended(l) && !l.writer.Free?
    ensures var next := WriterStep(l, Leaving(l));
      next.To? && WriterToGo(next.l.writer) < WriterToGo(l.writer) && Ended(next.l)
  {
  }

  lemma SessionDoneStep(l: Listener, s: Step)
    requires NextOf(l, s).To?
    ensures NextOf(l, s).l.reg.sessionDone <==> l.reg.sessionDone || s == CloseSession
    ensures s == CloseSession ==> !NextOf(l, s).l.reg.inTable
  {
    match s
    case Work(m) => if m.Handle? { HandleLeavesRegistry(l, m.ok, m.fragments); }
    case Writing(m) =>
    case _ =>
  }

  /** The session is closed for the stream exactly once it was closed in the run. */
  lemma {:induction false} SessionDoneIff(l: Listener, steps: seq<Step>)
    requires Run(l, steps).To?
    ensures Run(l, steps).l.reg.sessionDone <==> l.reg.sessionDone || CloseSession in steps
    decreases |steps|
  {
    if steps != [] {
      SessionDoneStep(l, steps[0]);
      SessionDoneIff(NextOf(l, steps[0]).l, steps[1..]);
      assert steps == [steps[0]] + steps[1..];
    }
  }

  // ---- Everything written goes out ----

  /** A frame written while its direction is open goes out exactly when the credit covers it, and is charged. */
  lemma WrittenWhenCovered(l: Listener, f: Frame)
    requires RunInv(l) && !Ended(l) && l.writer.Free? && !l.st.sendFIN && f.ValidPayload()
    requires l.st.sent <= l.st.sendMax
    ensures var r := Run(l, [Writing(Acquire(f)), Writing(Reserve), Writing(Write(true))]);
      && (r.To? <==> !l.st.rx.flow || l.st.sent + f.FlowBytes() <= l.st.sendMax)
      && (r.To? ==>
            && r.l.out.log == l.out.log + [Data(f)] && r.l.reg == l.reg
            && r.l.st == l.st.(sent := l.st.sent + if l.st.rx.flow then f.FlowBytes() else 0)
            && r.l.writer == if f.IsFIN() then SentFin else Free)
  {
    var l1 := l.(writer := Reserving(f));
    assert [Writing(Acquire(f)), Writing(Reserve), Writing(Write(true))][1..]
        == [Writing(Reserve), Writing(Write(true))];
    assert [Writing(Reserve), Writing(Write(true))][1..] == [Writing(Write(true))];
    assert [Writing(Write(true))][1..] == [];
    match l1.st.TryReserve(f.FlowBytes())
    case Reserved(st) => RunStep(l1.(st := st, writer := Charged(f)), [Writing(Write(true))]);
    case _ =>
  }
}

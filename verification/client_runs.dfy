/**
 What runs of the client's end amount to: which frames are accepted, when the
 stream leaves the table, which resets are sent, and that everything accepted
 can be delivered.
 */
module ClientRuns {
  import opened Protocol
  import opened ClientStream
  import opened Wire
  import opened ClientEndpoint

  // ---- When a frame is accepted ----

  // Only the last frame accepted can be a FIN, and it finishes the direction.
  ghost predicate LastIsFin(accepted: seq<Frame>, inboundFIN: bool) {
    && (inboundFIN <==> Finished(accepted))
    && forall i :: 0 <= i < |accepted| - 1 ==> !accepted[i].IsFIN()
  }

  // Where the worker stands with the last frame it handed over.
  ghost predicate HandedLast(w: Worker, delivered: seq<Frame>) {
    && (w.HandedOver? ==> delivered != [] && delivered[|delivered| - 1] == w.f)
    && (w.Closing? || w.Detaching? ==> Finished(delivered))
  }

  ghost predicate FinishInv(c: Client) {
    LastIsFin(c.hist.accepted, c.rx.inboundFIN) && HandedLast(c.worker, c.hist.delivered)
  }

  lemma FinishKept(c: Client, s: Step)
    requires FinishInv(c) && NextOf(c, s).To?
    ensures FinishInv(NextOf(c, s).c)
  {
    match s
    case Act => FinishKeptByAct(c);
    case Work(m) => FinishKeptByWorker(c, m);
    case Writing(m) => WriterOnlyActivates(c, m);
    case Lookup(_) =>
    case Push =>
    case PushAbandoned =>
    case _ =>
  }

  lemma FinishKeptByAct(c: Client)
    requires FinishInv(c) && c.dispatcher.Found?
    ensures FinishInv(ActOn(c, c.dispatcher.msg))
  {
  }

  lemma FinishKeptByWorker(c: Client, m: WorkerMove)
    requires FinishInv(c) && WorkerStep(c, m).To?
    ensures FinishInv(WorkerStep(c, m).c)
  {
  }

  ghost predicate RunInv(c: Client) { Inv(c) && FinishInv(c) }

  lemma RunInvKept(c: Client, s: Step)
    requires RunInv(c) && NextOf(c, s).To?
    ensures RunInv(NextOf(c, s).c)
  {
    StepKeepsInv(c, s);
    FinishKept(c, s);
  }

  // The stream is open to the frame, the window covers it, and it fits beside what is held.
  predicate Admits(c: Client, f: Frame) {
    && c.rx.windowActive && !Finished(c.hist.accepted)
    && c.rx.received + f.FlowBytes() <= c.rx.advertised
    && |c.rx.pending| + |Hand(c.worker)| < MAX_QUEUED_STREAM_FRAMES
    && PayloadTotal(c.rx.pending) + PayloadTotal(Hand(c.worker)) + |f.payload| <= INITIAL_STREAM_WINDOW
  }

  /** The dispatcher accepts exactly the frames the stream admits. */
  lemma AcceptedIffAdmitted(c: Client, f: Frame)
    requires ReceiveInv(c) && FinishInv(c) && c.dispatcher == Found(Data(f))
    ensures var c' := ActOn(c, Data(f));
      if Admits(c, f) then
        c'.reg == c.reg && c'.dispatcher == Counting(f) && c'.hist.accepted == c.hist.accepted + [f]
      else
        c'.dispatcher == Waiting && c'.rx == c.rx && c'.hist == c.hist && c'.reg == ClientEndpoint.Fail(c, true).reg
  {
    CountedIff(c.rx, Hand(c.worker), f);
  }

  /** A frame inside the window of an open stream is refused only for the 256 frames held, or for
      the bytes of a SYN, which no window covers. */
  lemma RefusalExplained(c: Client, f: Frame)
    requires ReceiveInv(c) && FinishInv(c) && c.dispatcher == Found(Data(f)) && c.rx.windowActive && !f.IsSYN()
    requires c.rx.Count(f, true).Refused?
    ensures Finished(c.hist.accepted) || c.rx.received + f.FlowBytes() > c.rx.advertised
         || |c.rx.pending| + |Hand(c.worker)| == MAX_QUEUED_STREAM_FRAMES
         || SynTotal(c.rx.pending) + SynTotal(Hand(c.worker)) > 0
  {
    CountedIff(c.rx, Hand(c.worker), f);
    if c.rx.received + f.FlowBytes() <= c.rx.advertised && c.rx.queuedBytes + |f.payload| > INITIAL_STREAM_WINDOW {
      RefusedBytesExplained(c, f);
    }
  }

  // ---- When the stream leaves the table ----

  // A frame not admitted, or an invalid update: the peer is told.
  predicate Offends(c: Client, msg: Msg) {
    match msg
    case Data(f) => !Admits(c, f)
    case WindowUpdate(max) => max == 0
    case StreamReset => false
  }

  predicate EndsAnnounced(c: Client, s: Step) {
    s == Cancel || (s == Act && c.dispatcher.Found? && Offends(c, c.dispatcher.msg))
  }

  predicate EndsQuietly(c: Client, s: Step) {
    || (s == Act && c.dispatcher.Found? && c.dispatcher.msg.StreamReset?)
    || s == Work(SendUpdate(false))
    || (s == Writing(Write(false)) && c.writer.Charged? && c.writer.frame.IsSYN())
  }

  // Of the two closers, one that finds both directions finished.
  predicate EndsFinished(c: Client, s: Step) {
    (s == Work(CheckBoth) || s == Writing(CheckBothSent)) && c.reg.inboundDelivered && c.reg.outboundFIN
  }

  predicate EndsAsDue(c: Client, s: Step, reg: Registry) {
    && (!reg.inTable <==> EndsAnnounced(c, s) || EndsQuietly(c, s) || EndsFinished(c, s) || s == DetachAll)
    && reg.removal == (if EndsAnnounced(c, s) then FailAndReset else if EndsQuietly(c, s) then FailQuietly else Settled)
  }

  /** The stream leaves the table exactly when its caller closes it, a frame is not admitted or an
      update is invalid, the peer resets it, an update or its SYN cannot be sent, both directions
      have finished, or with the session; and it is marked for a reset exactly in the first three. */
  lemma RemovedIff(c: Client, s: Step)
    requires ReceiveInv(c) && FinishInv(c) && CloseInv(c) && c.reg.inTable && NextOf(c, s).To?
    ensures EndsAsDue(c, s, NextOf(c, s).c.reg)
  {
    match s
    case Act => RemovedIffByAct(c);
    case Push => PushKeeps(c.rx, Hand(c.worker), c.dispatcher.f);
    case Work(m) => RemovedIffByWorker(c, m);
    case Writing(m) => RemovedIffByWriter(c, m);
    case Lookup(_) =>
    case PushAbandoned =>
    case _ =>
  }

  lemma RemovedIffByAct(c: Client)
    requires ReceiveInv(c) && FinishInv(c) && CloseInv(c) && c.reg.inTable && c.dispatcher.Found?
    ensures EndsAsDue(c, Act, ActOn(c, c.dispatcher.msg).reg)
  {
    if c.dispatcher.msg.Data? { AcceptedIffAdmitted(c, c.dispatcher.msg.frame); }
  }

  lemma RemovedIffByWorker(c: Client, m: WorkerMove)
    requires CloseInv(c) && c.reg.inTable && WorkerStep(c, m).To?
    ensures EndsAsDue(c, Work(m), WorkerStep(c, m).c.reg)
  {
  }

  lemma RemovedIffByWriter(c: Client, m: WriterMove)
    requires CloseInv(c) && c.reg.inTable && WriterStep(c, m).To?
    ensures EndsAsDue(c, Writing(m), WriterStep(c, m).c.reg)
  {
  }

  // ---- Out of the table ----

  // A stream out of the table is finished, or abandoned, or about to be; once failed it lets no writer on.
  ghost predicate OutInv(c: Client) {
    && (!c.reg.inTable ==>
          c.reg.abandoned || c.reg.removal != Settled || (c.reg.inboundDelivered && c.reg.outboundFIN))
    && (c.reg.removal.AbandonQuietly? || c.reg.removal.AbandonAndReset? || c.reg.resetDue ==> c.tx.failed)
  }

  lemma OutKept(c: Client, s: Step)
    requires OutInv(c) && NextOf(c, s).To?
    ensures OutInv(NextOf(c, s).c)
  {
    match s
    case Act => OutKeptByAct(c);
    case Work(m) => OutKeptByWorker(c, m);
    case Writing(m) => OutKeptByWriter(c, m);
    case Lookup(_) =>
    case Push =>
    case PushAbandoned =>
    case _ =>
  }

  lemma OutKeptByAct(c: Client)
    requires OutInv(c) && c.dispatcher.Found?
    ensures OutInv(ActOn(c, c.dispatcher.msg))
  {
  }

  lemma OutKeptByWorker(c: Client, m: WorkerMove)
    requires OutInv(c) && WorkerStep(c, m).To?
    ensures OutInv(WorkerStep(c, m).c)
  {
  }

  lemma OutKeptByWriter(c: Client, m: WriterMove)
    requires OutInv(c) && WriterStep(c, m).To?
    ensures OutInv(WriterStep(c, m).c)
  {
  }

  lemma {:induction false} OutInRun(c: Client, steps: seq<Step>)
    requires OutInv(c) && Run(c, steps).To?
    ensures OutInv(Run(c, steps).c)
    decreases |steps|
  {
    if steps != [] {
      OutKept(c, steps[0]);
      OutInRun(NextOf(c, steps[0]).c, steps[1..]);
    }
  }

  /** Over every run a stream out of the table has finished, or is abandoned, which frees its worker, or
      a failure that has still to abandon it is on its way. */
  lemma OutOverRuns(c0: Client, steps: seq<Step>)
    requires c0 == OPENED && Run(c0, steps).To?
    ensures OutInv(Run(c0, steps).c)
  {
    OutAtOpening(c0);
    OutInRun(c0, steps);
  }

  lemma OutAtOpening(c: Client)
    requires c == OPENED
    ensures OutInv(c)
  {
  }

  // ---- What becomes of what was accepted ----

  // Everything received is consumed, pending, or with the dispatcher or the worker.
  ghost predicate AllConsumed(rx: Receiving, d: Dispatcher, w: Worker) {
    rx.received == rx.consumed + FlowTotal(rx.pending) + FlowOf(InDispatch(d)) + FlowOf(Hand(w))
  }

  // The FIN, once handed over, closes the inbound direction, and nothing else does.
  ghost predicate ClosesInbound(w: Worker, delivered: seq<Frame>, inboundDelivered: bool) {
    && (Finished(delivered) ==> w.HandedOver? || w.Closing? || inboundDelivered)
    && (inboundDelivered ==> Finished(delivered) && (w.Detaching? || w.Exited?))
  }

  // While the stream is kept and its worker has not left.
  ghost predicate TendInv(c: Client) {
    && (c.reg.inTable && !c.worker.Exited? ==> AllConsumed(c.rx, c.dispatcher, c.worker))
    && ClosesInbound(c.worker, c.hist.delivered, c.reg.inboundDelivered)
    && (c.worker.Exited? ==> !c.reg.inTable || c.reg.abandoned || c.reg.sessionDone || c.reg.inboundDelivered)
  }

  lemma TendKept(c: Client, s: Step)
    requires TendInv(c) && CloseInv(c) && FinishInv(c) && NextOf(c, s).To?
    ensures TendInv(NextOf(c, s).c)
  {
    match s
    case Act => TendKeptByAct(c);
    case Work(m) => TendKeptByWorker(c, m);
    case Writing(m) => WriterOnlyActivates(c, m); WriterTends(c, m);
    case Push => TotalsStep(c.rx.pending, c.dispatcher.f);
    case Lookup(_) =>
    case PushAbandoned =>
    case _ =>
  }

  lemma CountAdds(rx: Receiving, f: Frame, w: Worker)
    requires rx.Count(f, true).Counted? && AllConsumed(rx, Waiting, w)
    ensures AllConsumed(rx.Count(f, true).rx, Counting(f), w)
  {
  }

  lemma TendKeptByAct(c: Client)
    requires TendInv(c) && c.dispatcher.Found?
    ensures TendInv(ActOn(c, c.dispatcher.msg))
  {
    var msg := c.dispatcher.msg;
    if msg.Data? && c.rx.Count(msg.frame, true).Counted? && AllConsumed(c.rx, Waiting, c.worker) {
      CountAdds(c.rx, msg.frame, c.worker);
    }
  }

  lemma WriterTends(c: Client, m: WriterMove)
    requires WriterStep(c, m).To?
    ensures var c' := WriterStep(c, m).c;
      && c'.rx.received == c.rx.received && c'.rx.consumed == c.rx.consumed && c'.rx.pending == c.rx.pending
      && (c'.reg.inTable ==> c.reg.inTable) && c'.reg.abandoned == c.reg.abandoned
      && c'.reg.inboundDelivered == c.reg.inboundDelivered
  {
  }

  lemma TendKeptByWorker(c: Client, m: WorkerMove)
    requires TendInv(c) && FinishInv(c) && WorkerStep(c, m).To?
    ensures TendInv(WorkerStep(c, m).c)
  {
  }

  lemma {:induction false} TendInRun(c: Client, steps: seq<Step>)
    requires TendInv(c) && RunInv(c) && Run(c, steps).To?
    ensures TendInv(Run(c, steps).c)
    decreases |steps|
  {
    if steps != [] {
      TendKept(c, steps[0]);
      RunInvKept(c, steps[0]);
      TendInRun(NextOf(c, steps[0]).c, steps[1..]);
    }
  }

  /** Over every run: while the stream is kept and its worker at work, every window byte received is
      consumed or still held; the worker leaves a kept stream only with the session or after the FIN; and
      the inbound direction closes with the FIN, once that is handed over. */
  lemma TendedOverRuns(c0: Client, steps: seq<Step>)
    requires c0 == OPENED && Run(c0, steps).To?
    ensures TendInv(Run(c0, steps).c)
  {
    RunInvAtOpening(c0);
    TendAtOpening(c0);
    TendInRun(c0, steps);
  }

  lemma TendAtOpening(c: Client)
    requires c == OPENED
    ensures TendInv(c)
  {
  }

  // ---- What a run accepts ----

  function Arrivals(steps: seq<Step>): seq<Frame> {
    if steps == [] then []
    else (if steps[0].Lookup? && steps[0].msg.Data? then [steps[0].msg.frame] else []) + Arrivals(steps[1..])
  }

  // The frame looked up and not acted on yet.
  function LookedUp(d: Dispatcher): seq<Frame> { if d.Found? && d.msg.Data? then [d.msg.frame] else [] }

  function Reached(c: Client): seq<Frame> { c.hist.accepted + LookedUp(c.dispatcher) }

  lemma ArrivalsStep(c: Client, s: Step)
    requires NextOf(c, s).To? && NextOf(c, s).c.reg.inTable
    ensures c.reg.inTable && Reached(NextOf(c, s).c) == Reached(c) + Arrivals([s])
  {
    match s
    case Act => ArrivalsByAct(c);
    case Work(m) => FinishedByWorker(c, m);
    case Writing(m) => WriterOnlyActivates(c, m); WriterRemoves(c, m);
    case Lookup(_) =>
    case Push =>
    case PushAbandoned =>
    case _ =>
  }

  lemma ArrivalsByAct(c: Client)
    requires c.dispatcher.Found? && ActOn(c, c.dispatcher.msg).reg.inTable
    ensures c.reg.inTable && Reached(ActOn(c, c.dispatcher.msg)) == Reached(c)
  {
  }

  lemma FinishedByWorker(c: Client, m: WorkerMove)
    requires WorkerStep(c, m).To?
    ensures var c' := WorkerStep(c, m).c;
      c'.hist.accepted == c.hist.accepted && c'.dispatcher == c.dispatcher && (c'.reg.inTable ==> c.reg.inTable)
  {
  }

  lemma WriterRemoves(c: Client, m: WriterMove)
    requires WriterStep(c, m).To?
    ensures WriterStep(c, m).c.reg.inTable ==> c.reg.inTable
  {
  }

  lemma ArrivalsSplit(steps: seq<Step>)
    requires steps != []
    ensures Arrivals(steps) == Arrivals([steps[0]]) + Arrivals(steps[1..])
  {
  }

  lemma {:induction false} ArrivalsInRun(c: Client, steps: seq<Step>)
    requires Run(c, steps).To? && Run(c, steps).c.reg.inTable
    ensures c.reg.inTable && Reached(Run(c, steps).c) == Reached(c) + Arrivals(steps)
    decreases |steps|
  {
    if steps != [] {
      var next := NextOf(c, steps[0]).c;
      ArrivalsInRun(next, steps[1..]);
      ArrivalsStep(c, steps[0]);
      ArrivalsSplit(steps);
      Chained(Reached(c), Arrivals([steps[0]]), Reached(next), Arrivals(steps[1..]), Reached(Run(c, steps).c));
    }
  }

  /** While the stream is in the table, it has accepted every frame that arrived, in order. */
  lemma AllArrivalsAccepted(c0: Client, steps: seq<Step>)
    requires c0 == OPENED && Run(c0, steps).To? && Run(c0, steps).c.reg.inTable
    ensures Reached(Run(c0, steps).c) == Arrivals(steps)
  {
    ArrivalsInRun(c0, steps);
    NothingYet(c0);
    assert Reached(c0) + Arrivals(steps) == Arrivals(steps);
  }

  lemma NothingYet(c: Client)
    requires c == OPENED
    ensures Reached(c) == [] && FinishInv(c) && Resets(c.hist.log) == 0 && Due(c) == 0
  {
  }

  // ---- Resets ----

  // A reset on its way: the failure has yet to take effect, or the goroutine to send it.
  function Due(c: Client): nat {
    if c.reg.removal.FailAndReset? || c.reg.removal.AbandonAndReset? || c.reg.resetDue then 1 else 0
  }

  function Announced(c: Client, s: Step): nat { if c.reg.inTable && EndsAnnounced(c, s) then 1 else 0 }

  function Unsent(s: Step): nat { if s == SendReset(false) then 1 else 0 }

  lemma ResetsSent(c: Client, s: Step)
    requires NextOf(c, s).To?
    ensures Resets(NextOf(c, s).c.hist.log) == Resets(c.hist.log) + if s == SendReset(true) then 1 else 0
  {
    match s
    case SendReset(sent) => ResetsGrow(c.hist.log, StreamReset);
    case Work(m) => if m == SendUpdate(true) { ResetsGrow(c.hist.log, WindowUpdate(c.worker.max)); }
    case Writing(m) => if m == Write(true) { ResetsGrow(c.hist.log, Data(c.writer.frame)); }
    case Lookup(_) =>
    case Act =>
    case Push =>
    case PushAbandoned =>
    case _ =>
  }

  // A thread's own steps cannot touch a removal once the stream is out of the table.
  lemma RemovalOutOfTable(c: Client, s: Step)
    requires !c.reg.inTable && NextOf(c, s).To?
    requires s != FailRemoved && s != Step.Abandon && !s.SendReset?
    ensures var reg := NextOf(c, s).c.reg;
      !reg.inTable && reg.removal == c.reg.removal && reg.resetDue == c.reg.resetDue
  {
    match s
    case Work(m) =>
    case Writing(m) =>
    case Lookup(_) =>
    case Act =>
    case Push =>
    case PushAbandoned =>
    case _ =>
  }

  lemma DueStep(c: Client, s: Step)
    requires ReceiveInv(c) && FinishInv(c) && CloseInv(c) && NextOf(c, s).To?
    ensures var c' := NextOf(c, s).c;
      && Due(c') + (if s.SendReset? then 1 else 0) == Due(c) + Announced(c, s)
      && (!c.reg.inTable || Announced(c, s) == 1 ==> !c'.reg.inTable)
  {
    if c.reg.inTable {
      RemovedIff(c, s);
      NoneDueInTable(c, s);
    } else if s != FailRemoved && s != Step.Abandon && !s.SendReset? {
      RemovalOutOfTable(c, s);
    }
  }

  lemma NoneDueInTable(c: Client, s: Step)
    requires CloseInv(c) && c.reg.inTable && NextOf(c, s).To?
    ensures Due(c) == 0 && !s.SendReset? && !NextOf(c, s).c.reg.resetDue
  {
    match s
    case Work(m) =>
    case Writing(m) =>
    case Lookup(_) =>
    case Act =>
    case Push =>
    case PushAbandoned =>
    case _ =>
  }

  // Over a run: failures announced while the stream was in the table, and resets that could not be sent.
  function AnnouncedIn(c: Client, steps: seq<Step>): nat
    decreases |steps|
  {
    if steps == [] || NextOf(c, steps[0]).Disabled? then 0
    else Announced(c, steps[0]) + AnnouncedIn(NextOf(c, steps[0]).c, steps[1..])
  }

  function UnsentIn(steps: seq<Step>): nat {
    if steps == [] then 0 else Unsent(steps[0]) + UnsentIn(steps[1..])
  }

  // Resets on the wire, on their way or given up, and whether one can still come to be.
  predicate Accounts(c: Client, c': Client, announced: nat, unsent: nat) {
    && Resets(c'.hist.log) + Due(c') + unsent == Resets(c.hist.log) + Due(c) + announced
    && (!c.reg.inTable ==> !c'.reg.inTable && announced == 0)
    && announced <= (if c'.reg.inTable then 0 else 1)
  }

  lemma ResetsStep(c: Client, s: Step)
    requires RunInv(c) && NextOf(c, s).To?
    ensures Accounts(c, NextOf(c, s).c, Announced(c, s), Unsent(s))
  {
    ResetsSent(c, s);
    DueStep(c, s);
  }

  lemma {:induction false} ResetsInRun(c: Client, steps: seq<Step>)
    requires RunInv(c) && Run(c, steps).To?
    ensures Accounts(c, Run(c, steps).c, AnnouncedIn(c, steps), UnsentIn(steps))
    decreases |steps|
  {
    if steps != [] {
      ResetsStep(c, steps[0]);
      RunInvKept(c, steps[0]);
      ResetsInRun(NextOf(c, steps[0]).c, steps[1..]);
    }
  }

  lemma RunInvAtOpening(c: Client)
    requires c == OPENED
    ensures RunInv(c)
  {
    InvAtOpening(c);
    NothingYet(c);
  }

  ghost predicate ResetsAsDue(c: Client, announced: nat, unsent: nat) {
    && Resets(c.hist.log) + Due(c) + unsent == announced <= 1
    && (c.reg.inTable ==> announced == 0)
  }

  lemma ResetsFromNone(c: Client, steps: seq<Step>)
    requires RunInv(c) && Resets(c.hist.log) == Due(c) == 0 && Run(c, steps).To?
    ensures ResetsAsDue(Run(c, steps).c, AnnouncedIn(c, steps), UnsentIn(steps))
  {
    ResetsInRun(c, steps);
  }

  /** Over every run, the stream is closed or offended against at most once, and then exactly one
      reset is on the wire, or on its way, or could not be sent; otherwise none ever is. */
  lemma ResetsAccounted(c0: Client, steps: seq<Step>)
    requires c0 == OPENED && Run(c0, steps).To?
    ensures ResetsAsDue(Run(c0, steps).c, AnnouncedIn(c0, steps), UnsentIn(steps))
  {
    RunInvAtOpening(c0);
    NothingYet(c0);
    ResetsFromNone(c0, steps);
  }

  // ---- Everything accepted can be delivered ----

  // How far the worker is from having handed over everything pending.
  function Distance(c: Client): nat {
    4 * |c.rx.pending| + match c.worker
      case Taken(_) => 3
      case HandedOver(_) => 2
      case Owing(_, _) => 1
      case _ => 0
  }

  predicate HandedAll(c: Client) { c.rx.pending == [] && !c.worker.Taken? }

  ghost predicate Working(c: Client) {
    RunInv(c) && c.reg.inTable && !c.reg.sessionDone && !c.worker.Exited?
  }

  // Nothing can be pending behind a FIN that was handed over.
  lemma NothingBehindFin(c: Client)
    requires Working(c) && Finished(c.hist.delivered)
    ensures c.rx.pending == []
  {
    var n := |c.hist.delivered| - 1;
    assert c.hist.accepted[n] == c.hist.delivered[n];
    var held := Held(c.rx, c.dispatcher, c.worker);
    assert |c.hist.accepted| == |c.hist.delivered| + |held|;
    assert |held| >= |c.rx.pending|;
  }

  // The worker's next move when nothing fails.
  function Onward(w: Worker): WorkerMove {
    match w
    case Taken(_) => HandOver
    case HandedOver(_) => Consume
    case Owing(_, _) => SendUpdate(true)
    case _ => Take
  }

  lemma Nearer(c: Client)
    requires c.reg.inTable && !c.reg.sessionDone && !HandedAll(c)
    requires !c.worker.Exited? && !c.worker.Closing? && !c.worker.Detaching?
    requires c.worker.HandedOver? ==> !c.worker.f.IsFIN()
    ensures var next := WorkerStep(c, Onward(c.worker));
      && next.To? && Distance(next.c) < Distance(c) && !next.c.worker.Exited?
      && next.c.reg == c.reg && next.c.hist.accepted == c.hist.accepted && next.c.dispatcher == c.dispatcher
  {
  }

  lemma WorkerGoesOn(c: Client)
    requires Working(c) && !HandedAll(c)
    ensures var next := WorkerStep(c, Onward(c.worker));
      && next.To? && Working(next.c) && Distance(next.c) < Distance(c)
      && next.c.hist.accepted == c.hist.accepted && next.c.dispatcher == c.dispatcher
  {
    if (c.worker.HandedOver? && c.worker.f.IsFIN()) || c.worker.Closing? || c.worker.Detaching? {
      NothingBehindFin(c);
    }
    Nearer(c);
    RunInvKept(c, Work(Onward(c.worker)));
  }

  lemma AllHanded(c: Client)
    requires Working(c) && HandedAll(c)
    ensures c.hist.delivered + InDispatch(c.dispatcher) == c.hist.accepted
  {
    assert Held(c.rx, c.dispatcher, c.worker) == InDispatch(c.dispatcher);
  }

  lemma RunStep(c: Client, s: Step, rest: seq<Step>)
    requires NextOf(c, s).To?
    ensures Run(c, [s] + rest) == Run(NextOf(c, s).c, rest)
  {
    assert ([s] + rest)[1..] == rest;
  }

  // The worker's own moves, that hand over everything accepted and change nothing else that matters.
  ghost predicate HandsOverAll(c: Client, moves: seq<Step>) {
    && Run(c, moves).To? && Working(Run(c, moves).c)
    && Run(c, moves).c.hist.delivered + InDispatch(c.dispatcher) == c.hist.accepted
    && forall i :: 0 <= i < |moves| ==> moves[i].Work?
  }

  lemma MoveFirst(c: Client, move: WorkerMove, rest: seq<Step>)
    requires WorkerStep(c, move).To? && HandsOverAll(WorkerStep(c, move).c, rest)
    requires WorkerStep(c, move).c.hist.accepted == c.hist.accepted && WorkerStep(c, move).c.dispatcher == c.dispatcher
    ensures HandsOverAll(c, [Work(move)] + rest)
  {
    RunStep(c, Work(move), rest);
  }

  /** While the session is up and the stream kept, the worker always has moves that hand over
      everything accepted so far, in order. */
  lemma {:induction false} AllCanBeDelivered(c: Client) returns (moves: seq<Step>)
    requires Working(c)
    ensures HandsOverAll(c, moves)
    decreases Distance(c)
  {
    if HandedAll(c) {
      moves := [];
      AllHanded(c);
    } else {
      WorkerGoesOn(c);
      var move := Onward(c.worker);
      var rest := AllCanBeDelivered(WorkerStep(c, move).c);
      MoveFirst(c, move, rest);
      moves := [Work(move)] + rest;
    }
  }

  // ---- Everything stops ----

  predicate Ended(c: Client) { c.reg.abandoned || c.reg.sessionDone }

  // How far the worker is from its end, once it need not go on.
  function ToGo(w: Worker): nat {
    match w
    case Exited => 0
    case Idle => 1
    case Taken(_) => 1
    case Owing(_, _) => 1
    case Detaching => 1
    case Closing => 2
    case HandedOver(_) => 3
  }

  function Stopping(w: Worker): WorkerMove {
    match w
    case Taken(_) => GiveBack
    case HandedOver(_) => Consume
    case Owing(_, _) => SendUpdate(false)
    case Closing => StoreDelivered
    case Detaching => CheckBoth
    case _ => Exit
  }

  lemma NearerEnd(c: Client)
    requires Ended(c) && !c.worker.Exited?
    ensures var next := WorkerStep(c, Stopping(c.worker));
      next.To? && ToGo(next.c.worker) < ToGo(c.worker) && Ended(next.c)
  {
  }

  /** Once the stream is abandoned or the session closed, the worker can always come to its end,
      without taking another frame or handing one over. */
  lemma {:induction false} WorkerCanStop(c: Client) returns (moves: seq<Step>)
    requires Ended(c)
    ensures Run(c, moves).To? && Run(c, moves).c.worker.Exited?
    ensures forall i :: 0 <= i < |moves| ==> moves[i].Work? && moves[i] != Work(Take) && moves[i] != Work(HandOver)
    decreases ToGo(c.worker)
  {
    if c.worker.Exited? {
      moves := [];
    } else {
      NearerEnd(c);
      var move := Work(Stopping(c.worker));
      var rest := WorkerCanStop(NextOf(c, move).c);
      RunStep(c, move, rest);
      moves := [move] + rest;
    }
  }

  function Leaving(w: Writer): WriterMove {
    match w
    case Reserving(_) => GiveUp
    case Charged(_) => Write(false)
    case SentFin => StoreOutbound
    case _ => CheckBothSent
  }

  function WriterToGo(w: Writer): nat {
    match w
    case Free => 0
    case Reserving(_) => 1
    case Charged(_) => 1
    case DetachingSend => 1
    case SentFin => 2
  }

  lemma WriterNearer(c: Client)
    requires Ended(c) && !c.writer.Free?
    ensures var next := WriterStep(c, Leaving(c.writer));
      next.To? && WriterToGo(next.c.writer) < WriterToGo(c.writer) && Ended(next.c)
  {
  }

  /** And a writer, waiting for credit or not, always has moves that give up the stream's write lock. */
  lemma {:induction false} WriterCanStop(c: Client) returns (moves: seq<Step>)
    requires Ended(c)
    ensures Run(c, moves).To? && Run(c, moves).c.writer.Free?
    decreases WriterToGo(c.writer)
  {
    if c.writer.Free? {
      moves := [];
    } else {
      WriterNearer(c);
      var move := Writing(Leaving(c.writer));
      var rest := WriterCanStop(NextOf(c, move).c);
      RunStep(c, move, rest);
      moves := [move] + rest;
    }
  }

  /** A failed stream turns a waiting writer away at once. */
  lemma FailedTurnsAway(c: Client)
    requires c.tx.failed && c.writer.Reserving?
    ensures var next := WriterStep(c, Reserve); next.To? && next.c.writer.Free? && next.c.tx == c.tx
  {
  }

  lemma ThreadsLeaveSession(c: Client, m: WorkerMove, w: WriterMove)
    ensures WorkerStep(c, m).To? ==> WorkerStep(c, m).c.reg.sessionDone == c.reg.sessionDone
    ensures WriterStep(c, w).To? ==> WriterStep(c, w).c.reg.sessionDone == c.reg.sessionDone
  {
  }

  lemma SessionDoneStep(c: Client, s: Step)
    requires NextOf(c, s).To?
    ensures NextOf(c, s).c.reg.sessionDone <==> c.reg.sessionDone || s == MarkSessionClosed
  {
    match s
    case Work(m) => ThreadsLeaveSession(c, m, Reserve);
    case Writing(m) => ThreadsLeaveSession(c, Take, m);
    case Lookup(_) =>
    case Act =>
    case Push =>
    case PushAbandoned =>
    case _ =>
  }

  /** The session is closed for the stream exactly once it was marked so in the run. */
  lemma {:induction false} SessionDoneIff(c: Client, steps: seq<Step>)
    requires Run(c, steps).To?
    ensures Run(c, steps).c.reg.sessionDone <==> c.reg.sessionDone || MarkSessionClosed in steps
    decreases |steps|
  {
    if steps != [] {
      SessionDoneStep(c, steps[0]);
      SessionDoneIff(NextOf(c, steps[0]).c, steps[1..]);
      assert steps == [steps[0]] + steps[1..];
    }
  }
}

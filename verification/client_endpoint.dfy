/**
 The client's end of one v4 stream as a transition system, one step per critical
 section or atomic access: the dispatcher, the delivery worker, the writers
 (serialised by writeMu), the goroutine that sends a reset, and the shutdown of
 the session. The peer may send anything.
 */
module ClientEndpoint {
  import opened Protocol
  import opened ClientStream
  import opened Wire

  datatype Dispatcher =
    | Waiting
    | Found(msg: Msg)       // looked the stream up; has yet to act
    | Counting(f: Frame)    // counted the frame; has yet to put it in the channel

  datatype Worker =
    | Idle
    | Taken(f: Frame)
    | HandedOver(f: Frame)              // the caller has it; consume is due
    | Owing(f: Frame, max: nat)         // a window update is due
    | Closing                           // the FIN was delivered; the flag is due
    | Detaching                         // flag stored; the check of both flags is due
    | Exited

  // The holder of writeMu.
  datatype Writer =
    | Free
    | Reserving(frame: Frame)
    | Charged(frame: Frame)
    | SentFin                           // the outbound flag is due
    | DetachingSend                     // flag stored; the check of both flags is due

  // How far a failure that removed the stream has got: stream.fail is one
  // critical section and one close of a channel.
  datatype Removal = Settled | FailQuietly | FailAndReset | AbandonQuietly | AbandonAndReset

  datatype Registry = Registry(
    inTable: bool, removal: Removal, resetDue: bool, sessionDone: bool, abandoned: bool,
    inboundDelivered: bool, outboundFIN: bool)

  // History: messages sent, reserved bytes whose send failed, frames accepted
  // by enqueue, and frames handed to the caller.
  datatype History = History(log: seq<Msg>, lost: nat, accepted: seq<Frame>, delivered: seq<Frame>)

  datatype Client = Client(
    rx: Receiving, tx: Sending, reg: Registry, dispatcher: Dispatcher, worker: Worker, writer: Writer,
    hist: History)

  const OPENED := Client(FRESH, Sending(0, 0, false), Registry(true, Settled, false, false, false, false, false),
                         Waiting, Idle, Free, History([], 0, [], []))

  datatype WorkerMove =
    | Take | HandOver | GiveBack | Consume | SendUpdate(sent: bool) | StoreDelivered | CheckBoth | Exit

  datatype WriterMove = Acquire(frame: Frame) | Reserve | GiveUp | Write(ok: bool) | StoreOutbound | CheckBothSent

  datatype Step =
    | Lookup(msg: Msg) | Act | Push | PushAbandoned
    | Cancel                                        // the caller closes the stream
    | FailRemoved | Abandon | SendReset(sent: bool) | MarkSessionClosed | DetachAll
    | Work(worker: WorkerMove)
    | Writing(writer: WriterMove)

  datatype Next = Disabled | To(c: Client)

  // detachStream inside failStream; FailRemoved and Abandon are the rest of it.
  function Fail(c: Client, notify: bool): Client {
    if !c.reg.inTable then c
    else c.(reg := c.reg.(inTable := false, removal := if notify then FailAndReset else FailQuietly))
  }

  function Send(c: Client, m: Msg): Client { c.(hist := c.hist.(log := c.hist.log + [m])) }

  function ActOn(c: Client, msg: Msg): Client {
    var idle := c.(dispatcher := Waiting);
    match msg
    case Data(f) =>
      (match c.rx.Count(f, true)
       case Refused(_) => Fail(idle, true)
       case Counted(rx) =>
         c.(rx := rx, dispatcher := Counting(f), hist := c.hist.(accepted := c.hist.accepted + [f])))
    case WindowUpdate(max) => if max == 0 then Fail(idle, true) else idle.(tx := c.tx.UpdateLimit(max))
    case StreamReset => Fail(idle, false)
  }

  function DispatcherStep(c: Client, s: Step): Next {
    var d := c.dispatcher;
    match s
    case Lookup(msg) =>
      if !d.Waiting? then Disabled else To(if c.reg.inTable then c.(dispatcher := Found(msg)) else c)
    case Act => if d.Found? then To(ActOn(c, d.msg)) else Disabled
    case Push =>
      if !d.Counting? then Disabled
      else if |c.rx.pending| < MAX_QUEUED_STREAM_FRAMES then
        To(c.(rx := c.rx.Push(d.f), dispatcher := Waiting))
      else To(Fail(c, true).(rx := c.rx.Release(d.f), dispatcher := Waiting))
    case PushAbandoned =>
      if d.Counting? && c.reg.abandoned then To(c.(rx := c.rx.Release(d.f), dispatcher := Waiting)) else Disabled
    case _ => Disabled
  }

  predicate Stopped(c: Client) { c.reg.abandoned || c.reg.sessionDone }

  // Both flags are set: leave the table.
  function Detach(c: Client): Client {
    if c.reg.inboundDelivered && c.reg.outboundFIN then c.(reg := c.reg.(inTable := false)) else c
  }

  function WorkerStep(c: Client, m: WorkerMove): Next {
    var w := c.worker;
    match m
    case Take =>
      if !w.Idle? || c.rx.pending == [] then Disabled
      else To(c.(rx := c.rx.Take(), worker := Taken(c.rx.pending[0])))
    case HandOver =>
      if !w.Taken? then Disabled
      else To(c.(worker := HandedOver(w.f), hist := c.hist.(delivered := c.hist.delivered + [w.f])))
    case GiveBack =>
      if w.Taken? && Stopped(c) then To(c.(rx := c.rx.Release(w.f), worker := Exited)) else Disabled
    case Consume =>
      if !w.HandedOver? then Disabled
      else
        var k := c.rx.Consume(w.f, true);
        To(c.(rx := k.rx, worker := if w.f.IsFIN() then Closing else if k.update != 0 then Owing(w.f,
            k.update) else Idle))
    case SendUpdate(sent) =>
      if !w.Owing? || (sent && c.reg.sessionDone) then Disabled
      else if sent then To(Send(c, WindowUpdate(w.max)).(worker := Idle))
      else To(Fail(c, false).(worker := Exited))
    case StoreDelivered =>
      if w.Closing? then To(c.(reg := c.reg.(inboundDelivered := true), worker := Detaching)) else Disabled
    case CheckBoth => if w.Detaching? then To(Detach(c).(worker := Exited)) else Disabled
    case Exit => if w.Idle? && Stopped(c) then To(c.(worker := Exited)) else Disabled
  }

  // The SYN opens the window in both directions before it goes on the wire.
  function ActivateWindow(c: Client): Client {
    if c.rx.windowActive then c
    else c.(rx := c.rx.Activate(), tx := c.tx.UpdateLimit(INITIAL_STREAM_WINDOW))
  }

  function WriterStep(c: Client, m: WriterMove): Next {
    var w := c.writer;
    match m
    case Acquire(f) =>
      if !w.Free? || !f.ValidPayload() then Disabled
      else if c.reg.outboundFIN then To(c)                         // errStreamFinished
      else if !f.IsSYN() && !c.rx.windowActive then To(c)          // errStreamNotStarted
      else if f.IsSYN() then To(ActivateWindow(c).(writer := Reserving(f)))
      else To(c.(writer := Reserving(f)))
    case Reserve =>
      if !w.Reserving? then Disabled
      else (match c.tx.TryReserve(w.frame.FlowBytes())
        case Failed => To(c.(writer := Free))
        case Reserved(tx) => To(c.(tx := tx, writer := Charged(w.frame)))
        case Blocked => Disabled)
    case GiveUp => if w.Reserving? && Stopped(c) then To(c.(writer := Free)) else Disabled
    case Write(ok) =>
      if !w.Charged? || (ok && c.reg.sessionDone) then Disabled
      else if ok then To(Send(c, Data(w.frame)).(writer := if w.frame.IsFIN() then SentFin else Free))
      else
        // Only a failed SYN fails the stream; any other frame's credit is gone.
        var after := if w.frame.IsSYN() then Fail(c, false) else c;
        To(after.(writer := Free, hist := c.hist.(lost := c.hist.lost + w.frame.FlowBytes())))
    case StoreOutbound =>
      if w.SentFin? then To(c.(reg := c.reg.(outboundFIN := true), writer := DetachingSend)) else Disabled
    case CheckBothSent => if w.DetachingSend? then To(Detach(c).(writer := Free)) else Disabled
  }

  function NextOf(c: Client, s: Step): Next {
    match s
    case Cancel => To(Fail(c, true))
    case FailRemoved =>
      if !c.reg.removal.FailQuietly? && !c.reg.removal.FailAndReset? then Disabled
      else To(c.(tx := c.tx.(failed := true),
                 reg := c.reg.(removal := if c.reg.removal.FailAndReset? then AbandonAndReset else AbandonQuietly)))
    case Abandon =>
      if !c.reg.removal.AbandonQuietly? && !c.reg.removal.AbandonAndReset? then Disabled
      else To(c.(reg := c.reg.(abandoned := true, removal := Settled, resetDue := c.reg.removal.AbandonAndReset?)))
    case SendReset(sent) =>
      if !c.reg.resetDue || !c.writer.Free? || (sent && c.reg.sessionDone) then Disabled
      else
        var after := if sent then Send(c, StreamReset) else c;
        To(after.(reg := c.reg.(resetDue := false)))
    case MarkSessionClosed => To(c.(reg := c.reg.(sessionDone := true)))
    case DetachAll =>
      if c.reg.sessionDone then To(c.(reg := c.reg.(inTable := false, abandoned := true))) else Disabled
    case Work(m) => WorkerStep(c, m)
    case Writing(m) => WriterStep(c, m)
    case _ => DispatcherStep(c, s)
  }

  // ---- Receive bounds ----

  function Hand(w: Worker): seq<Frame> { if w.Taken? || w.HandedOver? then [w.f] else [] }

  function InDispatch(d: Dispatcher): seq<Frame> { if d.Counting? then [d.f] else [] }

  function FlowOf(fs: seq<Frame>): nat { if fs == [] then 0 else fs[0].FlowBytes() }

  ghost predicate QueueOk(rx: Receiving, d: Dispatcher, w: Worker) {
    && Bounded(rx, InDispatch(d), Hand(w)) && WindowOk(rx)
    && (Hand(w) != [] || w.Owing? || rx.pending != [] || d.Counting? ==> rx.windowActive)
    && (w.Owing? ==> w.max == rx.advertised)
  }

  // Everything received is consumed or still held.
  ghost predicate AccountOk(rx: Receiving, d: Dispatcher, w: Worker) {
    rx.consumed + FlowTotal(rx.pending) + FlowOf(InDispatch(d)) + FlowOf(Hand(w)) <= rx.received
  }

  ghost predicate ReceiveInv(c: Client) {
    QueueOk(c.rx, c.dispatcher, c.worker) && AccountOk(c.rx, c.dispatcher, c.worker)
  }

  lemma ReceiveKept(c: Client, s: Step)
    requires ReceiveInv(c) && NextOf(c, s).To?
    ensures ReceiveInv(NextOf(c, s).c)
  {
    match s
    case Lookup(_) =>
    case PushAbandoned => ReceiveKeptByDispatcher(c, s);
    case Act => ReceiveKeptByDispatcher(c, s);
    case Push => ReceiveKeptByDispatcher(c, s);
    case Work(m) => ReceiveKeptByWorker(c, m);
    case Writing(m) => WriterOnlyActivates(c, m);
    case _ =>
  }

  lemma ReceiveKeptByDispatcher(c: Client, s: Step)
    requires ReceiveInv(c) && DispatcherStep(c, s).To?
    ensures ReceiveInv(DispatcherStep(c, s).c)
  {
    match s
    case Act => ReceiveKeptByAct(c);
    case Push => PushKeeps(c.rx, Hand(c.worker), c.dispatcher.f); TotalsStep(c.rx.pending, c.dispatcher.f);
    case PushAbandoned => assert PayloadTotal([c.dispatcher.f]) == |c.dispatcher.f.payload|;
    case _ =>
  }

  lemma ReceiveKeptByAct(c: Client)
    requires ReceiveInv(c) && DispatcherStep(c, Act).To?
    ensures ReceiveInv(DispatcherStep(c, Act).c)
  {
    if c.dispatcher.msg.Data? && c.rx.Count(c.dispatcher.msg.frame, true).Counted? {
      CountKeeps(c.rx, Hand(c.worker), c.dispatcher.msg.frame);
    }
  }

  lemma ReceiveKeptByConsume(c: Client)
    requires ReceiveInv(c) && WorkerStep(c, Consume).To?
    ensures ReceiveInv(WorkerStep(c, Consume).c)
  {
    ConsumeKeeps(c.rx, InDispatch(c.dispatcher), c.worker.f);
  }

  lemma ReceiveKeptByTaking(c: Client)
    requires ReceiveInv(c) && WorkerStep(c, Take).To?
    ensures ReceiveInv(WorkerStep(c, Take).c)
  {
    TakeKeeps(c.rx, InDispatch(c.dispatcher));
  }

  lemma ReceiveKeptByGivingBack(c: Client)
    requires ReceiveInv(c) && WorkerStep(c, GiveBack).To?
    ensures ReceiveInv(WorkerStep(c, GiveBack).c)
  {
    ReleaseKeeps(c.rx, InDispatch(c.dispatcher), c.worker.f);
  }

  lemma ReceiveKeptByWorker(c: Client, m: WorkerMove)
    requires ReceiveInv(c) && WorkerStep(c, m).To?
    ensures ReceiveInv(WorkerStep(c, m).c)
  {
    match m
    case Take => ReceiveKeptByTaking(c);
    case GiveBack => ReceiveKeptByGivingBack(c);
    case Consume => ReceiveKeptByConsume(c);
    case _ =>
  }

  lemma WriterOnlyActivates(c: Client, m: WriterMove)
    requires WriterStep(c, m).To?
    ensures var c' := WriterStep(c, m).c;
      && (c'.rx == c.rx || (!c.rx.windowActive && c'.rx == c.rx.Activate()))
      && c'.worker == c.worker && c'.dispatcher == c.dispatcher
      && c'.hist.accepted == c.hist.accepted && c'.hist.delivered == c.hist.delivered
  {
  }

  /** On the client only a counted SYN payload can keep an in-window frame out. */
  lemma RefusedBytesExplained(c: Client, f: Frame)
    requires ReceiveInv(c) && c.dispatcher == Found(Data(f))
    requires c.rx.received + f.FlowBytes() <= c.rx.advertised && !f.IsSYN()
    requires c.rx.queuedBytes + |f.payload| > INITIAL_STREAM_WINDOW
    ensures SynTotal(c.rx.pending) + SynTotal(Hand(c.worker)) > 0
  {
    PayloadIsFlowPlusSyn(c.rx.pending);
    PayloadIsFlowPlusSyn(Hand(c.worker));
    assert FlowTotal(Hand(c.worker)) == FlowOf(Hand(c.worker));
  }

  // ---- Delivery order ----

  // Frames accepted and not yet handed over, oldest first.
  function Held(rx: Receiving, d: Dispatcher, w: Worker): seq<Frame> {
    (if w.Taken? then [w.f] else []) + rx.pending + InDispatch(d)
  }

  // Nothing is lost or reordered while the stream is kept, and what the caller
  // got is always a prefix of what was accepted.
  ghost predicate InOrder(hist: History, held: seq<Frame>, exited: bool, kept: bool) {
    && hist.delivered <= hist.accepted
    && (!exited ==> hist.delivered + held <= hist.accepted)
    && (!exited && kept ==> hist.delivered + held == hist.accepted)
  }

  ghost predicate DeliveryInv(c: Client) {
    && (c.reg.abandoned ==> !c.reg.inTable)
    && InOrder(c.hist, Held(c.rx, c.dispatcher, c.worker), c.worker.Exited?, c.reg.inTable || !c.dispatcher.Waiting?)
  }

  lemma DeliveryKept(c: Client, s: Step)
    requires CloseInv(c) && DeliveryInv(c) && NextOf(c, s).To?
    ensures DeliveryInv(NextOf(c, s).c)
  {
    match s
    case Work(m) => DeliveryKeptByWorker(c, m);
    case Writing(m) => WriterOnlyActivates(c, m);
    case Act => DeliveryKeptByAct(c);
    case Push => DeliveryKeptByPush(c, s);
    case PushAbandoned => DeliveryKeptByPush(c, s);
    case _ =>
  }

  lemma DeliveryKeptByAct(c: Client)
    requires DeliveryInv(c) && c.dispatcher.Found?
    ensures DeliveryInv(ActOn(c, c.dispatcher.msg))
  {
    var held := (if c.worker.Taken? then [c.worker.f] else []) + c.rx.pending;
    var f := if c.dispatcher.msg.Data? then [c.dispatcher.msg.frame] else [];
    assert held + [] == held;
    assert c.hist.delivered + (held + f) == (c.hist.delivered + held) + f;
  }

  lemma DeliveryKeptByPush(c: Client, s: Step)
    requires DeliveryInv(c) && DispatcherStep(c, s).To? && (s == Push || s == PushAbandoned)
    ensures DeliveryInv(DispatcherStep(c, s).c)
  {
    var taken, q, f := if c.worker.Taken? then [c.worker.f] else [], c.rx.pending, c.dispatcher.f;
    assert taken + (q + [f]) + [] == taken + q + [f];
    assert c.hist.delivered + (taken + q + [f]) == (c.hist.delivered + (taken + q + [])) + [f];
  }

  lemma DeliveryKeptByWorker(c: Client, m: WorkerMove)
    requires DeliveryInv(c) && WorkerStep(c, m).To?
    ensures DeliveryInv(WorkerStep(c, m).c)
  {
    var d, q, k := c.hist.delivered, c.rx.pending, InDispatch(c.dispatcher);
    match m
    case Take => assert [] + q + k == [q[0]] + q[1..] + k;
    case HandOver => assert d + ([c.worker.f] + q + k) == (d + [c.worker.f]) + ([] + q + k);
    case _ =>
  }

  // ---- Directional close ----

  ghost predicate CloseInv(c: Client) {
    && (c.reg.abandoned ==> !c.reg.inTable)
    && (c.reg.inTable ==> c.reg.removal == Settled && !c.reg.resetDue)
    && (c.reg.resetDue ==> c.tx.failed && c.reg.removal == Settled)
    && (c.reg.removal.AbandonQuietly? || c.reg.removal.AbandonAndReset? ==> c.tx.failed)
    && (c.tx.failed ==> !c.reg.inTable)
    && (c.worker.Detaching? ==> c.reg.inboundDelivered)
    && (c.writer.DetachingSend? ==> c.reg.outboundFIN)
    && (c.writer.Reserving? || c.writer.Charged? || c.writer.SentFin? ==> !c.reg.outboundFIN)
    && (c.reg.inboundDelivered && c.reg.outboundFIN ==>
          !c.reg.inTable || c.worker.Detaching? || c.writer.DetachingSend?)
  }

  lemma CloseKept(c: Client, s: Step)
    requires CloseInv(c) && NextOf(c, s).To?
    ensures CloseInv(NextOf(c, s).c)
  {
    match s
    case Work(m) => CloseKeptByWorker(c, m);
    case Writing(m) => CloseKeptByWriter(c, m);
    case _ =>
  }

  lemma CloseKeptByWorker(c: Client, m: WorkerMove)
    requires CloseInv(c) && WorkerStep(c, m).To?
    ensures CloseInv(WorkerStep(c, m).c)
  {
  }

  lemma CloseKeptByWriter(c: Client, m: WriterMove)
    requires CloseInv(c) && WriterStep(c, m).To?
    ensures CloseInv(WriterStep(c, m).c)
  {
  }

  /** A stream leaves the table only once its FIN was sent and the peer's was delivered, or because
      its caller closed it, or something failed, or with the session. */
  lemma RemovedOnlyWhenFinishedOrFailed(c: Client, s: Step)
    requires CloseInv(c) && NextOf(c, s).To?
    requires c.reg.inTable && !NextOf(c, s).c.reg.inTable
    ensures (c.reg.inboundDelivered && c.reg.outboundFIN) || s == Cancel || s == DetachAll
         || s == Work(SendUpdate(false))
         || (s == Writing(Write(false)) && c.writer.frame.IsSYN())
         || (s == Act && ActFails(c.rx, c.dispatcher.msg))
         || (s == Push && |c.rx.pending| >= MAX_QUEUED_STREAM_FRAMES)
  {
  }

  predicate ActFails(rx: Receiving, msg: Msg) {
    match msg
    case Data(f) => rx.Count(f, true).Refused?
    case WindowUpdate(max) => max == 0
    case StreamReset => true
  }

  // ---- Terminal order on the wire ----

  ghost predicate TerminalInv(c: Client) {
    && TerminalOrder(c.hist.log)
    && (HasFin(c.hist.log) <==> c.reg.outboundFIN || c.writer.SentFin?)
    && (HasReset(c.hist.log) ==>
          && c.tx.failed && !c.reg.inTable && !c.reg.resetDue && c.reg.removal == Settled
          && (c.writer.Free? || c.writer.Reserving?))
  }

  lemma TerminalKept(c: Client, s: Step)
    requires CloseInv(c) && TerminalInv(c) && NextOf(c, s).To?
    ensures TerminalInv(NextOf(c, s).c)
  {
    match s
    case SendReset(sent) => LogGrows(c.hist.log, StreamReset);
    case Work(m) => TerminalKeptByWorker(c, m);
    case Writing(m) => TerminalKeptByWriter(c, m);
    case Lookup(_) =>
    case Act => TerminalKeptByDispatcher(c, s);
    case Push => TerminalKeptByDispatcher(c, s);
    case PushAbandoned => TerminalKeptByDispatcher(c, s);
    case _ =>
  }

  lemma TerminalKeptByDispatcher(c: Client, s: Step)
    requires CloseInv(c) && TerminalInv(c) && DispatcherStep(c, s).To?
    ensures TerminalInv(DispatcherStep(c, s).c)
  {
  }

  lemma TerminalKeptByWorker(c: Client, m: WorkerMove)
    requires CloseInv(c) && TerminalInv(c) && WorkerStep(c, m).To?
    ensures TerminalInv(WorkerStep(c, m).c)
  {
    if m.SendUpdate? && c.worker.Owing? { LogGrows(c.hist.log, WindowUpdate(c.worker.max)); }
  }

  lemma TerminalKeptByWriter(c: Client, m: WriterMove)
    requires CloseInv(c) && TerminalInv(c) && WriterStep(c, m).To?
    ensures TerminalInv(WriterStep(c, m).c)
  {
    if m == Write(true) {
      LogGrows(c.hist.log, Data(c.writer.frame));
    }
  }

  // ---- The last frame, and the first ----

  // A FIN being delivered has closed the direction to enqueue.
  ghost predicate FinInv(c: Client) {
    && (forall i :: 0 <= i < |c.rx.pending| && c.rx.pending[i].IsFIN() ==> c.rx.inboundFIN)
    && (c.dispatcher.Counting? && c.dispatcher.f.IsFIN() ==> c.rx.inboundFIN)
    && ((c.worker.Taken? || c.worker.HandedOver?) && c.worker.f.IsFIN() ==> c.rx.inboundFIN)
  }

  lemma FinKept(c: Client, s: Step)
    requires FinInv(c) && NextOf(c, s).To?
    ensures FinInv(NextOf(c, s).c)
    ensures c.rx.inboundFIN ==> NextOf(c, s).c.rx.inboundFIN
  {
    match s
    case Work(m) =>
    case Writing(m) => WriterOnlyActivates(c, m);
    case _ =>
  }

  predicate IsSynData(m: Msg) { m.Data? && m.frame.IsSYN() }

  // No frame of the stream precedes its SYN.
  ghost predicate SynFirst(log: seq<Msg>) {
    forall i, j :: 0 <= i < j < |log| && IsSynData(log[j]) ==> !log[i].Data?
  }

  ghost predicate NoData(log: seq<Msg>) {
    forall i :: 0 <= i < |log| ==> !log[i].Data?
  }

  ghost predicate OnlyResets(log: seq<Msg>) {
    forall i :: 0 <= i < |log| ==> log[i].StreamReset?
  }

  // When callers write one SYN, it opens the window and goes out first.
  ghost predicate SynInv(c: Client) {
    && (!c.rx.windowActive ==> c.writer.Free? && OnlyResets(c.hist.log) && !c.worker.Owing?)
    && ((c.writer.Reserving? || c.writer.Charged?) && c.writer.frame.IsSYN() ==> NoData(c.hist.log))
    && SynFirst(c.hist.log)
    && (if c.rx.windowActive then c.tx.limit >= INITIAL_STREAM_WINDOW else c.tx.sent == 0)
  }

  predicate SynOnce(c: Client, s: Step) {
    s.Writing? && s.writer.Acquire? && s.writer.frame.IsSYN() ==> !c.rx.windowActive
  }

  lemma SynKept(c: Client, s: Step)
    requires ReceiveInv(c) && SynInv(c) && SynOnce(c, s) && NextOf(c, s).To?
    ensures SynInv(NextOf(c, s).c)
  {
    if s.Writing? {
      SynKeptByWriter(c, s.writer);
    } else {
      OthersSendControls(c, s);
      OthersKeepWindow(c, s);
    }
  }

  lemma OthersKeepWindow(c: Client, s: Step)
    requires NextOf(c, s).To? && !s.Writing? && ReceiveInv(c)
    ensures var c' := NextOf(c, s).c;
      && c'.rx.windowActive == c.rx.windowActive
      && (c'.worker.Owing? ==> c.rx.windowActive)
  {
  }

  lemma SynKeptByWriter(c: Client, m: WriterMove)
    requires SynInv(c) && SynOnce(c, Writing(m)) && WriterStep(c, m).To?
    ensures SynInv(WriterStep(c, m).c)
  {
    if m == Write(true) {
      assert SynFirst(c.hist.log + [Data(c.writer.frame)]);
    }
  }

  // ---- What each thread sends ----

  function ChargedBytes(w: Writer): nat { if w.Charged? then w.frame.FlowBytes() else 0 }

  lemma WriterSends(c: Client, m: WriterMove)
    requires WriterStep(c, m).To? && c.tx.sent <= c.tx.limit
    ensures var c' := WriterStep(c, m).c;
      var sent := if m == Write(true) then [Data(c.writer.frame)] else [];
      && c'.hist.log == c.hist.log + sent
      && c'.tx.sent <= c'.tx.limit
      && c'.tx.sent - ChargedBytes(c'.writer) - c'.hist.lost
           == c.tx.sent - ChargedBytes(c.writer) - c.hist.lost + (if m == Write(true) then c.writer.frame.FlowBytes()
               else 0)
  {
  }

  // The update the worker is about to send.
  function Owes(w: Worker): nat { if w.Owing? then w.max else 0 }

  // In the table, and the peer has not finished its direction.
  predicate Serves(c: Client) { c.reg.inTable && !c.rx.inboundFIN }

  lemma WorkerCredits(c: Client, m: WorkerMove) returns (move: CreditMove)
    requires ReceiveInv(c) && FinInv(c) && WorkerStep(c, m).To?
    ensures var c' := WorkerStep(c, m).c;
      && CreditMoves(move, c.rx.advertised, Owes(c.worker), c'.rx.advertised, Owes(c'.worker))
      && c'.hist.log == c.hist.log + (if move.Announced? then [WindowUpdate(Owes(c.worker))] else [])
      && (Serves(c') ==> Serves(c) && !move.Abandoned? && !move.Silent?)
      && c'.writer == c.writer && c'.tx == c.tx && c'.dispatcher == c.dispatcher
  {
    match m
    case Consume =>
      ConsumeKeeps(c.rx, InDispatch(c.dispatcher), c.worker.f);
      move := if c.rx.Consume(c.worker.f,
          true).update == 0 then Same else if c.worker.f.IsFIN() then Silent else Earned;
    case SendUpdate(sent) => move := if sent then Announced else Abandoned;
    case _ => move := Same;
  }

  lemma OthersSendControls(c: Client, s: Step)
    requires NextOf(c, s).To? && !s.Writing?
    ensures var c' := NextOf(c, s).c;
      && c'.writer == c.writer && c'.hist.lost == c.hist.lost
      && c'.tx.sent == c.tx.sent && c.tx.limit <= c'.tx.limit
      && (c'.hist.log == c.hist.log
          || c'.hist.log == c.hist.log + [StreamReset]
          || (c.worker.Owing? && c'.hist.log == c.hist.log + [WindowUpdate(c.worker.max)]))
  {
  }

  // ---- Runs ----

  function Run(c: Client, steps: seq<Step>): Next
    decreases |steps|
  {
    if steps == [] then To(c)
    else match NextOf(c, steps[0])
      case Disabled => Disabled
      case To(c') => Run(c', steps[1..])
  }

  ghost predicate Inv(c: Client) {
    ReceiveInv(c) && CloseInv(c) && DeliveryInv(c) && TerminalInv(c)
  }

  lemma StepKeepsInv(c: Client, s: Step)
    requires Inv(c) && NextOf(c, s).To?
    ensures Inv(NextOf(c, s).c)
  {
    ReceiveKept(c, s);
    CloseKept(c, s);
    DeliveryKept(c, s);
    TerminalKept(c, s);
  }

  /** Every run of a stream, against any peer, keeps all four invariants. */
  lemma {:induction false} RunKeepsInv(c: Client, steps: seq<Step>)
    requires Inv(c) && Run(c, steps).To?
    ensures Inv(Run(c, steps).c)
    decreases |steps|
  {
    if steps != [] {
      StepKeepsInv(c, steps[0]);
      RunKeepsInv(NextOf(c, steps[0]).c, steps[1..]);
    }
  }

  lemma InvAtOpening(c: Client)
    requires c == OPENED
    ensures Inv(c)
  {
    ReceiveAtOpening(c);
    NothingSentAtOpening(c);
  }

  lemma NothingSentAtOpening(c: Client)
    requires c == OPENED
    ensures CloseInv(c) && DeliveryInv(c) && TerminalInv(c)
  {
  }

  lemma ReceiveAtOpening(c: Client)
    requires c.rx == FRESH && c.dispatcher.Waiting? && c.worker.Idle?
    ensures ReceiveInv(c)
  {
    EmptyQueueOk(c.rx, c.dispatcher, c.worker);
  }

  lemma EmptyQueueOk(rx: Receiving, d: Dispatcher, w: Worker)
    requires rx.pending == [] && rx.queuedFrames == rx.queuedBytes == 0 && d.Waiting? && w.Idle?
    requires WindowOk(rx) && rx.consumed <= rx.received
    ensures QueueOk(rx, d, w) && AccountOk(rx, d, w)
  {
  }

  // What the invariants promise a caller and the peer.
  ghost predicate Promises(c: Client) {
    && Bounded(c.rx, InDispatch(c.dispatcher), Hand(c.worker))
    && c.hist.delivered <= c.hist.accepted
    && TerminalOrder(c.hist.log)
    && (c.reg.inboundDelivered && c.reg.outboundFIN && c.reg.inTable ==>
          c.worker.Detaching? || c.writer.DetachingSend?)
  }

  lemma InvPromises(c: Client)
    requires Inv(c)
    ensures Promises(c)
  {
  }

  /** Over every run of a stream: the counters are exact and within both bounds, the caller has got a
      prefix of what was accepted, the log is in terminal order, and once both directions have
      finished the stream is gone, or one of the two closers is about to remove it. */
  lemma OverRuns(c0: Client, steps: seq<Step>)
    requires c0 == OPENED && Run(c0, steps).To?
    ensures Promises(Run(c0, steps).c)
  {
    InvAtOpening(c0);
    RunKeepsInv(c0, steps);
    InvPromises(Run(c0, steps).c);
  }
}

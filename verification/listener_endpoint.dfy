/**
 The listener's end of one stream incarnation as a transition system, one
 step per critical section: the dispatcher, the stream's worker, the writers
 (serialised by writeMu), the goroutine that sends a reset, and the shutdown
 of the session. The peer may send anything.
 */
module ListenerEndpoint {
  import opened Protocol
  import opened ListenerStream
  import opened Wire

  datatype Event =
    | OnSYN(payload: seq<Byte>, final: bool)
    | OnDAT(payload: seq<Byte>)
    | OnFragment(payload: seq<Byte>, more: bool)
    | OnFIN(payload: seq<Byte>)

  // Where the worker stands with the frame it took from the queue.
  datatype Worker =
    | Idle
    | Taken(f: Frame)
    | Handled(f: Frame)                        // the handler accepted it; consumption is due
    | Owing(f: Frame, max: nat)                // consumed; a window update is due
    | Announcing(f: Frame, max: nat)           // past sendWindowUpdate's lock, not yet sent
    | Closing(f: Frame)                        // markReceiveClosed is due
    | Finishing(f: Frame)                      // saw both directions closed; removal is due
    | Stopping(f: Frame)                       // removed; stopNow is due
    | Done(f: Frame, ok: bool, eaten: bool)    // dequeued is due
    | Failing                                  // failStream is due
    | Exited

  // The holder of writeMu.
  datatype Writer =
    | Free
    | Reserving(frame: Frame)
    | Charged(frame: Frame)                    // credit reserved; the frame is not yet sent
    | SentFin                                  // markSendClosed is due
    | FinishingSend
    | StoppingSend

  // failStream or Close removed the stream from the table and has yet to stop it.
  datatype Removal = Settled | StopQuietly | StopAndReset

  datatype Registry = Registry(inTable: bool, removal: Removal, resetDue: bool, sessionDone: bool)

  // What the handler has seen. History: the frames enqueued so far, and the
  // handler calls made.
  datatype Handling = Handling(fragmenting: bool, accepted: seq<Frame>, events: seq<Event>)

  // History: messages sent, closers that found both directions finished,
  // reserved bytes whose send failed, and whether a failure was announced.
  datatype Output = Output(log: seq<Msg>, closers: nat, lost: nat, notice: bool)

  datatype Listener = Listener(
    st: Stream, reg: Registry, worker: Worker, handling: Handling, writer: Writer, out: Output)

  // handleStreamFrame has just created the stream and enqueued its SYN.
  function Opened(syn: Frame, flow: bool): Listener
    requires New(flow).Enqueue(syn).Accepted?
  {
    Listener(New(flow).(rx := New(flow).Enqueue(syn).rx), Registry(true, Settled, false, false), Idle,
             Handling(false, [syn], []), Free, Output([], 0, 0, false))
  }

  datatype WorkerMove =
    | Take | Drop | Handle(ok: bool, fragments: bool) | Consume | Announce | SendUpdate(sent: bool)
    | CloseReceive | FinishReceive | StopReceive | Dequeue | FailWorker | Exit

  datatype WriterMove =
    | Acquire(frame: Frame) | Reserve | GiveUp | Write(ok: bool) | CloseSend | FinishSend | StopSend

  datatype Step =
    | Deliver(msg: Msg, stale: bool)           // stale: looked up before the stream was removed
    | StopRemoved | SendReset(sent: bool) | CloseSession
    | Work(worker: WorkerMove)
    | Writing(writer: WriterMove)

  datatype Next = Disabled | To(l: Listener)

  // The table section of failStream; StopRemoved is the rest of it.
  function Fail(l: Listener, notify: bool): Listener {
    if !l.reg.inTable then l
    else l.(reg := l.reg.(inTable := false, removal := if notify then StopAndReset else StopQuietly))
  }

  function Send(l: Listener, m: Msg): Listener { l.(out := l.out.(log := l.out.log + [m])) }

  function DeliverMsg(l: Listener, msg: Msg, found: bool): Listener {
    if !found then l
    else match msg
      case Data(f) =>
        if f.IsSYN() then Fail(l, true)
        else (match l.st.Enqueue(f)
          case Accepted(rx) => l.(st := l.st.(rx := rx), handling := l.handling.(accepted := l.handling.accepted + [f]))
          case Refused(_) => Fail(l, true))
      case WindowUpdate(max) =>
        if !l.st.rx.flow then l else if max == 0 then Fail(l, true) else l.(st := l.st.UpdateSendMax(max))
      case StreamReset => if l.st.rx.flow then Fail(l, false) else l
  }

  // The handler call processStreamFrame makes for a frame; none when the frame
  // is an error of its own.
  function CallFor(f: Frame, fragmenting: bool, fragments: bool): seq<Event> {
    if f.IsSYN() then [OnSYN(f.payload, f.IsFIN())]
    else if f.IsFIN() then
      if f.IsMORE() || fragmenting then [] else [OnFIN(f.payload)]
    else if f.IsMORE() || fragmenting then
      if fragments then [OnFragment(f.payload, f.IsMORE())] else []
    else [OnDAT(f.payload)]
  }

  function Called(h: Handling, e: Event): Handling {
    h.(events := h.events + [e], fragmenting := if e.OnFragment? then e.more else h.fragmenting)
  }

  // processStreamFrame up to the consumption of the frame.
  function HandleFrame(l: Listener, f: Frame, ok: bool, fragments: bool): Listener {
    var calls := CallFor(f, l.handling.fragmenting, fragments);
    if calls == [] then l.(worker := Done(f, false, false))
    else l.(handling := Called(l.handling, calls[0]),
            worker := if !ok then Done(f, false, false)
                      else if !f.IsSYN() then Handled(f)
                      else if f.IsFIN() then Closing(f) else Done(f, true, false))
  }

  // Once the window is replenished: a FIN still has to close the direction.
  function Replenished(f: Frame): Worker {
    if f.IsFIN() then Closing(f) else Done(f, true, true)
  }

  function WorkerStep(l: Listener, s: WorkerMove): Next {
    var w := l.worker;
    match s
    case Take =>
      if !w.Idle? || l.st.rx.queue == [] then Disabled
      else To(l.(st := l.st.(rx := l.st.rx.Take()), worker := Taken(l.st.rx.queue[0])))
    case Exit => if w.Idle? && (l.st.closed || l.reg.sessionDone) then To(l.(worker := Exited)) else Disabled
    case Drop =>
      if w.Taken? && l.st.closed then To(l.(st := l.st.(rx := l.st.rx.Dequeued(w.f)), worker := Exited)) else Disabled
    case Handle(ok, fragments) => if w.Taken? then To(HandleFrame(l, w.f, ok, fragments)) else Disabled
    case Consume =>
      if !w.Handled? then Disabled
      else
        var c := l.st.Consume(w.f.FlowBytes());
        To(l.(st := l.st.(rx := c.rx), worker := if c.update != 0 then Owing(w.f, c.update) else Replenished(w.f)))
    case Announce =>
      if !w.Owing? then Disabled
      else if l.st.closed then To(l.(worker := Done(w.f, false, true)))
      else To(l.(st := l.st.(rx := l.st.rx.Announce(w.max)), worker := Announcing(w.f, w.max)))
    case SendUpdate(ok) =>
      if !w.Announcing? then Disabled
      else if ok then To(Send(l, WindowUpdate(w.max)).(worker := Replenished(w.f)))
      else To(l.(worker := Done(w.f, false, true)))
    case CloseReceive =>
      if !w.Closing? then Disabled
      else
        var complete := l.st.sendFIN;
        To(l.(st := l.st.(receiveFIN := true), out := l.out.(closers := l.out.closers + if complete then 1 else 0),
              worker := if complete then Finishing(w.f) else Done(w.f, true, true)))
    case FinishReceive => if w.Finishing? then To(l.(reg := l.reg.(inTable := false),
        worker := Stopping(w.f))) else Disabled
    case StopReceive =>
      if w.Stopping? then To(l.(st := l.st.(closed := true), worker := Done(w.f, true, true))) else Disabled
    case Dequeue =>
      if w.Done? then To(l.(st := l.st.(rx := l.st.rx.Dequeued(w.f)),
          worker := if w.ok then Idle else Failing)) else Disabled
    case FailWorker => if w.Failing? then To(Fail(l, true).(worker := Exited)) else Disabled
  }

  function WriterStep(l: Listener, s: WriterMove): Next {
    var w := l.writer;
    match s
    case Acquire(f) =>
      if !w.Free? || !f.ValidPayload() then Disabled
      else if l.st.sendFIN then To(l)  // errStreamFinished
      else To(l.(writer := Reserving(f)))
    case Reserve =>
      if !w.Reserving? then Disabled
      else (match l.st.TryReserve(w.frame.FlowBytes())
        case Closed => To(l.(writer := Free))
        case Reserved(st) => To(l.(st := st, writer := Charged(w.frame)))
        case Blocked => Disabled)
    case GiveUp => if w.Reserving? && l.reg.sessionDone then To(l.(writer := Free)) else Disabled
    case Write(ok) =>
      if !w.Charged? then Disabled
      else if ok then To(Send(l, Data(w.frame)).(writer := if w.frame.IsFIN() then SentFin else Free))
      else To(Fail(l, false).(writer := Free, out := l.out.(lost := l.out.lost + w.frame.FlowBytes())))
    case CloseSend =>
      if !w.SentFin? then Disabled
      else
        var complete := l.st.receiveFIN;
        To(l.(st := l.st.(sendFIN := true), out := l.out.(closers := l.out.closers + if complete then 1 else 0),
              writer := if complete then FinishingSend else Free))
    case FinishSend => if w.FinishingSend? then To(l.(reg := l.reg.(inTable := false),
        writer := StoppingSend)) else Disabled
    case StopSend => if w.StoppingSend? then To(l.(st := l.st.(closed := true), writer := Free)) else Disabled
  }

  // What failStream tells the peer: a reset, or an empty FIN to a legacy peer.
  function Notice(l: Listener): Msg {
    if l.st.rx.flow then StreamReset
    else Data(Frame(if l.handling.accepted == [] then 0 else l.handling.accepted[0].streamID, FLAG_FIN, []))
  }

  function NextOf(l: Listener, s: Step): Next {
    match s
    case Deliver(msg, stale) => To(DeliverMsg(l, msg, l.reg.inTable || stale))
    case StopRemoved =>
      if l.reg.removal == Settled then Disabled
      else To(l.(st := l.st.(closed := true),
                 reg := l.reg.(removal := Settled, resetDue := l.reg.removal == StopAndReset && !l.st.closed)))
    case SendReset(sent) =>
      if !l.reg.resetDue || !l.writer.Free? then Disabled
      else
        var after := if sent then Send(l, Notice(l)) else l;
        To(after.(reg := l.reg.(resetDue := false), out := after.out.(notice := l.out.notice || sent)))
    case CloseSession =>
      var removed := Fail(l, false);
      To(removed.(reg := removed.reg.(sessionDone := true)))
    case Work(m) => WorkerStep(l, m)
    case Writing(m) => WriterStep(l, m)
  }

  // ---- Receive bounds ----

  function Hand(w: Worker): seq<Frame> {
    if w.Idle? || w.Failing? || w.Exited? then [] else [w.f]
  }

  // A frame already credited as consumed but still counted in the queue.
  predicate Eaten(w: Worker) {
    w.Owing? || w.Announcing? || w.Closing? || w.Finishing? || w.Stopping? || (w.Done? && w.eaten)
  }

  function EatenBytes(w: Worker): nat { if Eaten(w) then w.f.FlowBytes() else 0 }

  function UneatenBytes(w: Worker): nat { if Hand(w) == [] || Eaten(w) then 0 else w.f.FlowBytes() }

  // An update on its way out carries the advertised maximum.
  ghost predicate QueueOk(rx: Receiving, w: Worker) {
    && Bounded(rx, Hand(w)) && WindowOk(rx)
    && (w.Owing? || w.Announcing? ==> w.max == rx.advertised)
  }

  // Everything received is consumed, queued, or in the worker's hand.
  ghost predicate AccountOk(rx: Receiving, w: Worker) {
    rx.flow ==> rx.consumed + FlowTotal(rx.queue) + UneatenBytes(w) <= rx.received
  }

  ghost predicate ReceiveInv(l: Listener) {
    QueueOk(l.st.rx, l.worker) && AccountOk(l.st.rx, l.worker)
  }

  lemma HandleMovesOnlyWorker(l: Listener, f: Frame, ok: bool, fragments: bool)
    ensures var l' := HandleFrame(l, f, ok, fragments);
      && l'.st == l.st && Hand(l'.worker) == [f] && EatenBytes(l'.worker) == 0
      && (l'.worker.Handled? || l'.worker.Closing? || l'.worker.Done?)
  {
  }

  lemma ReceiveKept(l: Listener, s: Step)
    requires ReceiveInv(l) && NextOf(l, s).To?
    ensures ReceiveInv(NextOf(l, s).l)
  {
    match s
    case Deliver(msg, stale) =>
      if msg.Data? && l.st.Enqueue(msg.frame).Accepted? {
        EnqueueKeeps(l.st.rx, Hand(l.worker), msg.frame);
        TotalsStep(l.st.rx.queue, msg.frame);
      }
    case Work(m) => ReceiveKeptByWorker(l, m);
    case Writing(m) => WriterLeavesReceiving(l, m);
    case _ =>
  }

  lemma WriterLeavesReceiving(l: Listener, m: WriterMove)
    requires WriterStep(l, m).To?
    ensures var l' := WriterStep(l, m).l;
      && l'.st.rx == l.st.rx && l'.worker == l.worker && l'.handling == l.handling
  {
  }

  lemma ReceiveKeptByConsuming(l: Listener)
    requires ReceiveInv(l) && l.worker.Handled?
    ensures ReceiveInv(WorkerStep(l, Consume).l)
  {
    ConsumeKeeps(l.st.rx, [l.worker.f], l.worker.f.FlowBytes());
  }

  lemma ReceiveKeptByWorker(l: Listener, m: WorkerMove)
    requires ReceiveInv(l) && WorkerStep(l, m).To?
    ensures ReceiveInv(WorkerStep(l, m).l)
  {
    match m
    case Take => TakeKeeps(l.st.rx);
    case Drop => DequeuedKeeps(l.st.rx, l.worker.f);
    case Dequeue => DequeuedKeeps(l.st.rx, l.worker.f);
    case Consume => ReceiveKeptByConsuming(l);
    case Handle(ok, fragments) => HandleMovesOnlyWorker(l, l.worker.f, ok, fragments);
    case _ =>
  }

  /** A frame inside the advertised window is refused for its bytes only while a SYN
      payload, or a frame consumed but not yet dequeued, is still counted. */
  lemma RefusedBytesExplained(l: Listener, f: Frame)
    requires ReceiveInv(l) && l.st.rx.flow
    requires l.st.rx.received + f.FlowBytes() <= l.st.rx.advertised && !f.IsSYN()
    requires |f.payload| > INITIAL_STREAM_WINDOW - l.st.rx.queuedBytes
    ensures SynTotal(l.st.rx.queue) + SynTotal(Hand(l.worker)) + EatenBytes(l.worker) > 0
  {
    PayloadIsFlowPlusSyn(l.st.rx.queue);
    PayloadIsFlowPlusSyn(Hand(l.worker));
    assert FlowTotal(Hand(l.worker)) == EatenBytes(l.worker) + UneatenBytes(l.worker);
  }

  // ---- Which frames were taken ----

  // The worker has taken a prefix of the accepted frames; the rest is queued,
  // and only the last accepted frame can end the direction.
  ghost predicate TakenInOrder(accepted: seq<Frame>, queue: seq<Frame>, hand: seq<Frame>) {
    && |hand| <= 1 && |hand| + |queue| <= |accepted|
    && (forall i :: 0 <= i < |queue| ==> queue[i] == accepted[|accepted| - |queue| + i])
    && (hand != [] ==> hand[0] == accepted[|accepted| - |queue| - 1])
  }

  ghost predicate OneSynOneFin(accepted: seq<Frame>, queuedFIN: bool) {
    && accepted != []
    && (forall i :: 0 <= i < |accepted| ==> (accepted[i].IsSYN() <==> i == 0))
    && (forall i :: 0 <= i < |accepted| && accepted[i].IsFIN() ==> i == |accepted| - 1)
    && (queuedFIN <==> accepted[|accepted| - 1].IsFIN())
  }

  ghost predicate AcceptedInv(l: Listener) {
    && TakenInOrder(l.handling.accepted, l.st.rx.queue, Hand(l.worker))
    && OneSynOneFin(l.handling.accepted, l.st.rx.queuedFIN)
  }

  lemma AcceptedKept(l: Listener, s: Step)
    requires AcceptedInv(l) && NextOf(l, s).To?
    ensures AcceptedInv(NextOf(l, s).l)
  {
    match s
    case Deliver(msg, stale) => if msg.Data? && !msg.frame.IsSYN() { EnqueueKeepsOrder(l, msg.frame); }
    case Work(m) => AcceptedKeptByWorker(l, m);
    case Writing(m) => WriterLeavesReceiving(l, m);
    case _ =>
  }

  lemma EnqueueKeepsOrder(l: Listener, f: Frame)
    requires AcceptedInv(l) && !f.IsSYN()
    ensures AcceptedInv(DeliverMsg(l, Data(f), true))
  {
    if l.st.Enqueue(f).Accepted? {
      EnqueueInOrder(l.handling.accepted, l.st.rx.queue, Hand(l.worker), f);
      AcceptedOneMore(l.handling.accepted, f);
    }
  }

  lemma EnqueueInOrder(accepted: seq<Frame>, queue: seq<Frame>, hand: seq<Frame>, f: Frame)
    requires TakenInOrder(accepted, queue, hand)
    ensures TakenInOrder(accepted + [f], queue + [f], hand)
  {
  }

  lemma AcceptedOneMore(accepted: seq<Frame>, f: Frame)
    requires OneSynOneFin(accepted, false) && !f.IsSYN()
    ensures OneSynOneFin(accepted + [f], f.IsFIN())
  {
  }

  // Between taking a frame and giving it back, the worker keeps it.
  lemma WorkerKeepsHand(l: Listener, m: WorkerMove)
    requires WorkerStep(l, m).To? && m != Take && m != Drop && m != Dequeue && !m.Handle?
    ensures var l' := WorkerStep(l, m).l;
      && l'.handling == l.handling && Hand(l'.worker) == Hand(l.worker)
      && l'.st.rx.queue == l.st.rx.queue && l'.st.rx.queuedFIN == l.st.rx.queuedFIN
      && !l.worker.Taken? && !l'.worker.Taken? && (GivenUp(l.worker) ==> GivenUp(l'.worker))
  {
  }

  lemma AcceptedKeptByWorker(l: Listener, m: WorkerMove)
    requires AcceptedInv(l) && WorkerStep(l, m).To?
    ensures AcceptedInv(WorkerStep(l, m).l)
  {
    match m
    case Handle(ok, fragments) => HandleMovesOnlyWorker(l, l.worker.f, ok, fragments);
    case Take => TakeInOrder(l.handling.accepted, l.st.rx.queue);
    case Drop =>
    case Dequeue =>
    case _ => WorkerKeepsHand(l, m);
  }

  lemma TakeInOrder(accepted: seq<Frame>, queue: seq<Frame>)
    requires queue != [] && TakenInOrder(accepted, queue, [])
    ensures TakenInOrder(accepted, queue[1..], [queue[0]])
  {
    assert queue[0] == accepted[|accepted| - |queue| + 0];
  }

  // The frame in hand can be a FIN only when nothing is queued behind it.
  lemma FinIsLastTaken(l: Listener)
    requires AcceptedInv(l) && Hand(l.worker) != [] && l.worker.f.IsFIN()
    ensures l.st.rx.queue == [] && l.st.rx.queuedFIN
  {
    assert Hand(l.worker)[0] == l.worker.f;
  }

  // ---- Directional close ----

  predicate BothFinished(st: Stream) { st.receiveFIN && st.sendFIN }

  ghost predicate RegistryOk(reg: Registry, st: Stream) {
    && (st.closed ==> !reg.inTable)
    && (reg.inTable ==> reg.removal == Settled && !reg.resetDue)
    && (reg.resetDue ==> st.closed && reg.removal == Settled)
  }

  // The receive direction closes after the FIN was taken, so once.
  ghost predicate ReceiveFinOk(st: Stream, w: Worker) {
    && (w.Closing? ==> w.f.IsFIN() && !st.receiveFIN)
    && (st.receiveFIN ==>
          && st.rx.queuedFIN && st.rx.queue == []
          && !w.Taken? && !w.Handled? && !w.Owing? && !w.Announcing?)
    && (w.Finishing? || w.Stopping? ==> BothFinished(st))
  }

  ghost predicate SendFinOk(st: Stream, w: Writer) {
    && (w.Reserving? || w.Charged? || w.SentFin? ==> !st.sendFIN)
    && (w.FinishingSend? || w.StoppingSend? ==> BothFinished(st))
  }

  // Exactly one of the two closers finds both directions finished, and until it
  // has removed the stream it is about to.
  ghost predicate CloseInv(l: Listener) {
    && RegistryOk(l.reg, l.st) && ReceiveFinOk(l.st, l.worker) && SendFinOk(l.st, l.writer)
    && l.out.closers == (if BothFinished(l.st) then 1 else 0)
    && (BothFinished(l.st) ==> !l.reg.inTable || l.worker.Finishing? || l.writer.FinishingSend?)
    && (l.worker.Stopping? || l.writer.StoppingSend? ==> !l.reg.inTable)
    && (l.out.lost > 0 ==> !l.reg.inTable)
  }

  lemma CloseKept(l: Listener, s: Step)
    requires AcceptedInv(l) && CloseInv(l) && NextOf(l, s).To?
    ensures CloseInv(NextOf(l, s).l)
  {
    match s
    case Work(m) => CloseKeptByWorker(l, m);
    case Writing(m) => CloseKeptByWriter(l, m);
    case _ =>
  }

  lemma CloseKeptByWorker(l: Listener, m: WorkerMove)
    requires AcceptedInv(l) && CloseInv(l) && WorkerStep(l, m).To?
    ensures CloseInv(WorkerStep(l, m).l)
  {
    if m == CloseReceive {
      FinIsLastTaken(l);
    }
  }

  lemma CloseKeptByWriter(l: Listener, m: WriterMove)
    requires CloseInv(l) && WriterStep(l, m).To?
    ensures CloseInv(WriterStep(l, m).l)
  {
  }

  /** A stream leaves the table only when both directions have finished, or because
      something failed, or with the session: one direction alone never removes it. */
  lemma RemovedOnlyWhenFinishedOrFailed(l: Listener, s: Step)
    requires CloseInv(l) && NextOf(l, s).To?
    requires l.reg.inTable && !NextOf(l, s).l.reg.inTable
    ensures BothFinished(l.st) || s == CloseSession || s == Work(FailWorker) || s == Writing(Write(false))
         || (s.Deliver? && DeliveryFails(l.st, s.msg))
  {
  }

  // A duplicate SYN, a frame refused, an invalid update, or the peer's reset.
  predicate DeliveryFails(st: Stream, msg: Msg) {
    match msg
    case Data(f) => f.IsSYN() || st.Enqueue(f).Refused?
    case WindowUpdate(max) => max == 0
    case StreamReset => true
  }

  // ---- Terminal order on the wire ----

  // The stream's own frames are in terminal order, and the FIN among them is sendFIN's.
  ghost predicate OwnOrder(log: seq<Msg>, finished: bool) {
    TerminalOrder(log) && (HasFin(log) <==> finished)
  }

  // A legacy failure closes the log with an empty FIN, whatever went before.
  ghost predicate ClosedByFin(log: seq<Msg>, finished: bool) {
    log != [] && IsFinData(log[|log| - 1]) && log[|log| - 1].frame.payload == []
    && OwnOrder(log[..|log| - 1], finished)
  }

  ghost predicate TerminalInv(l: Listener) {
    && (l.out.notice ==>
          && l.st.closed && !l.reg.resetDue && l.reg.removal == Settled
          && (l.writer.Free? || l.writer.Reserving?))
    && (l.worker.Owing? || l.worker.Announcing? ==> l.st.rx.flow)
    && (HasReset(l.out.log) <==> l.st.rx.flow && l.out.notice)
    && (if l.st.rx.flow || !l.out.notice then OwnOrder(l.out.log, l.st.sendFIN || l.writer.SentFin?)
        else ClosedByFin(l.out.log, l.st.sendFIN))
  }

  lemma TerminalKept(l: Listener, s: Step)
    requires CloseInv(l) && TerminalInv(l) && NextOf(l, s).To?
    ensures TerminalInv(NextOf(l, s).l)
  {
    match s
    case SendReset(sent) => TerminalKeptByNotice(l, sent);
    case Work(m) => TerminalKeptByWorker(l, m);
    case Writing(m) => TerminalKeptByWriter(l, m);
    case _ =>
  }

  lemma TerminalKeptByNotice(l: Listener, sent: bool)
    requires CloseInv(l) && TerminalInv(l) && NextOf(l, SendReset(sent)).To?
    ensures TerminalInv(NextOf(l, SendReset(sent)).l)
  {
    LogGrows(l.out.log, Notice(l));
    var grown := l.out.log + [Notice(l)];
    assert grown[..|grown| - 1] == l.out.log;
  }

  lemma TerminalKeptByWorker(l: Listener, m: WorkerMove)
    requires CloseInv(l) && TerminalInv(l) && WorkerStep(l, m).To?
    ensures TerminalInv(WorkerStep(l, m).l)
  {
    if m.SendUpdate? && l.worker.Announcing? { LogGrows(l.out.log, WindowUpdate(l.worker.max)); }
    if m.Handle? { HandleMovesOnlyWorker(l, l.worker.f, m.ok, m.fragments); }
  }

  lemma TerminalKeptByWriter(l: Listener, m: WriterMove)
    requires CloseInv(l) && TerminalInv(l) && WriterStep(l, m).To?
    ensures TerminalInv(WriterStep(l, m).l)
  {
    if m == Write(true) {
      LogGrows(l.out.log, Data(l.writer.frame));
    }
  }

  /** The log is in terminal order exactly unless a legacy failure announced itself with a second FIN. */
  lemma OrderedIff(l: Listener)
    requires TerminalInv(l)
    ensures TerminalOrder(l.out.log) <==> l.st.rx.flow || !l.out.notice || !l.st.sendFIN
  {
    var log := l.out.log;
    if !l.st.rx.flow && l.out.notice {
      var before := log[..|log| - 1];
      assert log == before + [log[|log| - 1]];
      LogGrows(before, log[|log| - 1]);
    }
  }

  // ---- What the handler sees ----

  predicate Sees(e: Event, f: Frame) {
    match e
    case OnSYN(payload, final) => f.IsSYN() && payload == f.payload && final == f.IsFIN()
    case OnFIN(payload) => !f.IsSYN() && f.IsFIN() && !f.IsMORE() && payload == f.payload
    case OnFragment(payload, more) =>
      !f.IsSYN() && !f.IsFIN() && payload == f.payload && more == f.IsMORE()
    case OnDAT(payload) => !f.IsSYN() && !f.IsFIN() && !f.IsMORE() && payload == f.payload
  }

  predicate OpensFragment(e: Event) { e.OnFragment? && e.more }

  // A fragmented message, once begun, continues with fragments only.
  ghost predicate FragmentsUnbroken(events: seq<Event>) {
    forall i :: 0 < i < |events| && OpensFragment(events[i - 1]) ==> events[i].OnFragment?
  }

  // The worker has given up, or is about to, on the frame it took last.
  predicate GivenUp(w: Worker) { (w.Done? && !w.ok) || w.Failing? || w.Exited? }

  ghost predicate CallsMatch(h: Handling) {
    && |h.events| <= |h.accepted|
    && (forall i :: 0 <= i < |h.events| ==> Sees(h.events[i], h.accepted[i]))
    && FragmentsUnbroken(h.events)
    && (h.fragmenting <==> h.events != [] && OpensFragment(h.events[|h.events| - 1]))
  }

  // One call for each frame taken, until the worker gives up.
  ghost predicate CallsCounted(taken: int, calls: nat, w: Worker) {
    GivenUp(w) || calls == taken - (if w.Taken? then 1 else 0)
  }

  ghost predicate HandlerInv(l: Listener) {
    && CallsMatch(l.handling)
    && CallsCounted(|l.handling.accepted| - |l.st.rx.queue|, |l.handling.events|, l.worker)
  }

  lemma HandlerKept(l: Listener, s: Step)
    requires AcceptedInv(l) && HandlerInv(l) && NextOf(l, s).To?
    ensures HandlerInv(NextOf(l, s).l)
  {
    match s
    case Deliver(msg, stale) => HandlerKeptByDelivery(l, msg, l.reg.inTable || stale);
    case Work(m) => HandlerKeptByWorker(l, m);
    case Writing(m) => WriterLeavesReceiving(l, m);
    case _ =>
  }

  lemma HandlerKeptByWorker(l: Listener, m: WorkerMove)
    requires AcceptedInv(l) && HandlerInv(l) && WorkerStep(l, m).To?
    ensures HandlerInv(WorkerStep(l, m).l)
  {
    match m
    case Handle(ok, fragments) => HandlerKeptByCall(l, ok, fragments);
    case Take =>
    case Drop =>
    case Dequeue =>
    case _ => WorkerKeepsHand(l, m);
  }

  lemma HandlerKeptByDelivery(l: Listener, msg: Msg, found: bool)
    requires HandlerInv(l)
    ensures HandlerInv(DeliverMsg(l, msg, found))
  {
    if found && msg.Data? && !msg.frame.IsSYN() && l.st.Enqueue(msg.frame).Accepted? {
      EnqueueKeepsCalls(l.handling, msg.frame);
    }
  }

  lemma EnqueueKeepsCalls(h: Handling, f: Frame)
    requires CallsMatch(h)
    ensures CallsMatch(h.(accepted := h.accepted + [f]))
  {
  }

  lemma CallExtends(h: Handling, e: Event)
    requires CallsMatch(h) && |h.events| < |h.accepted|
    requires Sees(e, h.accepted[|h.events|]) && (h.fragmenting ==> e.OnFragment?)
    ensures CallsMatch(Called(h, e))
  {
    var grown := h.events + [e];
    assert forall i :: 0 <= i < |h.events| ==> grown[i] == h.events[i];
  }

  lemma HandlerKeptByCall(l: Listener, ok: bool, fragments: bool)
    requires AcceptedInv(l) && HandlerInv(l) && l.worker.Taken?
    ensures HandlerInv(HandleFrame(l, l.worker.f, ok, fragments))
  {
    var f, h, q := l.worker.f, l.handling, l.st.rx.queue;
    var calls := CallFor(f, h.fragmenting, fragments);
    if calls != [] {
      assert Hand(l.worker)[0] == f == h.accepted[|h.accepted| - |q| - 1];
      assert Sees(calls[0], f) && (f.IsSYN() ==> h.events == []);
      CallExtends(h, calls[0]);
    }
  }

  // The calls are those for a prefix of the accepted frames: OnSYN first, OnFIN last.
  ghost predicate CallsInOrder(h: Handling) {
    && |h.events| <= |h.accepted|
    && (forall i :: 0 <= i < |h.events| ==>
          && Sees(h.events[i], h.accepted[i])
          && (h.events[i].OnSYN? <==> i == 0)
          && (h.events[i].OnFIN? ==> i == |h.events| - 1 && i > 0 && !OpensFragment(h.events[i - 1])))
  }

  /** OnSYN once and first, OnFIN at most once and last and never inside a
      fragmented message, and the calls are those of a prefix of the accepted frames. */
  lemma HandlerTrace(l: Listener)
    requires AcceptedInv(l) && HandlerInv(l)
    ensures CallsInOrder(l.handling)
  {
  }

  // ---- What each thread sends ----

  function ChargedBytes(w: Writer): nat { if w.Charged? then w.frame.FlowBytes() else 0 }

  lemma WriterSends(l: Listener, m: WriterMove)
    requires WriterStep(l, m).To? && l.st.rx.flow && l.st.sent <= l.st.sendMax
    ensures var l' := WriterStep(l, m).l;
      var sent := if m == Write(true) then [Data(l.writer.frame)] else [];
      && l'.out.log == l.out.log + sent
      && l'.st.sent <= l'.st.sendMax
      && l'.st.sent - ChargedBytes(l'.writer) - l'.out.lost
           == l.st.sent - ChargedBytes(l.writer) - l.out.lost + (if m == Write(true) then l.writer.frame.FlowBytes()
               else 0)
  {
  }

  // The update the worker is about to send.
  function Owes(w: Worker): nat { if w.Owing? || w.Announcing? then w.max else 0 }

  // In the table, with a worker that has not given up.
  predicate Serves(l: Listener) { l.reg.inTable && !GivenUp(l.worker) }

  lemma WorkerCredits(l: Listener, m: WorkerMove) returns (move: CreditMove)
    requires ReceiveInv(l) && WorkerStep(l, m).To?
    ensures var l' := WorkerStep(l, m).l;
      && CreditMoves(move, l.st.rx.advertised, Owes(l.worker), l'.st.rx.advertised, Owes(l'.worker))
      && l'.out.log == l.out.log + (if move.Announced? then [WindowUpdate(Owes(l.worker))] else [])
      && (move.Abandoned? ==> GivenUp(l'.worker))
      && (Serves(l') ==> Serves(l))
      && l'.writer == l.writer && l'.st.sent == l.st.sent && l'.st.sendMax == l.st.sendMax
  {
    if m == SendUpdate(true) {
      move := Announced;
    } else if m == Consume && l.st.Consume(l.worker.f.FlowBytes()).update != 0 {
      move := Earned;
    } else if l.worker.Owing? || l.worker.Announcing? {
      move := if m == Announce && !l.st.closed then Same else Abandoned;
    } else {
      move := Same;
    }
    if m.Handle? {
      HandleMovesOnlyWorker(l, l.worker.f, m.ok, m.fragments);
    }
  }

  lemma OthersSendControls(l: Listener, s: Step)
    requires NextOf(l, s).To? && !s.Writing? && l.st.rx.flow
    ensures var l' := NextOf(l, s).l;
      && l'.writer == l.writer && l'.out.lost == l.out.lost
      && l'.st.sent == l.st.sent && l.st.sendMax <= l'.st.sendMax
      && (l'.out.log == l.out.log
          || l'.out.log == l.out.log + [StreamReset]
          || (l.worker.Announcing? && l'.out.log == l.out.log + [WindowUpdate(l.worker.max)]))
  {
  }

  // ---- Runs ----

  function Run(l: Listener, steps: seq<Step>): Next
    decreases |steps|
  {
    if steps == [] then To(l)
    else match NextOf(l, steps[0])
      case Disabled => Disabled
      case To(l') => Run(l', steps[1..])
  }

  ghost predicate Inv(l: Listener) {
    ReceiveInv(l) && AcceptedInv(l) && HandlerInv(l) && CloseInv(l) && TerminalInv(l)
  }

  lemma InvAtOpening(syn: Frame, flow: bool)
    requires syn.IsSYN() && New(flow).Enqueue(syn).Accepted?
    ensures Inv(Opened(syn, flow))
  {
    TotalsStep([], syn);
    assert [] + [syn] == [syn];
  }

  lemma StepKeepsInv(l: Listener, s: Step)
    requires Inv(l) && NextOf(l, s).To?
    ensures Inv(NextOf(l, s).l) && NextOf(l, s).l.st.rx.flow == l.st.rx.flow
  {
    ReceiveKept(l, s);
    AcceptedKept(l, s);
    HandlerKept(l, s);
    CloseKept(l, s);
    TerminalKept(l, s);
    FlowKept(l, s);
  }

  lemma FlowKept(l: Listener, s: Step)
    requires NextOf(l, s).To?
    ensures NextOf(l, s).l.st.rx.flow == l.st.rx.flow
  {
    match s
    case Work(m) => WorkerReceivesNothing(l, m);
    case Writing(m) => WriterLeavesReceiving(l, m);
    case _ =>
  }

  lemma WorkerReceivesNothing(l: Listener, m: WorkerMove)
    requires WorkerStep(l, m).To?
    ensures var rx := WorkerStep(l, m).l.st.rx; rx.received == l.st.rx.received && rx.flow == l.st.rx.flow
  {
    if m.Handle? { HandleMovesOnlyWorker(l, l.worker.f, m.ok, m.fragments); }
  }

  /** Every run of one incarnation, against any peer, keeps all five invariants. */
  lemma {:induction false} RunKeepsInv(l: Listener, steps: seq<Step>)
    requires Inv(l) && Run(l, steps).To?
    ensures Inv(Run(l, steps).l) && Run(l, steps).l.st.rx.flow == l.st.rx.flow
    decreases |steps|
  {
    if steps != [] {
      StepKeepsInv(l, steps[0]);
      RunKeepsInv(NextOf(l, steps[0]).l, steps[1..]);
    }
  }

  // What the invariants promise the peer and the table.
  ghost predicate Promises(l: Listener) {
    && l.st.rx.queuedFrames == |l.st.rx.queue| + |Hand(l.worker)| <= MAX_QUEUED_STREAM_FRAMES
    && l.st.rx.queuedBytes == PayloadTotal(l.st.rx.queue) + PayloadTotal(Hand(l.worker)) <= INITIAL_STREAM_WINDOW
    && (TerminalOrder(l.out.log) <==> l.st.rx.flow || !l.out.notice || !l.st.sendFIN)
    && l.out.closers == (if BothFinished(l.st) then 1 else 0)
    && (BothFinished(l.st) && l.reg.inTable ==> l.worker.Finishing? || l.writer.FinishingSend?)
  }

  lemma InvPromises(l: Listener)
    requires Inv(l)
    ensures Promises(l)
  {
    OrderedIff(l);
  }

  /** Over every run of an incarnation: the counters are exact and within both bounds; with flow
      control the log is in terminal order, and without it exactly unless the stream fails after its
      own FIN; and once both directions have finished exactly one closer knew it and the stream is
      gone, or that closer is about to remove it. */
  lemma OverRuns(syn: Frame, flow: bool, steps: seq<Step>)
    requires syn.IsSYN() && New(flow).Enqueue(syn).Accepted? && Run(Opened(syn, flow), steps).To?
    ensures var l := Run(Opened(syn, flow), steps).l; Promises(l) && l.st.rx.flow == flow
  {
    InvAtOpening(syn, flow);
    RunKeepsInv(Opened(syn, flow), steps);
    InvPromises(Run(Opened(syn, flow), steps).l);
  }

  /** And the handler has seen OnSYN once and first, then the accepted frames in order, OnFIN at most
      once, last, and never inside a fragmented message. */
  lemma HandlerOverRuns(syn: Frame, flow: bool, steps: seq<Step>)
    requires syn.IsSYN() && New(flow).Enqueue(syn).Accepted? && Run(Opened(syn, flow), steps).To?
    ensures CallsInOrder(Run(Opened(syn, flow), steps).l.handling)
  {
    InvAtOpening(syn, flow);
    RunKeepsInv(Opened(syn, flow), steps);
    HandlerTrace(Run(Opened(syn, flow), steps).l);
  }

  // ---- A legacy failure after the FIN ----

  lemma RunStep(l: Listener, steps: seq<Step>)
    requires steps != [] && NextOf(l, steps[0]).To?
    ensures Run(l, steps) == Run(NextOf(l, steps[0]).l, steps[1..])
  {
  }

  /** Without flow control a stream that has sent its FIN and then fails, here on a second SYN, puts
      two FINs on the wire. */
  lemma LegacyFailsWithSecondFin(syn: Frame, fin: Frame)
    requires syn.IsSYN() && New(false).Enqueue(syn).Accepted?
    requires fin.IsFIN() && !fin.IsSYN() && fin.ValidPayload()
    ensures var r := Run(Opened(syn, false),
        [Writing(Acquire(fin)), Writing(Reserve), Writing(Write(true)), Writing(CloseSend),
         Deliver(Data(syn), false), StopRemoved, SendReset(true)]);
      r.To? && r.l.out.log == [Data(fin), Data(Frame(syn.streamID, FLAG_FIN, []))] && !TerminalOrder(r.l.out.log)
  {
    var l0 := Opened(syn, false);
    var l1 := l0.(writer := Reserving(fin));
    var l2 := l1.(writer := Charged(fin));
    var l3 := Send(l2, Data(fin)).(writer := SentFin);
    var l4 := l3.(st := l3.st.(sendFIN := true), writer := Free);
    var l5 := Fail(l4, true);
    var l6 := l5.(st := l5.st.(closed := true), reg := l5.reg.(removal := Settled, resetDue := true));
    RunStep(l0, [Writing(Acquire(fin)), Writing(Reserve), Writing(Write(true)), Writing(CloseSend),
                 Deliver(Data(syn), false), StopRemoved, SendReset(true)]);
    RunStep(l1, [Writing(Reserve), Writing(Write(true)), Writing(CloseSend),
                 Deliver(Data(syn), false), StopRemoved, SendReset(true)]);
    RunStep(l2, [Writing(Write(true)), Writing(CloseSend), Deliver(Data(syn), false), StopRemoved, SendReset(true)]);
    RunStep(l3, [Writing(CloseSend), Deliver(Data(syn), false), StopRemoved, SendReset(true)]);
    RunStep(l4, [Deliver(Data(syn), false), StopRemoved, SendReset(true)]);
    RunStep(l5, [StopRemoved, SendReset(true)]);
    RunStep(l6, [SendReset(true)]);
    var log := [Data(fin), Data(Frame(syn.streamID, FLAG_FIN, []))];
    assert IsFinData(log[0]) && log[1].Data?;
  }
}

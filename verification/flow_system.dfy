/**
 Both ends of one v4 stream over the ordered channel. Each end's log is the
 channel it writes: the messages past the reader's cursor are in flight.
 */
module FlowSystem {
  import opened Protocol
  import opened Wire
  import ClientStream
  import ListenerStream
  import C = ClientEndpoint
  import L = ListenerEndpoint

  // Whether the listener has seen the SYN yet, and took it.
  datatype Phase = Awaiting | Open | Refusing | Refused

  // `up` and `down` are the reading cursors of the listener and the client.
  // History: window bytes of frames that arrived and were not accepted.
  datatype System = System(
    c: C.Client, l: L.Listener, phase: Phase, up: nat, down: nat, upDropped: nat, downDropped: nat)

  const NO_STREAM := L.Listener(ListenerStream.New(true), L.Registry(false, L.Settled, false, false), L.Idle,
                               L.Handling(false, [], []), L.Free, L.Output([], 0, 0, false))

  const INITIAL := System(C.OPENED, NO_STREAM, Awaiting, 0, 0, 0, 0)

  datatype Step =
    | ClientMove(cs: C.Step)
    | ListenerMove(ls: L.Step)
    | Up(take: bool, stale: bool)     // the listener reads; `take` is whether a SYN finds a ready handler
    | Down                            // the client's dispatcher reads
    | Reject                          // rejectStream's reset

  datatype Next = Disabled | To(s: System)

  // Bytes of a looked-up frame that enqueue turns down.
  function RefusedByClient(c: C.Client, cs: C.Step): nat {
    if cs == C.Act && c.dispatcher.Found? && c.dispatcher.msg.Data?
       && c.rx.Count(c.dispatcher.msg.frame, true).Refused?
    then c.dispatcher.msg.frame.FlowBytes() else 0
  }

  function FlowOfMsg(m: Msg): nat { if m.Data? then m.frame.FlowBytes() else 0 }

  function ReadUp(s: System, msg: Msg, take: bool, stale: bool): System {
    var next := s.(up := s.up + 1);
    match s.phase
    case Open =>
      var l' := L.DeliverMsg(s.l, msg, s.l.reg.inTable || stale);
      var arrived := l'.st.rx.received - s.l.st.rx.received;
      next.(l := l', upDropped := if arrived < FlowOfMsg(msg) then s.upDropped + FlowOfMsg(msg) else s.upDropped)
    case Awaiting =>
      if !msg.Data? || !msg.frame.IsSYN() then next.(upDropped := s.upDropped + FlowOfMsg(msg))
      else if !take || !ListenerStream.New(true).Enqueue(msg.frame).Accepted? then next.(phase := Refusing)
      else next.(phase := Open, l := L.Opened(msg.frame, true))
    case _ => next.(upDropped := s.upDropped + FlowOfMsg(msg))
  }

  function NextOf(s: System, step: Step): Next {
    match step
    case ClientMove(cs) =>
      if cs.Lookup? || !C.SynOnce(s.c, cs) then Disabled  // callers open a stream with one SYN
      else (match C.NextOf(s.c, cs)
        case Disabled => Disabled
        case To(c') => To(s.(c := c', downDropped := s.downDropped + RefusedByClient(s.c, cs))))
    case ListenerMove(ls) =>
      if ls.Deliver? || s.phase != Open then Disabled
      else (match L.NextOf(s.l, ls)
        case Disabled => Disabled
        case To(l') => To(s.(l := l')))
    case Up(take, stale) =>
      if s.up >= |s.c.hist.log| then Disabled else To(ReadUp(s, s.c.hist.log[s.up], take, stale))
    case Down =>
      if s.down >= |s.l.out.log| || !s.c.dispatcher.Waiting? then Disabled
      else
        var msg := s.l.out.log[s.down];
        var read := s.(down := s.down + 1);
        if s.c.reg.inTable then To(read.(c := s.c.(dispatcher := C.Found(msg))))
        else To(read.(downDropped := s.downDropped + FlowOfMsg(msg)))
    case Reject =>
      if s.phase == Refusing then To(s.(phase := Refused, l := L.Send(s.l, StreamReset))) else Disabled
  }

  // ---- What an end has sent, and where it is ----

  function Looked(d: C.Dispatcher): nat { if d.Found? then FlowOfMsg(d.msg) else 0 }

  // In flight, reserved and not yet sent, or lost to a failed send.
  ghost function ClientOutstanding(c: C.Client, up: nat): nat
    requires up <= |c.hist.log|
  {
    DataBytes(c.hist.log[up..]) + C.ChargedBytes(c.writer) + c.hist.lost
  }

  ghost function ListenerOutstanding(l: L.Listener, down: nat): nat
    requires down <= |l.out.log|
  {
    DataBytes(l.out.log[down..]) + L.ChargedBytes(l.writer) + l.out.lost
  }

  // One more message on a log: what it adds to the stretch past a cursor.
  lemma StretchExtends(log: seq<Msg>, log': seq<Msg>, from: nat, limit: nat)
    requires from <= |log| && (log' == log || (|log'| == |log| + 1 && log' == log + [log'[|log|]]))
    ensures log' == log ==> DataBytes(log'[from..]) == DataBytes(log[from..])
    ensures log' == log ==> Granted(limit, log'[from..]) == Granted(limit, log[from..])
    ensures log' != log ==>
      var m, granted := log'[|log|], Granted(limit, log[from..]);
      && DataBytes(log'[from..]) == DataBytes(log[from..]) + FlowOfMsg(m)
      && Granted(limit, log'[from..]) == (if m.WindowUpdate? && m.max > granted then m.max else granted)
  {
    if log' != log {
      var m := log'[|log|];
      StretchAfter(log, from, m);
      StretchGrows(limit, log[from..], m);
    }
  }

  // Reserving charges, writing moves the charge to the channel or to the lost
  // bytes; nothing else touches what an end has outstanding.
  lemma ClientSends(c: C.Client, cs: C.Step, up: nat)
    requires up <= |c.hist.log| && C.NextOf(c, cs).To? && c.tx.sent <= c.tx.limit
    ensures var c' := C.NextOf(c, cs).c;
      && up <= |c'.hist.log|
      && c'.tx.sent - ClientOutstanding(c', up) == c.tx.sent - ClientOutstanding(c, up)
      && c'.tx.sent <= c'.tx.limit
  {
    var c' := C.NextOf(c, cs).c;
    if cs.Writing? {
      C.WriterSends(c, cs.writer);
    } else {
      C.OthersSendControls(c, cs);
    }
    StretchExtends(c.hist.log, c'.hist.log, up, 0);
  }

  lemma ListenerSends(l: L.Listener, ls: L.Step, down: nat)
    requires down <= |l.out.log| && L.NextOf(l, ls).To? && l.st.rx.flow && l.st.sent <= l.st.sendMax
    ensures var l' := L.NextOf(l, ls).l;
      && down <= |l'.out.log|
      && l'.st.sent - ListenerOutstanding(l', down) == l.st.sent - ListenerOutstanding(l, down)
      && l'.st.sent <= l'.st.sendMax
  {
    var l' := L.NextOf(l, ls).l;
    if ls.Writing? {
      L.WriterSends(l, ls.writer);
    } else {
      L.OthersSendControls(l, ls);
    }
    StretchExtends(l.out.log, l'.out.log, down, 0);
  }

  // ---- Where what was sent arrives ----

  lemma ClientReceives(c: C.Client, cs: C.Step)
    requires C.NextOf(c, cs).To? && !cs.Lookup?
    ensures var c' := C.NextOf(c, cs).c;
      c'.rx.received + Looked(c'.dispatcher) + RefusedByClient(c, cs) == c.rx.received + Looked(c.dispatcher)
  {
  }

  lemma ListenerReceivesOnlyByDelivery(l: L.Listener, ls: L.Step)
    requires L.NextOf(l, ls).To? && !ls.Deliver?
    ensures L.NextOf(l, ls).l.st.rx.received == l.st.rx.received && L.NextOf(l, ls).l.st.rx.flow == l.st.rx.flow
  {
    match ls
    case Work(m) => L.WorkerReceivesNothing(l, m);
    case Writing(m) => L.WriterLeavesReceiving(l, m);
    case _ =>
  }

  lemma DeliveryArrives(l: L.Listener, msg: Msg, found: bool)
    requires l.reg.inTable ==> found
    ensures var l' := L.DeliverMsg(l, msg, found);
      && (l'.st.rx.received == l.st.rx.received || l'.st.rx.received == l.st.rx.received + FlowOfMsg(msg))
      && l'.out == l.out && l'.writer == l.writer && l'.st.sent == l.st.sent && l.st.sendMax <= l'.st.sendMax
      && (l'.reg.inTable ==> l.reg.inTable && (l'.st.rx.received == l.st.rx.received + FlowOfMsg(msg)))
      && l'.st.rx.advertised == l.st.rx.advertised && l'.worker == l.worker && l'.st.rx.flow == l.st.rx.flow
  {
  }

  // ---- Conservation of the bytes of both directions ----

  ghost predicate Cursors(s: System) { s.up <= |s.c.hist.log| && s.down <= |s.l.out.log| }

  ghost predicate UpBalance(s: System) {
    && s.up <= |s.c.hist.log|
    && s.c.tx.sent == s.l.st.rx.received + ClientOutstanding(s.c, s.up) + s.upDropped
    && s.c.tx.sent <= s.c.tx.limit
  }

  ghost predicate DownBalance(s: System) {
    && s.down <= |s.l.out.log|
    && s.l.st.sent
         == s.c.rx.received + Looked(s.c.dispatcher) + ListenerOutstanding(s.l, s.down) + s.downDropped
    && s.l.st.sent <= s.l.st.sendMax
  }

  // Until the listener takes the SYN it has no stream.
  ghost predicate PhaseOk(s: System) {
    && s.l.st.rx.flow
    && (!s.phase.Open? ==> Blank(s.l))
    && (s.phase.Awaiting? || s.phase.Refusing? ==> |s.l.out.log| == s.down == 0)
    && (s.phase.Refused? ==> s.l.out.log == [StreamReset])
  }

  predicate Blank(l: L.Listener) {
    && l.st.rx.received == l.st.sent == l.out.lost == 0 && !l.reg.inTable && l.worker.Idle? && l.writer.Free?
    && l.st.rx.advertised == l.st.sendMax == INITIAL_STREAM_WINDOW
  }

  ghost predicate Balanced(s: System) { PhaseOk(s) && UpBalance(s) && DownBalance(s) }

  lemma BalancedKept(s: System, step: Step)
    requires Balanced(s) && NextOf(s, step).To?
    ensures Balanced(NextOf(s, step).s)
  {
    match step
    case ClientMove(cs) => BalancedByClient(s, cs);
    case ListenerMove(ls) => BalancedByListener(s, ls);
    case Up(take, stale) => BalancedByReadingUp(s, take, stale);
    case Down => BalancedByReadingDown(s);
    case Reject => StretchExtends(s.l.out.log, s.l.out.log + [StreamReset], 0, 0);
  }

  lemma BalancedByClient(s: System, cs: C.Step)
    requires Balanced(s) && NextOf(s, ClientMove(cs)).To?
    ensures Balanced(NextOf(s, ClientMove(cs)).s)
  {
    ClientSends(s.c, cs, s.up);
    ClientReceives(s.c, cs);
  }

  lemma BalancedByListener(s: System, ls: L.Step)
    requires Balanced(s) && NextOf(s, ListenerMove(ls)).To?
    ensures Balanced(NextOf(s, ListenerMove(ls)).s)
  {
    ListenerSends(s.l, ls, s.down);
    ListenerReceivesOnlyByDelivery(s.l, ls);
  }

  lemma BalancedByReadingDown(s: System)
    requires Balanced(s) && NextOf(s, Down).To?
    ensures Balanced(NextOf(s, Down).s)
  {
    PopStretch(s.l.out.log, s.down, 0);
  }

  lemma PopStretch(log: seq<Msg>, from: nat, limit: nat)
    requires from < |log|
    ensures var m := log[from];
      && DataBytes(log[from..]) == FlowOfMsg(m) + DataBytes(log[from + 1..])
      && Granted(limit, log[from..])
           == Granted(if m.WindowUpdate? && m.max > limit then m.max else limit, log[from + 1..])
  {
    assert log[from..][0] == log[from] && log[from..][1..] == log[from + 1..];
  }

  lemma BalancedByReadingUp(s: System, take: bool, stale: bool)
    requires Balanced(s) && s.up < |s.c.hist.log|
    ensures Balanced(ReadUp(s, s.c.hist.log[s.up], take, stale))
  {
    PopStretch(s.c.hist.log, s.up, 0);
    match s.phase
    case Open => DeliveryArrives(s.l, s.c.hist.log[s.up], s.l.reg.inTable || stale);
    case Awaiting => BalancedBySyn(s, s.c.hist.log[s.up], take, stale);
    case _ =>
  }

  lemma BalancedBySyn(s: System, msg: Msg, take: bool, stale: bool)
    requires Balanced(s) && s.phase.Awaiting? && s.up < |s.c.hist.log| && msg == s.c.hist.log[s.up]
    ensures Balanced(ReadUp(s, msg, take, stale))
  {
    PopStretch(s.c.hist.log, s.up, 0);
    var s' := ReadUp(s, msg, take, stale);
    assert s'.l.st.rx.received == s.l.st.rx.received && s'.l.st.sent == s.l.st.sent;
    assert s'.l.out.log == s.l.out.log && s'.l.out.lost == s.l.out.lost && s'.l.writer == s.l.writer;
  }

  // ---- The credit granted to a sender, wherever the grant is ----

  // The client's limit, counting an update its dispatcher has read.
  function LookedLimit(c: C.Client): nat {
    if c.dispatcher.Found? && c.dispatcher.msg.WindowUpdate? && c.dispatcher.msg.max > c.tx.limit
    then c.dispatcher.msg.max else c.tx.limit
  }

  ghost function ByListener(l: L.Listener, down: nat, limit: nat): nat
    requires down <= |l.out.log|
  {
    Best(limit, l.out.log[down..], L.Owes(l.worker))
  }

  ghost function ByClient(c: C.Client, up: nat, limit: nat): nat
    requires up <= |c.hist.log|
  {
    Best(limit, c.hist.log[up..], C.Owes(c.worker))
  }

  // What the listener has granted is all it advertises, while it still serves.
  lemma ListenerGrants(l: L.Listener, ls: L.Step, down: nat, limit: nat)
    requires L.ReceiveInv(l) && L.NextOf(l, ls).To? && !ls.Deliver? && down <= |l.out.log|
    requires ByListener(l, down, limit) <= l.st.rx.advertised
    ensures var l' := L.NextOf(l, ls).l;
      && down <= |l'.out.log| && ByListener(l', down, limit) <= l'.st.rx.advertised
      && (L.Serves(l') ==>
            && L.Serves(l)
            && (ByListener(l, down, limit) == l.st.rx.advertised ==>
                ByListener(l', down, limit) == l'.st.rx.advertised))
  {
    if ls.Work? {
      ListenerWorkerGrants(l, ls.worker, down, limit);
    } else {
      OnlyWorkersGrant(l, ls);
      StretchExtends(l.out.log, L.NextOf(l, ls).l.out.log, down, limit);
    }
  }

  lemma ListenerWorkerGrants(l: L.Listener, m: L.WorkerMove, down: nat, limit: nat)
    requires L.ReceiveInv(l) && L.WorkerStep(l, m).To? && down <= |l.out.log|
    requires ByListener(l, down, limit) <= l.st.rx.advertised
    ensures var l' := L.WorkerStep(l, m).l;
      && down <= |l'.out.log| && ByListener(l', down, limit) <= l'.st.rx.advertised
      && (L.Serves(l') ==>
            && L.Serves(l)
            && (ByListener(l, down, limit) == l.st.rx.advertised ==>
                ByListener(l', down, limit) == l'.st.rx.advertised))
  {
    var l' := L.WorkerStep(l, m).l;
    var move := L.WorkerCredits(l, m);
    GrantStep(move, limit, l.out.log, down, l.st.rx.advertised, L.Owes(l.worker), l'.st.rx.advertised,
        L.Owes(l'.worker));
  }

  lemma OnlyWorkersGrant(l: L.Listener, ls: L.Step)
    requires L.NextOf(l, ls).To? && !ls.Work? && !ls.Deliver?
    ensures var l' := L.NextOf(l, ls).l;
      && l'.st.rx == l.st.rx && l'.worker == l.worker
      && (l'.out.log == l.out.log || (exists m: Msg :: !m.WindowUpdate? && l'.out.log == l.out.log + [m]))
      && (l'.reg.inTable ==> l.reg.inTable)
  {
    var l' := L.NextOf(l, ls).l;
    assert l'.out.log == l.out.log || l'.out.log == l.out.log + [L.Notice(l)]
        || (l.writer.Charged? && l'.out.log == l.out.log + [Data(l.writer.frame)]);
  }

  lemma ClientGrants(c: C.Client, cs: C.Step, up: nat, limit: nat)
    requires C.ReceiveInv(c) && C.FinInv(c) && c.rx.windowActive && c.tx.sent <= c.tx.limit
    requires C.NextOf(c, cs).To? && up <= |c.hist.log|
    requires ByClient(c, up, limit) <= c.rx.advertised
    ensures var c' := C.NextOf(c, cs).c;
      && up <= |c'.hist.log| && ByClient(c', up, limit) <= c'.rx.advertised
      && (C.Serves(c') ==>
            && C.Serves(c)
            && (ByClient(c, up, limit) == c.rx.advertised ==> ByClient(c', up, limit) == c'.rx.advertised))
  {
    match cs
    case Work(m) =>
      var move := C.WorkerCredits(c, m);
      var c' := C.WorkerStep(c, m).c;
      GrantStep(move, limit, c.hist.log, up, c.rx.advertised, C.Owes(c.worker), c'.rx.advertised, C.Owes(c'.worker));
    case Writing(m) =>
      C.WriterSends(c, m);
      C.WriterOnlyActivates(c, m);
      StretchExtends(c.hist.log, C.WriterStep(c, m).c.hist.log, up, limit);
    case _ => StretchExtends(c.hist.log, C.NextOf(c, cs).c.hist.log, up, limit);
  }

  predicate Kept(s: System) { s.phase.Open? && s.c.reg.inTable && s.l.reg.inTable }

  ghost predicate UpGrants(s: System)
    requires Cursors(s)
  {
    var granted := ByListener(s.l, s.down, LookedLimit(s.c));
    && granted <= s.l.st.rx.advertised
    && (Kept(s) && L.Serves(s.l) ==> granted == s.l.st.rx.advertised)
  }

  ghost predicate DownGrants(s: System)
    requires Cursors(s)
  {
    var granted := ByClient(s.c, s.up, s.l.st.sendMax);
    s.c.rx.windowActive ==>
      && granted <= s.c.rx.advertised
      && (Kept(s) && C.Serves(s.c) ==> granted == s.c.rx.advertised)
  }

  // What each end keeps on its own, and the callers' discipline.
  ghost predicate ClientOk(c: C.Client) { C.ReceiveInv(c) && C.FinInv(c) && C.SynInv(c) && C.CloseInv(c) }

  ghost predicate EndsOk(s: System) {
    && ClientOk(s.c)
    && (s.phase.Open? ==> L.ReceiveInv(s.l) && L.AcceptedInv(s.l) && L.CloseInv(s.l))
    && (s.phase.Awaiting? || s.c.rx.windowActive)
  }

  lemma EndsKept(s: System, step: Step)
    requires Balanced(s) && EndsOk(s) && NextOf(s, step).To?
    ensures EndsOk(NextOf(s, step).s)
  {
    match step
    case ClientMove(cs) => EndsKeptByClient(s, cs);
    case ListenerMove(ls) => EndsKeptByListener(s, ls);
    case Up(take, stale) => EndsKeptByReadingUp(s, take, stale);
    case Down => EndsKeptByReadingDown(s);
    case Reject => EndsKeptByReject(s);
  }

  lemma EndsKeptByReject(s: System)
    requires EndsOk(s) && NextOf(s, Reject).To?
    ensures EndsOk(NextOf(s, Reject).s)
  {
  }

  lemma EndsKeptByClient(s: System, cs: C.Step)
    requires EndsOk(s) && NextOf(s, ClientMove(cs)).To?
    ensures EndsOk(NextOf(s, ClientMove(cs)).s)
  {
    C.ReceiveKept(s.c, cs);
    C.FinKept(s.c, cs);
    C.SynKept(s.c, cs);
    C.CloseKept(s.c, cs);
    if s.c.rx.windowActive {
      WindowStays(s.c, cs);
    }
  }

  lemma EndsKeptByListener(s: System, ls: L.Step)
    requires EndsOk(s) && NextOf(s, ListenerMove(ls)).To?
    ensures EndsOk(NextOf(s, ListenerMove(ls)).s)
  {
    L.ReceiveKept(s.l, ls);
    L.AcceptedKept(s.l, ls);
    L.CloseKept(s.l, ls);
  }

  lemma EndsKeptByReadingDown(s: System)
    requires EndsOk(s) && NextOf(s, Down).To?
    ensures EndsOk(NextOf(s, Down).s)
  {
    var look := C.Lookup(s.l.out.log[s.down]);
    C.ReceiveKept(s.c, look);
    C.FinKept(s.c, look);
    C.SynKept(s.c, look);
    C.CloseKept(s.c, look);
  }

  lemma WindowStays(c: C.Client, cs: C.Step)
    requires C.ReceiveInv(c) && C.NextOf(c, cs).To? && c.rx.windowActive
    ensures C.NextOf(c, cs).c.rx.windowActive
  {
    if cs.Writing? {
      C.WriterOnlyActivates(c, cs.writer);
    } else {
      C.OthersKeepWindow(c, cs);
    }
  }

  lemma EndsKeptByReadingUp(s: System, take: bool, stale: bool)
    requires Balanced(s) && EndsOk(s) && s.up < |s.c.hist.log|
    ensures EndsOk(ReadUp(s, s.c.hist.log[s.up], take, stale))
  {
    var msg := s.c.hist.log[s.up];
    match s.phase
    case Open =>
      L.ReceiveKept(s.l, L.Deliver(msg, stale));
      L.AcceptedKept(s.l, L.Deliver(msg, stale));
      L.CloseKept(s.l, L.Deliver(msg, stale));
    case Awaiting =>
      if msg.Data? && msg.frame.IsSYN() && ListenerStream.New(true).Enqueue(msg.frame).Accepted? {
        L.InvAtOpening(msg.frame, true);
      }
    case _ =>
  }

  // ---- Grants over a run ----

  ghost predicate Grants(s: System)
    requires Cursors(s)
  {
    UpGrants(s) && DownGrants(s) && s.l.st.sendMax >= INITIAL_STREAM_WINDOW
  }

  // A client move raises the limit it knows only by opening the window.
  lemma LimitStays(c: C.Client, cs: C.Step)
    requires C.NextOf(c, cs).To? && !cs.Lookup?
    ensures var c' := C.NextOf(c, cs).c;
      && (LookedLimit(c') == LookedLimit(c)
          || (!c.rx.windowActive && LookedLimit(c) <= LookedLimit(c') <= INITIAL_STREAM_WINDOW))
      && (c'.reg.inTable ==> c.reg.inTable)
  {
  }

  lemma GrantsKeptByClient(s: System, cs: C.Step)
    requires Balanced(s) && EndsOk(s) && Grants(s) && NextOf(s, ClientMove(cs)).To?
    requires Balanced(NextOf(s, ClientMove(cs)).s)
    ensures Grants(NextOf(s, ClientMove(cs)).s)
  {
    UpGrantsKeptByClient(s, cs);
    DownGrantsKeptByClient(s, cs);
  }

  lemma UpGrantsKeptByClient(s: System, cs: C.Step)
    requires PhaseOk(s) && Cursors(s) && (s.phase.Awaiting? || s.c.rx.windowActive)
    requires UpGrants(s) && NextOf(s, ClientMove(cs)).To? && Cursors(NextOf(s, ClientMove(cs)).s)
    ensures UpGrants(NextOf(s, ClientMove(cs)).s)
  {
    var s' := NextOf(s, ClientMove(cs)).s;
    LimitStays(s.c, cs);
    if LookedLimit(s'.c) != LookedLimit(s.c) {
      GrantedMonotone(LookedLimit(s.c), LookedLimit(s'.c), s.l.out.log[s.down..]);
    }
  }

  lemma DownGrantsKeptByClient(s: System, cs: C.Step)
    requires PhaseOk(s) && Cursors(s) && (s.phase.Awaiting? || s.c.rx.windowActive)
    requires C.ReceiveInv(s.c) && C.FinInv(s.c) && C.SynInv(s.c) && s.c.tx.sent <= s.c.tx.limit
    requires DownGrants(s) && NextOf(s, ClientMove(cs)).To? && Cursors(NextOf(s, ClientMove(cs)).s)
    ensures DownGrants(NextOf(s, ClientMove(cs)).s)
  {
    if s.c.rx.windowActive {
      ClientGrants(s.c, cs, s.up, s.l.st.sendMax);
    } else {
      var c' := NextOf(s, ClientMove(cs)).s.c;
      if c'.rx.windowActive {
        OpeningGrants(s.c, cs, s.up, s.l.st.sendMax);
      }
    }
  }

  lemma {:induction false} ResetsGrantNothing(limit: nat, log: seq<Msg>)
    requires C.OnlyResets(log)
    ensures Granted(limit, log) == limit
  {
    if log != [] {
      ResetsGrantNothing(limit, log[1..]);
    }
  }

  // Nothing has been granted before the SYN opens the window.
  lemma OpeningGrants(c: C.Client, cs: C.Step, up: nat, limit: nat)
    requires C.ReceiveInv(c) && C.SynInv(c) && up <= |c.hist.log| && limit == INITIAL_STREAM_WINDOW
    requires C.NextOf(c, cs).To? && !c.rx.windowActive && C.NextOf(c, cs).c.rx.windowActive
    ensures var c' := C.NextOf(c, cs).c;
      && up <= |c'.hist.log| && ByClient(c', up, limit) <= c'.rx.advertised
  {
    ResetsGrantNothing(limit, c.hist.log[up..]);
  }

  lemma GrantsKeptByListener(s: System, ls: L.Step)
    requires PhaseOk(s) && Cursors(s) && L.ReceiveInv(s.l)
    requires Grants(s) && NextOf(s, ListenerMove(ls)).To? && Cursors(NextOf(s, ListenerMove(ls)).s)
    ensures Grants(NextOf(s, ListenerMove(ls)).s)
  {
    ListenerGrants(s.l, ls, s.down, LookedLimit(s.c));
    SendMaxStays(s.l, ls);
  }

  lemma SendMaxStays(l: L.Listener, ls: L.Step)
    requires L.NextOf(l, ls).To? && !ls.Deliver?
    ensures L.NextOf(l, ls).l.st.sendMax == l.st.sendMax && (L.NextOf(l, ls).l.reg.inTable ==> l.reg.inTable)
  {
  }

  lemma GrantsKeptByReadingDown(s: System)
    requires Cursors(s) && Grants(s) && NextOf(s, Down).To? && Cursors(NextOf(s, Down).s)
    ensures Grants(NextOf(s, Down).s)
  {
    var limit, msg := s.c.tx.limit, s.l.out.log[s.down];
    PopStretch(s.l.out.log, s.down, limit);
    var raised := if msg.WindowUpdate? && msg.max > limit then msg.max else limit;
    GrantedMonotone(limit, raised, s.l.out.log[s.down + 1..]);
  }

  lemma GrantsKeptByReject(s: System)
    requires PhaseOk(s) && Cursors(s) && Grants(s) && NextOf(s, Reject).To? && Cursors(NextOf(s, Reject).s)
    ensures Grants(NextOf(s, Reject).s)
  {
    StretchExtends(s.l.out.log, s.l.out.log + [StreamReset], s.down, LookedLimit(s.c));
  }

  lemma GrantsKeptByReadingUp(s: System, take: bool, stale: bool)
    requires Balanced(s) && EndsOk(s) && Grants(s) && s.up < |s.c.hist.log|
    requires Balanced(ReadUp(s, s.c.hist.log[s.up], take, stale))
    ensures Grants(ReadUp(s, s.c.hist.log[s.up], take, stale))
  {
    match s.phase
    case Open => GrantsKeptByDelivery(s, s.c.hist.log[s.up], stale);
    case Awaiting => GrantsKeptBySyn(s, s.c.hist.log[s.up], take, stale);
    case _ => LimitAfterPop(s.c.hist.log, s.up, s.l.st.sendMax, s.l.st.sendMax);
  }

  // Reading an update and taking it leaves the credit granted as it was;
  // reading it and not taking it can only lower it.
  lemma LimitAfterPop(log: seq<Msg>, from: nat, limit: nat, limit': nat)
    requires from < |log|
    ensures var m := log[from];
      var raised := if m.WindowUpdate? && m.max > limit then m.max else limit;
      && (limit' == raised ==> Granted(limit', log[from + 1..]) == Granted(limit, log[from..]))
      && (limit <= limit' <= raised ==> Granted(limit', log[from + 1..]) <= Granted(limit, log[from..]))
  {
    var m := log[from];
    var raised := if m.WindowUpdate? && m.max > limit then m.max else limit;
    PopStretch(log, from, limit);
    if limit' <= raised {
      GrantedMonotone(limit', raised, log[from + 1..]);
    }
  }

  lemma GrantsKeptByDelivery(s: System, msg: Msg, stale: bool)
    requires Cursors(s) && Grants(s) && s.phase.Open? && s.up < |s.c.hist.log| && msg == s.c.hist.log[s.up]
    requires L.RegistryOk(s.l.reg, s.l.st) && s.l.st.rx.flow && Cursors(ReadUp(s, msg, false, stale))
    ensures Grants(ReadUp(s, msg, false, stale))
  {
    var found := s.l.reg.inTable || stale;
    DeliveryArrives(s.l, msg, found);
    DeliveredLimit(s.l, msg, found);
    LimitAfterPop(s.c.hist.log, s.up, s.l.st.sendMax, L.DeliverMsg(s.l, msg, found).st.sendMax);
  }

  lemma GrantsKeptBySyn(s: System, msg: Msg, take: bool, stale: bool)
    requires Balanced(s) && EndsOk(s) && Grants(s) && s.phase.Awaiting?
    requires s.up < |s.c.hist.log| && msg == s.c.hist.log[s.up]
    requires Cursors(ReadUp(s, msg, take, stale))
    ensures Grants(ReadUp(s, msg, take, stale))
  {
    LimitAfterPop(s.c.hist.log, s.up, INITIAL_STREAM_WINDOW, INITIAL_STREAM_WINDOW);
    var s' := ReadUp(s, msg, take, stale);
    if s'.phase.Open? {
      OpeningMeetsGrants(s);
      GrantsAtOpening(s', s.up + 1);
    }
  }

  lemma GrantsAtOpening(s: System, up: nat)
    requires Cursors(s) && s.up == up && s.down == |s.l.out.log| == 0 && s.l.worker.Idle?
    requires s.l.st.rx.advertised == s.l.st.sendMax == s.c.rx.advertised == INITIAL_STREAM_WINDOW
    requires LookedLimit(s.c) == INITIAL_STREAM_WINDOW
        && ByClient(s.c, up, INITIAL_STREAM_WINDOW) <= INITIAL_STREAM_WINDOW
    ensures Grants(s)
  {
    GrantedMonotone(INITIAL_STREAM_WINDOW, INITIAL_STREAM_WINDOW, s.c.hist.log[up..]);
    assert s.l.out.log[s.down..] == s.l.out.log && Granted(INITIAL_STREAM_WINDOW, s.l.out.log) == INITIAL_STREAM_WINDOW;
  }

  // A stream in the table takes the update; one that is not takes at most it.
  lemma DeliveredLimit(l: L.Listener, msg: Msg, found: bool)
    requires l.st.rx.flow && (l.reg.inTable ==> found && !l.st.closed)
    ensures var l' := L.DeliverMsg(l, msg, found);
      var raised := if msg.WindowUpdate? && msg.max > l.st.sendMax then msg.max else l.st.sendMax;
      && l.st.sendMax <= l'.st.sendMax <= raised
      && (l'.reg.inTable ==> l'.st.sendMax == raised)
  {
  }

  // While the listener has no stream, the client has received nothing, so both
  // windows are still the initial one.
  lemma OpeningMeetsGrants(s: System)
    requires Balanced(s) && EndsOk(s) && Grants(s) && s.phase.Awaiting? && s.c.rx.windowActive
    ensures s.c.rx.advertised == LookedLimit(s.c) == INITIAL_STREAM_WINDOW
  {
    GrantedMonotone(LookedLimit(s.c), LookedLimit(s.c), s.l.out.log[s.down..]);
  }

  lemma GrantsKept(s: System, step: Step)
    requires Balanced(s) && EndsOk(s) && Grants(s) && NextOf(s, step).To? && Balanced(NextOf(s, step).s)
    ensures Grants(NextOf(s, step).s)
  {
    match step
    case ClientMove(cs) => GrantsKeptByClient(s, cs);
    case ListenerMove(ls) => GrantsKeptByListener(s, ls);
    case Up(take, stale) => GrantsKeptByReadingUp(s, take, stale);
    case Down => GrantsKeptByReadingDown(s);
    case Reject => GrantsKeptByReject(s);
  }

  // ---- An end that keeps the stream has dropped none of its frames ----

  ghost predicate Drops(s: System) {
    && s.up <= |s.c.hist.log|
    && (s.c.reg.inTable ==> s.downDropped == 0)
    && (s.phase.Open? && s.l.reg.inTable ==> s.upDropped == 0)
    && (s.phase.Awaiting? && s.upDropped > 0 ==> exists i :: 0 <= i < s.up && s.c.hist.log[i].Data?)
  }

  lemma DropsKept(s: System, step: Step)
    requires Balanced(s) && EndsOk(s) && Drops(s) && NextOf(s, step).To?
    ensures Drops(NextOf(s, step).s)
  {
    match step
    case ClientMove(cs) => DropsKeptByClient(s, cs);
    case ListenerMove(ls) => SendMaxStays(s.l, ls);
    case Up(take, stale) => DropsKeptByReadingUp(s, take, stale);
    case Down =>
    case Reject =>
  }

  lemma DropsKeptByClient(s: System, cs: C.Step)
    requires Balanced(s) && Drops(s) && NextOf(s, ClientMove(cs)).To?
    ensures Drops(NextOf(s, ClientMove(cs)).s)
  {
    LimitStays(s.c, cs);
    ClientSends(s.c, cs, s.up);
    ClientLogGrows(s.c, cs);
    if RefusedByClient(s.c, cs) > 0 {
      assert !C.ActOn(s.c, s.c.dispatcher.msg).reg.inTable;
    }
  }

  lemma ClientLogGrows(c: C.Client, cs: C.Step)
    requires C.NextOf(c, cs).To? && c.tx.sent <= c.tx.limit
    ensures c.hist.log <= C.NextOf(c, cs).c.hist.log
  {
    if cs.Writing? {
      C.WriterSends(c, cs.writer);
    } else {
      C.OthersSendControls(c, cs);
    }
  }

  lemma DropsKeptByReadingUp(s: System, take: bool, stale: bool)
    requires Balanced(s) && EndsOk(s) && Drops(s) && s.up < |s.c.hist.log|
    ensures Drops(ReadUp(s, s.c.hist.log[s.up], take, stale))
  {
    var msg := s.c.hist.log[s.up];
    match s.phase
    case Open => DeliveryArrives(s.l, msg, s.l.reg.inTable || stale);
    case Awaiting => assert C.IsSynData(msg) ==> s.upDropped == 0;
    case _ =>
  }

  // ---- Runs ----

  function Run(s: System, steps: seq<Step>): Next
    decreases |steps|
  {
    if steps == [] then To(s)
    else match NextOf(s, steps[0])
      case Disabled => Disabled
      case To(s') => Run(s', steps[1..])
  }

  ghost predicate FlowInv(s: System) {
    Balanced(s) && EndsOk(s) && Grants(s) && Drops(s)
  }

  lemma StepKeepsFlow(s: System, step: Step)
    requires FlowInv(s) && NextOf(s, step).To?
    ensures FlowInv(NextOf(s, step).s)
  {
    BalancedKept(s, step);
    EndsKept(s, step);
    GrantsKept(s, step);
    DropsKept(s, step);
  }

  /** Every run of the two ends, in every interleaving, keeps the flow invariant. */
  lemma {:induction false} RunKeepsFlow(s: System, steps: seq<Step>)
    requires FlowInv(s) && Run(s, steps).To?
    ensures FlowInv(Run(s, steps).s)
    decreases |steps|
  {
    if steps != [] {
      StepKeepsFlow(s, steps[0]);
      RunKeepsFlow(NextOf(s, steps[0]).s, steps[1..]);
    }
  }

  lemma FlowAtStart(s: System)
    requires AtStart(s) && ClientOk(s.c)
    ensures FlowInv(s)
  {
    BalancedAtStart(s);
    GrantsAtStart(s);
  }

  ghost predicate AtStart(s: System) {
    && s.phase.Awaiting? && Blank(s.l) && s.l.st.rx.flow
    && s.up == s.down == s.upDropped == s.downDropped == 0
    && |s.c.hist.log| == |s.l.out.log| == 0 && s.c.hist.lost == 0
    && s.c.tx.sent == s.c.tx.limit == s.c.rx.received == 0 && !s.c.rx.windowActive
    && s.c.dispatcher.Waiting? && s.c.worker.Idle? && s.c.writer.Free?
  }

  lemma StartScalars(s: System)
    requires s == INITIAL
    ensures AtStart(s) && s.c == C.OPENED
  {
  }

  lemma BalancedAtStart(s: System)
    requires AtStart(s)
    ensures Balanced(s) && Drops(s)
  {
    NothingInFlight(s.c.hist.log);
    NothingInFlight(s.l.out.log);
  }

  lemma NothingInFlight(log: seq<Msg>)
    requires |log| == 0
    ensures DataBytes(log[0..]) == 0
  {
  }

  lemma ClientOkAtStart(c: C.Client)
    requires c == C.OPENED
    ensures ClientOk(c)
  {
    C.ReceiveAtOpening(c);
    C.NothingSentAtOpening(c);
    SynAtStart(c);
  }

  lemma SynAtStart(c: C.Client)
    requires c == C.OPENED
    ensures C.FinInv(c) && C.SynInv(c)
  {
  }

  lemma GrantsAtStart(s: System)
    requires AtStart(s)
    ensures Grants(s)
  {
    assert s.l.out.log[s.down..] == s.l.out.log && Granted(0, s.l.out.log) == 0;
  }

  // ---- What the invariant promises ----

  lemma {:induction false} UpdatesWithinGranted(limit: nat, log: seq<Msg>, i: nat)
    requires i < |log| && log[i].WindowUpdate?
    ensures log[i].max <= Granted(limit, log)
    decreases |log|
  {
    var first := if log[0].WindowUpdate? && log[0].max > limit then log[0].max else limit;
    if i == 0 {
      GrantedMonotone(first, first, log[1..]);
    } else {
      UpdatesWithinGranted(first, log[1..], i - 1);
    }
  }

  // Sent is received, in flight, reserved, or lost to a failed write; and sent
  // is within the sender's limit, which is within what the receiver advertises.
  ghost predicate Conserved(sent: nat, received: nat, inFlight: nat, reserved: nat, lost: nat) {
    sent == received + inFlight + reserved + lost
  }

  ghost predicate UpdatesWithin(log: seq<Msg>, from: nat, advertised: nat) {
    forall i :: from <= i < |log| && log[i].WindowUpdate? ==> log[i].max <= advertised
  }

  /** Credit safety, while both ends keep the stream, in both directions. */
  lemma CreditSafety(s: System)
    requires FlowInv(s) && Kept(s)
    ensures Conserved(s.c.tx.sent, s.l.st.rx.received, DataBytes(s.c.hist.log[s.up..]), C.ChargedBytes(s.c.writer),
                      s.c.hist.lost)
    ensures Conserved(s.l.st.sent, s.c.rx.received, DataBytes(s.l.out.log[s.down..]) + Looked(s.c.dispatcher),
                      L.ChargedBytes(s.l.writer), 0)
    ensures s.c.tx.sent <= s.c.tx.limit <= s.l.st.rx.advertised
    ensures s.l.st.sent <= s.l.st.sendMax <= s.c.rx.advertised
    ensures UpdatesWithin(s.l.out.log, s.down, s.l.st.rx.advertised)
    ensures UpdatesWithin(s.c.hist.log, s.up, s.c.rx.advertised)
  {
    var up, down := s.c.hist.log[s.up..], s.l.out.log[s.down..];
    GrantedMonotone(LookedLimit(s.c), LookedLimit(s.c), down);
    GrantedMonotone(s.l.st.sendMax, s.l.st.sendMax, up);
    forall i | s.down <= i < |s.l.out.log| && s.l.out.log[i].WindowUpdate?
      ensures s.l.out.log[i].max <= s.l.st.rx.advertised
    {
      UpdatesWithinGranted(LookedLimit(s.c), down, i - s.down);
    }
    forall i | s.up <= i < |s.c.hist.log| && s.c.hist.log[i].WindowUpdate?
      ensures s.c.hist.log[i].max <= s.c.rx.advertised
    {
      UpdatesWithinGranted(s.l.st.sendMax, up, i - s.up);
    }
  }

  /** No end ever refuses a frame for exceeding the window. */
  lemma NoWindowViolation(s: System)
    requires FlowInv(s)
    ensures s.phase.Open? && s.up < |s.c.hist.log| && s.c.hist.log[s.up].Data? ==>
              s.l.st.Enqueue(s.c.hist.log[s.up].frame) != ListenerStream.Refused(ListenerStream.FlowControlViolation)
    ensures s.c.dispatcher.Found? && s.c.dispatcher.msg.Data? ==>
              var counting := s.c.rx.Count(s.c.dispatcher.msg.frame, true);
              && counting != ClientStream.Refused(ClientStream.ReceiveWindowExceeded)
              && (s.phase.Open? ==> counting != ClientStream.Refused(ClientStream.StreamNotStarted))
  {
    GrantedMonotone(LookedLimit(s.c), LookedLimit(s.c), s.l.out.log[s.down..]);
    GrantedMonotone(s.l.st.sendMax, s.l.st.sendMax, s.c.hist.log[s.up..]);
    if s.up < |s.c.hist.log| {
      PopStretch(s.c.hist.log, s.up, 0);
    }
  }

  // Everything sent by the client has arrived and been consumed, and every
  // update has come back.
  ghost predicate UpQuiet(s: System) {
    && s.up == |s.c.hist.log| && !s.c.writer.Charged? && s.l.st.rx.received == s.l.st.rx.consumed
    && s.down == |s.l.out.log| && s.c.dispatcher.Waiting? && L.Owes(s.l.worker) == 0 && !L.GivenUp(s.l.worker)
  }

  ghost predicate DownQuiet(s: System) {
    && s.down == |s.l.out.log| && s.c.dispatcher.Waiting? && !s.l.writer.Charged?
    && s.c.rx.received == s.c.rx.consumed
    && s.up == |s.c.hist.log| && C.Owes(s.c.worker) == 0 && !s.c.rx.inboundFIN
  }

  /** No credit deadlock: at rest the client has more than half a window left, less only what
      failed writes have cost it, and a frame is granted exactly when it fits that; with nothing
      lost, any legal frame is. */
  lemma NoCreditDeadlockUp(s: System, f: Frame)
    requires FlowInv(s) && Kept(s) && UpQuiet(s)
    ensures s.c.tx.limit - s.c.tx.sent
         == INITIAL_STREAM_WINDOW - (s.l.st.rx.consumed - s.l.st.rx.lastUpdate) - s.c.hist.lost
    ensures s.c.tx.limit - s.c.tx.sent > STREAM_WINDOW_UPDATE_THRESHOLD - s.c.hist.lost
    ensures s.c.tx.TryReserve(f.FlowBytes()).Reserved? <==>
              f.FlowBytes() <= INITIAL_STREAM_WINDOW - (s.l.st.rx.consumed - s.l.st.rx.lastUpdate) - s.c.hist.lost
    ensures s.c.hist.lost == 0 && f.ValidPayload() ==> s.c.tx.TryReserve(f.FlowBytes()).Reserved?
  {
  }

  /** The listener fails the stream when a write fails, so it never leaks credit. */
  lemma NoCreditDeadlockDown(s: System, f: Frame)
    requires FlowInv(s) && Kept(s) && DownQuiet(s)
    ensures s.l.st.sendMax - s.l.st.sent
         == INITIAL_STREAM_WINDOW - (s.c.rx.consumed - s.c.rx.lastUpdate)
    ensures s.l.st.sendMax - s.l.st.sent > STREAM_WINDOW_UPDATE_THRESHOLD
    ensures s.l.st.TryReserve(f.FlowBytes()).Reserved? <==>
              f.FlowBytes() <= INITIAL_STREAM_WINDOW - (s.c.rx.consumed - s.c.rx.lastUpdate)
    ensures f.ValidPayload() ==> s.l.st.TryReserve(f.FlowBytes()).Reserved?
  {
  }

  /** Every run from the opening of the stream, in every interleaving. */
  lemma FlowOverRuns(s0: System, steps: seq<Step>)
    requires s0 == INITIAL && Run(s0, steps).To?
    ensures FlowInv(Run(s0, steps).s)
  {
    StartScalars(s0);
    ClientOkAtStart(s0.c);
    FlowAtStart(s0);
    RunKeepsFlow(s0, steps);
  }

  // What was sent is received, in flight, reserved or lost to a failed write, and lies within the
  // limit, which lies within the advertised window.
  ghost predicate Credited(s: System)
    requires Cursors(s)
  {
    && Conserved(s.c.tx.sent, s.l.st.rx.received, DataBytes(s.c.hist.log[s.up..]), C.ChargedBytes(s.c.writer),
                 s.c.hist.lost)
    && Conserved(s.l.st.sent, s.c.rx.received, DataBytes(s.l.out.log[s.down..]) + Looked(s.c.dispatcher),
                 L.ChargedBytes(s.l.writer), 0)
    && s.c.tx.sent <= s.c.tx.limit <= s.l.st.rx.advertised
    && s.l.st.sent <= s.l.st.sendMax <= s.c.rx.advertised
  }

  /** So credit is conserved in every reachable state in which both ends keep the stream. */
  lemma CreditOverRuns(s0: System, steps: seq<Step>)
    requires s0 == INITIAL && Run(s0, steps).To?
    ensures var s := Run(s0, steps).s; Cursors(s) && (Kept(s) ==> Credited(s))
  {
    FlowOverRuns(s0, steps);
    var s := Run(s0, steps).s;
    if Kept(s) { CreditSafety(s); }
  }

  /** Where the two ends differ: a failed write of a data frame leaves the client's
      stream open with the credit gone, and closes the listener's. */
  lemma FailedWrites(s: System)
    requires FlowInv(s) && Kept(s)
    ensures s.c.writer.Charged? && !s.c.writer.frame.IsSYN() ==>
              var s' := NextOf(s, ClientMove(C.Writing(C.Write(false)))).s;
              && Kept(s') && s'.c.tx == s.c.tx
              && s'.c.hist.lost == s.c.hist.lost + |s.c.writer.frame.payload|
    ensures s.l.writer.Charged? ==> !Kept(NextOf(s, ListenerMove(L.Writing(L.Write(false)))).s)
  {
  }

  // ---- A run that loses credit ----

  function WriteOf(f: Frame, ok: bool): seq<Step> {
    [ClientMove(C.Writing(C.Acquire(f))), ClientMove(C.Writing(C.Reserve)), ClientMove(C.Writing(C.Write(ok)))]
  }

  lemma {:induction false} RunAppend(s: System, a: seq<Step>, b: seq<Step>)
    requires Run(s, a).To?
    ensures Run(s, a + b) == Run(Run(s, a).s, b)
    decreases |a|
  {
    if a == [] {
      assert a + b == b;
    } else {
      assert (a + b)[1..] == a[1..] + b;
      RunAppend(NextOf(s, a[0]).s, a[1..], b);
    }
  }

  // A client whose writers are idle, with a stream it may write `f` to.
  predicate MayWrite(s: System, f: Frame) {
    && s.c.writer.Free? && s.c.reg.inTable && !s.c.reg.outboundFIN && !s.c.tx.failed && !s.c.reg.sessionDone
    && !f.IsFIN() && f.ValidPayload() && (f.IsSYN() <==> !s.c.rx.windowActive)
    && s.c.tx.sent <= s.c.tx.limit && f.FlowBytes() <= s.c.tx.limit - s.c.tx.sent
  }

  lemma RunThree(s: System, a: Step, b: Step, c: Step)
    requires NextOf(s, a).To? && NextOf(NextOf(s, a).s, b).To?
    ensures Run(s, [a, b, c]) == Run(NextOf(NextOf(s, a).s, b).s, [c])
  {
    assert [a, b, c][1..] == [b, c] && [b, c][1..] == [c];
  }

  lemma RunOne(s: System, a: Step)
    ensures Run(s, [a]) == NextOf(s, a)
  {
  }

  lemma Written(s: System, f: Frame, ok: bool)
    requires MayWrite(s, f) && (!ok ==> !f.IsSYN())
    ensures var r := Run(s, WriteOf(f, ok));
      && r.To? && r.s.c.writer.Free? && r.s.c.reg == s.c.reg && r.s.c.rx.windowActive && !r.s.c.tx.failed
      && r.s.c.hist.log == (if ok then s.c.hist.log + [Data(f)] else s.c.hist.log)
      && r.s.c.hist.lost == s.c.hist.lost + (if ok then 0 else f.FlowBytes())
      && r.s.c.tx.sent == s.c.tx.sent + f.FlowBytes() <= r.s.c.tx.limit
      && r.s.c.tx.limit ==
           (if f.IsSYN() && s.c.tx.limit < INITIAL_STREAM_WINDOW then INITIAL_STREAM_WINDOW else s.c.tx.limit)
      && r.s.l == s.l && r.s.phase == s.phase && r.s.up == s.up
  {
    var acquire, reserve := ClientMove(C.Writing(C.Acquire(f))), ClientMove(C.Writing(C.Reserve));
    var s1 := NextOf(s, acquire).s;
    assert s1.c.writer == C.Reserving(f) && s1.c.tx.sent == s.c.tx.sent <= s1.c.tx.limit;
    var s2 := NextOf(s1, reserve).s;
    assert s2.c.writer == C.Charged(f);
    RunThree(s, acquire, reserve, ClientMove(C.Writing(C.Write(ok))));
    RunOne(s2, ClientMove(C.Writing(C.Write(ok))));
  }

  lemma Taken(s: System, syn: Frame)
    requires s.phase.Awaiting? && s.up < |s.c.hist.log| && s.c.hist.log[s.up] == Data(syn)
    requires syn.IsSYN() && ListenerStream.New(true).Enqueue(syn).Accepted?
    ensures var r := Run(s, [Up(true, false)]);
      r.To? && r.s == s.(up := s.up + 1, phase := Open, l := L.Opened(syn, true))
  {
    RunOne(s, Up(true, false));
  }

  /** Such credit is lost in a run of seven steps: a stream is opened, the listener takes it, and the
      write of a first data frame fails; both ends keep the stream, and the credit is gone. */
  lemma CreditLost(s0: System, id: Uint32, payload: seq<Byte>)
    requires s0 == INITIAL && 0 < |payload| <= MAX_CHUNK_SIZE
    ensures var syn, dat := Frame(id, FLAG_SYN, []), Frame(id, FLAG_DAT, payload);
      var r := Run(s0, WriteOf(syn, true) + [Up(true, false)] + WriteOf(dat, false));
      && r.To? && Kept(r.s) && r.s.c.hist.lost == |payload|
      && r.s.c.hist.log == [Data(syn)] && r.s.up == 1
  {
    var syn, dat := Frame(id, FLAG_SYN, []), Frame(id, FLAG_DAT, payload);
    OpeningWrites(s0, syn);
    Written(s0, syn, true);
    var s1 := Run(s0, WriteOf(syn, true)).s;
    Taken(s1, syn);
    RunAppend(s0, WriteOf(syn, true), [Up(true, false)]);
    var s2 := Run(s1, [Up(true, false)]).s;
    Written(s2, dat, false);
    RunAppend(s0, WriteOf(syn, true) + [Up(true, false)], WriteOf(dat, false));
  }

  lemma OpeningWrites(s0: System, syn: Frame)
    requires s0 == INITIAL && syn.IsSYN() && !syn.IsFIN() && syn.payload == []
    ensures MayWrite(s0, syn) && s0.phase.Awaiting? && s0.up == |s0.c.hist.log| == s0.c.hist.lost == 0
    ensures s0.c.tx.limit == 0 && ListenerStream.New(true).Enqueue(syn).Accepted? && s0.c.reg.inTable
  {
  }
}

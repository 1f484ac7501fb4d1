/**
 End to end: what one end's writers put on the channel is what the other end's
 handler or caller gets, in order.
 */
module FlowDelivery {
  import opened Protocol
  import opened Wire
  import opened FlowSystem
  import C = ClientEndpoint
  import L = ListenerEndpoint
  import CR = ClientRuns
  import LR = ListenerRuns
  import ListenerStream

  // The stream's own frames in a log.
  function Frames(log: seq<Msg>): seq<Frame> {
    if log == [] then [] else (if log[0].Data? then [log[0].frame] else []) + Frames(log[1..])
  }

  function FramesIn(m: Msg): seq<Frame> { if m.Data? then [m.frame] else [] }

  lemma {:induction false} FramesGrow(log: seq<Msg>, m: Msg)
    ensures Frames(log + [m]) == Frames(log) + FramesIn(m)
  {
    if log == [] {
      assert log + [m] == [m] && [m][1..] == [];
    } else {
      assert (log + [m])[1..] == log[1..] + [m];
      FramesGrow(log[1..], m);
    }
  }

  // What the reader has read, once it reads one more message.
  lemma FramesRead(log: seq<Msg>, at: nat)
    requires at < |log|
    ensures Frames(log[..at + 1]) == Frames(log[..at]) + FramesIn(log[at])
  {
    assert log[..at + 1] == log[..at] + [log[at]];
    FramesGrow(log[..at], log[at]);
  }

  lemma {:induction false} NoFrames(log: seq<Msg>)
    requires forall i :: 0 <= i < |log| ==> !log[i].Data?
    ensures Frames(log) == []
  {
    if log != [] { NoFrames(log[1..]); }
  }

  // ---- What each end keeps by itself ----

  ghost predicate Ends(c: C.Client, open: bool, l: L.Listener) { CR.RunInv(c) && (open ==> LR.RunInv(l)) }

  // The listener has accepted every frame it has read.
  ghost predicate UpInOrder(log: seq<Msg>, up: nat, open: bool, l: L.Listener) {
    up <= |log| && (open && l.reg.inTable ==> l.handling.accepted == Frames(log[..up]))
  }

  // The client has accepted, in order, what it has read; all of it while it keeps the stream.
  ghost predicate DownInOrder(c: C.Client, log: seq<Msg>, down: nat) {
    && down <= |log| && c.hist.accepted <= Frames(log[..down])
    && (c.reg.inTable ==> CR.Reached(c) == Frames(log[..down]))
    && (c.dispatcher.Found? ==> CR.Reached(c) <= Frames(log[..down]))
  }

  ghost predicate Delivers(s: System) {
    && Ends(s.c, s.phase.Open?, s.l)
    && UpInOrder(s.c.hist.log, s.up, s.phase.Open?, s.l)
    && DownInOrder(s.c, s.l.out.log, s.down)
  }

  // ---- The client's steps ----

  lemma ClientKeepsFrames(c: C.Client, cs: C.Step, read: seq<Frame>)
    requires C.NextOf(c, cs).To? && !cs.Lookup? && c.hist.accepted <= read
    requires c.reg.inTable ==> CR.Reached(c) == read
    requires c.dispatcher.Found? ==> CR.Reached(c) <= read
    ensures var c' := C.NextOf(c, cs).c;
      && c'.hist.accepted <= read && (c'.reg.inTable ==> CR.Reached(c') == read)
      && (c'.dispatcher.Found? ==> CR.Reached(c') <= read)
  {
    var c' := C.NextOf(c, cs).c;
    if c'.reg.inTable {
      CR.ArrivalsStep(c, cs);
      assert CR.Arrivals([cs]) == [] && CR.Reached(c) + [] == CR.Reached(c);
    }
    match cs
    case Act => ActKeepsFrames(c, read);
    case Work(m) => CR.FinishedByWorker(c, m);
    case Writing(m) => C.WriterOnlyActivates(c, m);
    case Push =>
    case PushAbandoned =>
    case _ =>
  }

  lemma ActKeepsFrames(c: C.Client, read: seq<Frame>)
    requires c.dispatcher.Found? && CR.Reached(c) <= read
    ensures var c' := C.ActOn(c, c.dispatcher.msg); c'.hist.accepted <= read && !c'.dispatcher.Found?
  {
  }

  lemma ClientMoves(c: C.Client, cs: C.Step, log: seq<Msg>, down: nat)
    requires CR.RunInv(c) && C.NextOf(c, cs).To? && !cs.Lookup? && DownInOrder(c, log, down)
    ensures CR.RunInv(C.NextOf(c, cs).c) && DownInOrder(C.NextOf(c, cs).c, log, down)
  {
    CR.RunInvKept(c, cs);
    ClientKeepsFrames(c, cs, Frames(log[..down]));
  }

  lemma ReadStays(log: seq<Msg>, log': seq<Msg>, up: nat, open: bool, l: L.Listener)
    requires log <= log' && UpInOrder(log, up, open, l)
    ensures UpInOrder(log', up, open, l)
  {
    assert log'[..up] == log[..up];
  }

  lemma DeliversByClient(s: System, cs: C.Step)
    requires s.c.tx.sent <= s.c.tx.limit && Delivers(s) && NextOf(s, ClientMove(cs)).To?
    ensures Delivers(NextOf(s, ClientMove(cs)).s)
  {
    ClientLogGrows(s.c, cs);
    ReadStays(s.c.hist.log, C.NextOf(s.c, cs).c.hist.log, s.up, s.phase.Open?, s.l);
    ClientMoves(s.c, cs, s.l.out.log, s.down);
  }

  // ---- The listener's ----

  lemma ListenerLogGrows(l: L.Listener, ls: L.Step)
    requires L.NextOf(l, ls).To? && !ls.Deliver? && l.st.rx.flow && l.st.sent <= l.st.sendMax
    ensures l.out.log <= L.NextOf(l, ls).l.out.log
  {
    if ls.Writing? { L.WriterSends(l, ls.writer); } else { L.OthersSendControls(l, ls); }
  }

  lemma ListenerKeepsFrames(l: L.Listener, ls: L.Step, log: seq<Msg>, up: nat)
    requires LR.RunInv(l) && L.NextOf(l, ls).To? && !ls.Deliver? && UpInOrder(log, up, true, l)
    ensures LR.RunInv(L.NextOf(l, ls).l) && UpInOrder(log, up, true, L.NextOf(l, ls).l)
  {
    LR.RunInvKept(l, ls);
    if L.NextOf(l, ls).l.reg.inTable {
      LR.ArrivalsStep(l, ls);
      assert LR.Arrivals([ls]) == [];
    }
  }

  lemma LogExtends(c: C.Client, log: seq<Msg>, log': seq<Msg>, down: nat)
    requires log <= log' && DownInOrder(c, log, down)
    ensures DownInOrder(c, log', down)
  {
    assert log'[..down] == log[..down];
  }

  lemma DeliversByListener(s: System, ls: L.Step)
    requires s.l.st.rx.flow && s.l.st.sent <= s.l.st.sendMax && Delivers(s) && NextOf(s, ListenerMove(ls)).To?
    ensures Delivers(NextOf(s, ListenerMove(ls)).s)
  {
    ListenerLogGrows(s.l, ls);
    LogExtends(s.c, s.l.out.log, L.NextOf(s.l, ls).l.out.log, s.down);
    ListenerKeepsFrames(s.l, ls, s.c.hist.log, s.up);
  }

  // ---- Reading ----

  lemma OpeningRead(log: seq<Msg>, up: nat, syn: Frame)
    requires C.SynFirst(log) && up < |log| && log[up] == Data(syn) && syn.IsSYN()
    ensures Frames(log[..up + 1]) == [syn]
  {
    FramesRead(log, up);
    forall i | 0 <= i < up ensures !log[i].Data? { assert C.IsSynData(log[up]); }
    NoFrames(log[..up]);
    assert [] + [syn] == [syn];
  }

  lemma DeliveredKeeps(l: L.Listener, msg: Msg, stale: bool, log: seq<Msg>, up: nat)
    requires LR.RunInv(l) && UpInOrder(log, up, true, l) && up < |log| && msg == log[up]
    ensures var l' := L.DeliverMsg(l, msg, l.reg.inTable || stale);
      LR.RunInv(l') && UpInOrder(log, up + 1, true, l') && l'.out == l.out
  {
    FramesRead(log, up);
    LR.RunInvKept(l, L.Deliver(msg, stale));
    var l' := L.DeliverMsg(l, msg, l.reg.inTable || stale);
    if l'.reg.inTable {
      LR.ArrivalsStep(l, L.Deliver(msg, stale));
      assert LR.Arrivals([L.Deliver(msg, stale)]) == FramesIn(msg);
    }
  }

  lemma OpenedKeeps(syn: Frame, log: seq<Msg>, up: nat)
    requires syn.IsSYN() && ListenerStream.New(true).Enqueue(syn).Accepted?
    requires C.SynFirst(log) && up < |log| && log[up] == Data(syn)
    ensures var l := L.Opened(syn, true); LR.RunInv(l) && UpInOrder(log, up + 1, true, l) && l.out.log == []
  {
    LR.RunInvAtOpening(syn, true);
    OpeningRead(log, up, syn);
  }

  // The SYN taken, or anything else read, while the listener has no stream.
  ghost predicate ReadsAwaiting(s: System, t: System) {
    && t.c == s.c && t.up == s.up + 1 <= |s.c.hist.log| && t.down == s.down && t.l.out.log == s.l.out.log
    && (t.phase.Open? ==> LR.RunInv(t.l) && UpInOrder(s.c.hist.log, t.up, true, t.l))
  }

  lemma ReadAwaiting(s: System, take: bool, stale: bool)
    requires s.phase.Awaiting? && s.up < |s.c.hist.log| && |s.l.out.log| == 0 && C.SynFirst(s.c.hist.log)
    ensures ReadsAwaiting(s, ReadUp(s, s.c.hist.log[s.up], take, stale))
  {
    var msg := s.c.hist.log[s.up];
    if ReadUp(s, msg, take, stale).phase.Open? { OpenedKeeps(msg.frame, s.c.hist.log, s.up); }
  }

  lemma DeliversByAwaiting(s: System, t: System)
    requires ReadsAwaiting(s, t) && Delivers(s)
    ensures Delivers(t)
  {
  }

  // A message read by the listener's stream.
  ghost predicate ReadsOpen(s: System, t: System) {
    && t.phase.Open? && t.c == s.c && t.up == s.up + 1 <= |s.c.hist.log| && t.down == s.down
    && t.l.out == s.l.out && LR.RunInv(t.l) && UpInOrder(s.c.hist.log, t.up, true, t.l)
  }

  lemma ReadOpen(s: System, take: bool, stale: bool)
    requires s.phase.Open? && s.up < |s.c.hist.log| && LR.RunInv(s.l) && UpInOrder(s.c.hist.log, s.up, true, s.l)
    ensures ReadsOpen(s, ReadUp(s, s.c.hist.log[s.up], take, stale))
  {
    DeliveredKeeps(s.l, s.c.hist.log[s.up], stale, s.c.hist.log, s.up);
  }

  lemma DeliversByDelivery(s: System, t: System)
    requires ReadsOpen(s, t) && Delivers(s)
    ensures Delivers(t)
  {
  }

  // A message read when the listener has refused the stream.
  lemma DeliversByIgnoring(s: System, t: System)
    requires s.up < |s.c.hist.log| && Delivers(s) && !t.phase.Open?
    requires t.c == s.c && t.l == s.l && t.up == s.up + 1 && t.down == s.down
    ensures Delivers(t)
  {
  }

  lemma DeliversByReadingUp(s: System, take: bool, stale: bool)
    requires C.SynFirst(s.c.hist.log) && Delivers(s) && s.up < |s.c.hist.log|
    requires s.phase.Awaiting? ==> |s.l.out.log| == 0
    ensures Delivers(ReadUp(s, s.c.hist.log[s.up], take, stale))
  {
    var t := ReadUp(s, s.c.hist.log[s.up], take, stale);
    match s.phase
    case Open => ReadOpen(s, take, stale); DeliversByDelivery(s, t);
    case Awaiting => ReadAwaiting(s, take, stale); DeliversByAwaiting(s, t);
    case _ => DeliversByIgnoring(s, t);
  }

  lemma LookedUpKeeps(c: C.Client, log: seq<Msg>, down: nat)
    requires CR.RunInv(c) && DownInOrder(c, log, down) && down < |log| && c.dispatcher.Waiting?
    ensures if c.reg.inTable then
              var c' := c.(dispatcher := C.Found(log[down])); CR.RunInv(c') && DownInOrder(c', log, down + 1)
            else DownInOrder(c, log, down + 1)
  {
    FramesRead(log, down);
    if c.reg.inTable {
      CR.RunInvKept(c, C.Lookup(log[down]));
      assert c.hist.accepted + [] == c.hist.accepted;
    }
  }

  lemma DeliversByReadingDown(s: System)
    requires Delivers(s) && NextOf(s, Down).To?
    ensures Delivers(NextOf(s, Down).s)
  {
    LookedUpKeeps(s.c, s.l.out.log, s.down);
  }

  lemma DeliversByReject(s: System)
    requires Delivers(s) && NextOf(s, Reject).To?
    ensures Delivers(NextOf(s, Reject).s)
  {
    LogExtends(s.c, s.l.out.log, s.l.out.log + [StreamReset], s.down);
  }

  lemma StepDelivers(s: System, step: Step)
    requires FlowInv(s) && Delivers(s) && NextOf(s, step).To?
    ensures Delivers(NextOf(s, step).s)
  {
    match step
    case ClientMove(cs) => DeliversByClient(s, cs);
    case ListenerMove(ls) => DeliversByListener(s, ls);
    case Up(take, stale) => DeliversByReadingUp(s, take, stale);
    case Down => DeliversByReadingDown(s);
    case Reject => DeliversByReject(s);
  }

  lemma {:induction false} RunDelivers(s: System, steps: seq<Step>)
    requires FlowInv(s) && Delivers(s) && Run(s, steps).To?
    ensures Delivers(Run(s, steps).s)
    decreases |steps|
  {
    if steps != [] {
      StepKeepsFlow(s, steps[0]);
      StepDelivers(s, steps[0]);
      RunDelivers(NextOf(s, steps[0]).s, steps[1..]);
    }
  }

  lemma DeliversAtStart(s: System)
    requires s == INITIAL
    ensures FlowInv(s) && Delivers(s)
  {
    StartScalars(s);
    ClientOkAtStart(s.c);
    FlowAtStart(s);
    CR.RunInvAtOpening(s.c);
    CR.NothingYet(s.c);
    NothingRead(s);
  }

  lemma NothingRead(s: System)
    requires AtStart(s) && CR.RunInv(s.c) && CR.Reached(s.c) == []
    ensures Delivers(s)
  {
    NothingReached(s.c, s.l.out.log);
  }

  lemma NothingReached(c: C.Client, log: seq<Msg>)
    requires CR.Reached(c) == []
    ensures DownInOrder(c, log, 0)
  {
    assert log[..0] == [] && c.hist.accepted == [];
  }

  // What the two ends have of each other's frames.
  ghost predicate EndToEnd(s: System) {
    && s.up <= |s.c.hist.log| && s.down <= |s.l.out.log|
    && s.c.hist.delivered <= Frames(s.l.out.log)
    && (s.phase.Open? ==> LR.Traced(s.l.handling))
    && (s.phase.Open? && s.l.reg.inTable ==> s.l.handling.accepted == Frames(s.c.hist.log[..s.up]))
  }

  lemma {:induction false} FramesPrefix(log: seq<Msg>, at: nat)
    requires at <= |log|
    ensures Frames(log[..at]) <= Frames(log)
    decreases |log| - at
  {
    if at == |log| {
      assert log[..at] == log;
    } else {
      FramesRead(log, at);
      FramesPrefix(log, at + 1);
    }
  }

  lemma EndToEndOf(s: System)
    requires Delivers(s)
    ensures EndToEnd(s)
  {
    FramesPrefix(s.l.out.log, s.down);
  }

  lemma DeliversInRun(s0: System, steps: seq<Step>)
    requires s0 == INITIAL && Run(s0, steps).To?
    ensures Delivers(Run(s0, steps).s)
  {
    DeliversAtStart(s0);
    RunDelivers(s0, steps);
  }

  /** In every reachable state of both ends the client's caller has got, in order, a prefix of the
      frames the listener wrote; and while the listener keeps the stream it has accepted every frame
      of the client's it has read, and called the handler, as due, for a prefix of these. */
  lemma DeliveredEndToEnd(s0: System, steps: seq<Step>)
    requires s0 == INITIAL && Run(s0, steps).To?
    ensures EndToEnd(Run(s0, steps).s)
  {
    DeliversInRun(s0, steps);
    EndToEndOf(Run(s0, steps).s);
  }

  // Both ends keep the stream, and nothing is on its way or waiting at either.
  predicate Still(s: System) {
    && Kept(s) && s.up == |s.c.hist.log| && s.down == |s.l.out.log|
    && s.c.dispatcher.Waiting? && CR.HandedAll(s.c) && !s.c.worker.Exited?
    && LR.HandledAll(s.l) && !L.GivenUp(s.l.worker)
  }

  ghost predicate AllDelivered(s: System) {
    && s.c.hist.delivered == Frames(s.l.out.log)
    && s.l.handling.accepted == Frames(s.c.hist.log)
    && LR.Traced(s.l.handling) && |s.l.handling.events| == |s.l.handling.accepted|
  }

  /** And once nothing is on its way, the caller has got every frame the listener wrote, and the
      handler has been called for every frame the client wrote. */
  lemma AllDeliveredAtRest(s0: System, steps: seq<Step>)
    requires s0 == INITIAL && Run(s0, steps).To? && Still(Run(s0, steps).s)
    ensures AllDelivered(Run(s0, steps).s)
  {
    DeliversInRun(s0, steps);
    AtRest(Run(s0, steps).s);
  }

  lemma AtRest(s: System)
    requires Delivers(s) && Still(s)
    ensures AllDelivered(s)
  {
    assert s.c.hist.log[..s.up] == s.c.hist.log && s.l.out.log[..s.down] == s.l.out.log;
    CallerHasAll(s.c);
    assert s.c.hist.accepted + [] == s.c.hist.accepted;
  }

  lemma CallerHasAll(c: C.Client)
    requires CR.RunInv(c) && c.reg.inTable && c.dispatcher.Waiting? && CR.HandedAll(c) && !c.worker.Exited?
    ensures c.hist.delivered == c.hist.accepted
  {
    assert C.Held(c.rx, c.dispatcher, c.worker) == [] && c.hist.delivered + [] == c.hist.delivered;
  }

  // ---- Reading goes on ----

  /** Neither direction of the channel is ever stuck: the listener can always read what is in flight,
      and the client's dispatcher can too, once it has dealt with the message before. */
  lemma ReadingGoesOn(s: System, take: bool, stale: bool)
    ensures s.up < |s.c.hist.log| ==> NextOf(s, Up(take, stale)).To? && NextOf(s, Up(take, stale)).s.up == s.up + 1
    ensures s.down < |s.l.out.log| && s.c.dispatcher.Waiting? ==>
              NextOf(s, Down).To? && NextOf(s, Down).s.down == s.down + 1
    ensures s.c.dispatcher.Found? ==>
              C.NextOf(s.c, C.Act).To? && !C.NextOf(s.c, C.Act).c.dispatcher.Found?
    ensures s.c.dispatcher.Counting? ==>
              C.NextOf(s.c, C.Push).To? && C.NextOf(s.c, C.Push).c.dispatcher.Waiting?
  {
  }

  // The SYN is next to be read, and nothing has come back.
  predicate SynNext(s: System) {
    && s.phase.Awaiting? && s.up < |s.c.hist.log| && C.IsSynData(s.c.hist.log[s.up])
    && |s.l.out.log| == s.down == 0 && s.c.reg.inTable && s.c.dispatcher.Waiting?
  }

  /** A stream the listener does not take is reset, and is gone at the client once that is read. */
  lemma RefusedStreamIsReset(s: System, stale: bool)
    requires SynNext(s)
    ensures var r := Run(s, [Up(false, stale), Reject, Down, ClientMove(C.Act)]);
      r.To? && r.s.l.out.log == [StreamReset] && !r.s.c.reg.inTable && r.s.c.reg.removal == C.FailQuietly
  {
    var s1 := s.(up := s.up + 1, phase := Refusing);
    var s2 := s1.(phase := Refused, l := L.Send(s.l, StreamReset));
    assert s2.l.out.log == [StreamReset];
    var s3 := s2.(down := 1, c := s.c.(dispatcher := C.Found(StreamReset)));
    RunOn(s, Up(false, stale), [Reject, Down, ClientMove(C.Act)]);
    RunOn(s1, Reject, [Down, ClientMove(C.Act)]);
    RunOn(s2, Down, [ClientMove(C.Act)]);
    RunOn(s3, ClientMove(C.Act), []);
  }

  lemma RunOn(s: System, step: Step, rest: seq<Step>)
    requires NextOf(s, step).To?
    ensures Run(s, [step] + rest) == Run(NextOf(s, step).s, rest)
  {
    assert ([step] + rest)[1..] == rest;
  }
}

/**
 The handshake of a listener session: when it becomes ready, which version it
 speaks, and what may enter its stream table.
 */
module Readiness {
  import opened Protocol
  import opened Wrappers

  const MAX_AUTH_FAILS := 3

  // Verifying a PIN is equality with the one required; None requires none.
  datatype Config = Config(pin: Option<string>, handlers: set<string>)

  datatype Reply =
    | AuthRequired | ReadySent | AuthResult(success: bool) | ConnectError
    | Rejected(id: Uint32) | Reset(id: Uint32)

  datatype Handshake = Handshake(path: string, negotiated: int, authenticated: bool, ready: bool, fails: nat)

  // streams maps each stream in the table to whether it is flow controlled.
  datatype State = State(hs: Handshake, streams: map<Uint32, bool>, closed: bool, channelClosed: bool, sent: seq<Reply>)

  const START := State(Handshake("", 0, false, false, 0), map[], false, false, [])

  // What reaches the session. `accepts` are the handlers whose OnConnect, if
  // called, accepts; StreamGone is a stream finishing or failing by itself.
  datatype Input =
    | Connect(path: string, version: int, accepts: set<string>)
    | Auth(pin: string, accepts: set<string>)
    | Syn(id: Uint32, kind: string)
    | StreamGone(id: Uint32)
    | CloseSession

  function Say(s: State, r: Reply): State { s.(sent := s.sent + [r]) }

  function BecomeReady(s: State): State { s.(hs := s.hs.(authenticated := true, ready := true)) }

  function OnConnect(c: Config, s: State, path: string, version: int, accepts: set<string>): State {
    var negotiated := if s.hs.negotiated == 0 then NegotiateSWSPVersion(version) else s.hs.negotiated;
    var routed := s.(hs := s.hs.(path := if path == "" then "/" else path, negotiated := negotiated));
    if c.pin.Some? then Say(routed, AuthRequired)
    else if !(c.handlers <= accepts) then Say(routed, ConnectError)
    else Say(BecomeReady(routed), ReadySent)
  }

  function OnAuth(c: Config, s: State, pin: string, accepts: set<string>): State {
    if c.pin == None then s
    else if c.pin.value == pin then
      if !(c.handlers <= accepts) then Say(s, ConnectError)
      else Say(Say(BecomeReady(s), AuthResult(true)), ReadySent)
    else
      var fails := s.hs.fails + 1;
      Say(s.(hs := s.hs.(fails := fails), channelClosed := s.channelClosed
          || fails >= MAX_AUTH_FAILS), AuthResult(false))
  }

  function OnSyn(c: Config, s: State, id: Uint32, kind: string): State {
    if !s.hs.ready then Say(s, Rejected(id))
    else if id in s.streams then Say(s.(streams := s.streams - {id}), Reset(id))
    else if (if kind == "" then "http" else kind) !in c.handlers then Say(s, Rejected(id))
    else s.(streams := s.streams[id := s.hs.negotiated >= 4])
  }

  function Apply(c: Config, s: State, i: Input): State {
    if s.closed then s
    else match i
      case Connect(path, version, accepts) => OnConnect(c, s, path, version, accepts)
      case Auth(pin, accepts) => OnAuth(c, s, pin, accepts)
      case Syn(id, kind) => OnSyn(c, s, id, kind)
      case StreamGone(id) => s.(streams := s.streams - {id})
      case CloseSession => s.(closed := true, streams := map[])
  }

  function Run(c: Config, s: State, inputs: seq<Input>): State
    decreases |inputs|
  {
    if inputs == [] then s else Run(c, Apply(c, s, inputs[0]), inputs[1..])
  }

  // ---- The session as it is updated in place ----

  class Session {
    const c: Config
    var path: string
    var negotiated: int
    var authenticated: bool
    var ready: bool
    var fails: nat
    var streams: map<Uint32, bool>
    var closed: bool
    var channelClosed: bool
    var sent: seq<Reply>

    ghost function Snapshot(): State
      reads this
    {
      State(Handshake(path, negotiated, authenticated, ready, fails), streams, closed, channelClosed, sent)
    }

    constructor (config: Config)
      ensures c == config && Snapshot() == START
    {
      c, path, negotiated, authenticated, ready, fails := config, "", 0, false, false, 0;
      streams, closed, channelClosed, sent := map[], false, false, [];
    }

    // Asks the handlers in whatever order, stopping at the first refusal.
    method NotifyHandlers(accepts: set<string>) returns (ok: bool)
      modifies this`sent
      ensures ok == (c.handlers <= accepts)
      ensures sent == if ok then old(sent) else old(sent) + [ConnectError]
    {
      var left := c.handlers;
      while left != {}
        invariant left <= c.handlers && c.handlers - left <= accepts && sent == old(sent)
      {
        var h :| h in left;
        left := left - {h};
        if h !in accepts {
          sent := sent + [ConnectError];
          return false;
        }
      }
      return true;
    }

    method HandleConnect(requested: string, version: int, accepts: set<string>)
      modifies this
      ensures Snapshot() == OnConnect(c, old(Snapshot()), requested, version, accepts)
    {
      path := if requested == "" then "/" else requested;
      if negotiated == 0 { negotiated := NegotiateSWSPVersion(version); }
      if c.pin.Some? {
        sent := sent + [AuthRequired];
        return;
      }
      var ok := NotifyHandlers(accepts);
      if !ok { return; }
      authenticated, ready := true, true;
      sent := sent + [ReadySent];
    }

    method HandleAuth(pin: string, accepts: set<string>)
      modifies this
      ensures Snapshot() == OnAuth(c, old(Snapshot()), pin, accepts)
    {
      if c.pin == None { return; }
      if c.pin.value == pin {
        var ok := NotifyHandlers(accepts);
        if !ok { return; }
        authenticated, ready := true, true;
        sent := sent + [AuthResult(true)];
        sent := sent + [ReadySent];
        return;
      }
      fails := fails + 1;
      sent := sent + [AuthResult(false)];
      if fails >= MAX_AUTH_FAILS { channelClosed := true; }
    }

    method HandleSyn(id: Uint32, kind: string)
      requires !closed
      modifies this
      ensures Snapshot() == OnSyn(c, old(Snapshot()), id, kind)
    {
      if !ready {
        sent := sent + [Rejected(id)];
        return;
      }
      if id in streams {
        streams := streams - {id};
        sent := sent + [Reset(id)];
        return;
      }
      var name := if kind == "" then "http" else kind;
      if name !in c.handlers {
        sent := sent + [Rejected(id)];
        return;
      }
      streams := streams[id := negotiated >= 4];
    }
  }

  // ---- Readiness ----

  // The step can make the session ready: every handler accepts, and where a
  // PIN is required it is the one given.
  predicate Grants(c: Config, i: Input) {
    match i
    case Connect(_, _, accepts) => c.pin == None && c.handlers <= accepts
    case Auth(pin, accepts) => c.pin == Some(pin) && c.handlers <= accepts
    case _ => false
  }

  ghost predicate GrantedBeforeClose(c: Config, inputs: seq<Input>) {
    exists k :: 0 <= k < |inputs| && Grants(c, inputs[k]) && forall j :: 0 <= j < k ==> !inputs[j].CloseSession?
  }

  ghost predicate Inv(s: State) {
    && (s.hs.authenticated <==> s.hs.ready)
    && (!s.hs.ready ==> s.streams == map[])
    && (s.channelClosed <==> s.hs.fails >= MAX_AUTH_FAILS)
    && 0 <= s.hs.negotiated <= SWSP_VERSION
  }

  lemma StepKeepsInv(c: Config, s: State, i: Input)
    requires Inv(s)
    ensures Inv(Apply(c, s, i))
    ensures Apply(c, s, i).hs.ready <==> s.hs.ready || (!s.closed && Grants(c, i))
  {
  }

  lemma {:induction false} ReadyAfter(c: Config, s: State, inputs: seq<Input>)
    requires Inv(s)
    ensures Inv(Run(c, s, inputs))
    ensures Run(c, s, inputs).hs.ready <==> s.hs.ready || (!s.closed && GrantedBeforeClose(c, inputs))
    decreases |inputs|
  {
    if inputs != [] {
      var i, rest := inputs[0], inputs[1..];
      StepKeepsInv(c, s, i);
      ReadyAfter(c, Apply(c, s, i), rest);
      GrantedTail(c, inputs);
    }
  }

  lemma GrantedTail(c: Config, inputs: seq<Input>)
    requires inputs != []
    ensures GrantedBeforeClose(c, inputs) <==>
              Grants(c, inputs[0]) || (!inputs[0].CloseSession? && GrantedBeforeClose(c, inputs[1..]))
  {
    var rest := inputs[1..];
    if k :| 0 <= k < |inputs| && Grants(c, inputs[k]) && forall j :: 0 <= j < k ==> !inputs[j].CloseSession? {
      if k > 0 {
        assert rest[k - 1] == inputs[k] && !inputs[0].CloseSession?;
        assert forall j :: 0 <= j < k - 1 ==> rest[j] == inputs[j + 1];
      }
    }
    if !inputs[0].CloseSession? && GrantedBeforeClose(c, rest) {
      var k :| 0 <= k < |rest| && Grants(c, rest[k]) && forall j :: 0 <= j < k ==> !rest[j].CloseSession?;
      assert inputs[k + 1] == rest[k];
      assert forall j :: 0 < j < k + 1 ==> inputs[j] == rest[j - 1];
    }
  }

  /** After any inputs the session is ready exactly when one of them, before it closed, was a
      connect every handler accepted without a PIN being required, or an authentication with the
      right PIN that every handler accepted; and until then no stream is in the table. */
  lemma ReadyIff(c: Config, inputs: seq<Input>)
    ensures var s := Run(c, START, inputs);
      && (s.hs.ready <==> GrantedBeforeClose(c, inputs))
      && (s.streams != map[] ==> GrantedBeforeClose(c, inputs))
      && (s.channelClosed <==> s.hs.fails >= MAX_AUTH_FAILS)
  {
    ReadyAfter(c, START, inputs);
  }

  // ---- The version ----

  // The version offered by the first connect before the session closed.
  function FirstOffer(inputs: seq<Input>): Option<int> {
    if inputs == [] || inputs[0].CloseSession? then None
    else if inputs[0].Connect? then Some(inputs[0].version)
    else FirstOffer(inputs[1..])
  }

  lemma {:induction false} VersionAfter(c: Config, s: State, inputs: seq<Input>)
    ensures Run(c, s, inputs).hs.negotiated ==
              if s.hs.negotiated != 0 || s.closed || FirstOffer(inputs) == None then s.hs.negotiated
              else NegotiateSWSPVersion(FirstOffer(inputs).value)
    decreases |inputs|
  {
    if inputs != [] {
      VersionAfter(c, Apply(c, s, inputs[0]), inputs[1..]);
    }
  }

  /** The version is settled by the first connect and never changes after it. */
  lemma VersionSettledOnce(c: Config, inputs: seq<Input>, more: seq<Input>)
    ensures Run(c, START, inputs).hs.negotiated ==
              if FirstOffer(inputs) == None then 0 else NegotiateSWSPVersion(FirstOffer(inputs).value)
    ensures var s := Run(c, START, inputs);
      s.hs.negotiated != 0 ==> Run(c, s, more).hs.negotiated == s.hs.negotiated
  {
    VersionAfter(c, START, inputs);
    VersionAfter(c, Run(c, START, inputs), more);
  }

  // ---- Wrong PINs, and what the browser is told ----

  // The inputs before the session closed.
  function BeforeClose(inputs: seq<Input>): seq<Input> {
    if inputs == [] || inputs[0].CloseSession? then [] else [inputs[0]] + BeforeClose(inputs[1..])
  }

  predicate WrongPin(c: Config, i: Input) { i.Auth? && c.pin.Some? && c.pin != Some(i.pin) }

  function WrongPins(c: Config, inputs: seq<Input>): nat {
    if inputs == [] then 0 else (if WrongPin(c, inputs[0]) then 1 else 0) + WrongPins(c, inputs[1..])
  }

  // What the handshake answers to an input: a PIN is asked for before any handler.
  function Answer(c: Config, i: Input): seq<Reply> {
    if Grants(c, i) then if i.Connect? then [ReadySent] else [AuthResult(true), ReadySent]
    else if WrongPin(c, i) then [AuthResult(false)]
    else if i.Connect? then if c.pin.Some? then [AuthRequired] else [ConnectError]
    else if i.Auth? && c.pin.Some? then [ConnectError]
    else []
  }

  function Answers(c: Config, inputs: seq<Input>): seq<Reply> {
    if inputs == [] then [] else Answer(c, inputs[0]) + Answers(c, inputs[1..])
  }

  // The replies of the handshake, without those about streams.
  function Handshakes(sent: seq<Reply>): seq<Reply> {
    if sent == [] then []
    else
      var last := sent[|sent| - 1];
      Handshakes(sent[..|sent| - 1]) + if last.Rejected? || last.Reset? then [] else [last]
  }

  lemma HandshakeGrows(sent: seq<Reply>, r: Reply)
    ensures Handshakes(sent + [r]) == Handshakes(sent) + if r.Rejected? || r.Reset? then [] else [r]
  {
    assert (sent + [r])[..|sent|] == sent;
  }

  // What a SYN or a stream's end adds to the replies, if anything.
  predicate AboutStreams(said: seq<Reply>) { said == [] || (|said| == 1 && (said[0].Rejected? || said[0].Reset?)) }

  lemma AnswerSaid(c: Config, s: State, i: Input) returns (said: seq<Reply>)
    requires !s.closed
    ensures Apply(c, s, i).sent == s.sent + said
    ensures if i.Connect? || i.Auth? then said == Answer(c, i) else Answer(c, i) == [] && AboutStreams(said)
    ensures Apply(c, s, i).hs.fails == s.hs.fails + if WrongPin(c, i) then 1 else 0
    ensures Apply(c, s, i).closed <==> i.CloseSession?
  {
    match i
    case Connect(path, version, accepts) => said := Answer(c, i); ConnectSaid(c, s, path, version, accepts);
    case Auth(pin, accepts) => said := Answer(c, i); AuthSaid(c, s, pin, accepts);
    case Syn(id, kind) =>
      said := if !s.hs.ready then [Rejected(id)] else if id in s.streams then [Reset(id)]
              else if (if kind == "" then "http" else kind) !in c.handlers then [Rejected(id)] else [];
      assert s.sent + [] == s.sent;
    case _ => said := []; assert s.sent + [] == s.sent;
  }

  lemma ConnectSaid(c: Config, s: State, path: string, version: int, accepts: set<string>)
    ensures var t := OnConnect(c, s, path, version, accepts);
      t.sent == s.sent + Answer(c, Connect(path, version, accepts)) && t.hs.fails == s.hs.fails && t.closed == s.closed
  {
  }

  lemma AuthSaid(c: Config, s: State, pin: string, accepts: set<string>)
    ensures var t, i := OnAuth(c, s, pin, accepts), Auth(pin, accepts);
      && t.sent == s.sent + Answer(c, i) && t.closed == s.closed
      && t.hs.fails == s.hs.fails + if WrongPin(c, i) then 1 else 0
  {
    assert s.sent + [AuthResult(true)] + [ReadySent] == s.sent + [AuthResult(true), ReadySent];
    assert s.sent + [] == s.sent;
  }

  lemma TwoHeard(sent: seq<Reply>)
    ensures Handshakes(sent + [AuthResult(true), ReadySent]) == Handshakes(sent) + [AuthResult(true), ReadySent]
  {
    HandshakeGrows(sent, AuthResult(true));
    HandshakeGrows(sent + [AuthResult(true)], ReadySent);
    assert sent + [AuthResult(true), ReadySent] == sent + [AuthResult(true)] + [ReadySent];
  }

  lemma HandshakesAnswered(sent: seq<Reply>, c: Config, i: Input)
    ensures Handshakes(sent + Answer(c, i)) == Handshakes(sent) + Answer(c, i)
  {
    var a := Answer(c, i);
    if a == [] {
      assert sent + a == sent && Handshakes(sent) + a == Handshakes(sent);
    } else if |a| == 1 {
      HandshakeGrows(sent, a[0]);
      assert a == [a[0]];
    } else {
      TwoHeard(sent);
    }
  }

  lemma StreamsUnheard(sent: seq<Reply>, said: seq<Reply>)
    requires AboutStreams(said)
    ensures Handshakes(sent + said) == Handshakes(sent)
  {
    if said == [] {
      assert sent + said == sent;
    } else {
      HandshakeGrows(sent, said[0]);
      assert said == [said[0]] && Handshakes(sent) + [] == Handshakes(sent);
    }
  }

  lemma HeardOne(c: Config, s: State, i: Input)
    requires !s.closed
    ensures Handshakes(Apply(c, s, i).sent) == Handshakes(s.sent) + Answer(c, i)
    ensures Apply(c, s, i).hs.fails == s.hs.fails + if WrongPin(c, i) then 1 else 0
    ensures Apply(c, s, i).closed <==> i.CloseSession?
  {
    var said := AnswerSaid(c, s, i);
    if i.Connect? || i.Auth? {
      HandshakesAnswered(s.sent, c, i);
    } else {
      StreamsUnheard(s.sent, said);
      assert Handshakes(s.sent) + [] == Handshakes(s.sent);
    }
  }

  lemma Chained(from: seq<Reply>, first: seq<Reply>, mid: seq<Reply>, rest: seq<Reply>, end: seq<Reply>)
    requires mid == from + first && end == mid + rest
    ensures end == from + (first + rest)
  {
  }

  lemma {:induction false} SaidAfter(c: Config, s: State, inputs: seq<Input>)
    requires !s.closed
    ensures Handshakes(Run(c, s, inputs).sent) == Handshakes(s.sent) + Answers(c, BeforeClose(inputs))
    ensures Run(c, s, inputs).hs.fails == s.hs.fails + WrongPins(c, BeforeClose(inputs))
    decreases |inputs|
  {
    if inputs != [] {
      var next, rest := Apply(c, s, inputs[0]), inputs[1..];
      HeardOne(c, s, inputs[0]);
      if inputs[0].CloseSession? {
        ClosedHearsNothing(c, next, rest);
      } else {
        SaidAfter(c, next, rest);
        Chained(Handshakes(s.sent), Answer(c, inputs[0]), Handshakes(next.sent), Answers(c, BeforeClose(rest)),
                Handshakes(Run(c, s, inputs).sent));
      }
    }
  }

  lemma {:induction false} ClosedHearsNothing(c: Config, s: State, inputs: seq<Input>)
    requires s.closed
    ensures Run(c, s, inputs) == s
    decreases |inputs|
  {
    if inputs != [] { ClosedHearsNothing(c, s, inputs[1..]); }
  }

  /** Before the session closes each input of the handshake is answered by itself, in order, whatever
      went before; wrong PINs are counted, and the third closes the channel. */
  lemma AnsweredInOrder(c: Config, inputs: seq<Input>)
    ensures var s, heard := Run(c, START, inputs), BeforeClose(inputs);
      && Handshakes(s.sent) == Answers(c, heard)
      && s.hs.fails == WrongPins(c, heard)
      && (s.channelClosed <==> WrongPins(c, heard) >= 3)
  {
    SaidAfter(c, START, inputs);
    ReadyAfter(c, START, inputs);
    assert Handshakes(START.sent) + Answers(c, BeforeClose(inputs)) == Answers(c, BeforeClose(inputs));
  }

  // ---- What enters the table ----

  // The type a stream asks for; "http" when it names none.
  predicate Served(c: Config, kind: string) {
    (kind != "" && kind in c.handlers) || (kind == "" && "http" in c.handlers)
  }

  /** A stream enters the table exactly when the session is ready, its ID is free and its type is
      served; a second SYN for an ID in the table takes that stream out and resets it; nothing else
      in the table is touched, and nothing of the handshake. */
  lemma EntersIff(c: Config, s: State, id: Uint32, kind: string)
    requires !s.closed && Inv(s)
    ensures var t := Apply(c, s, Syn(id, kind));
      && t.hs == s.hs && t.channelClosed == s.channelClosed
      && (id in t.streams <==> s.hs.ready && id !in s.streams && Served(c, kind))
      && (id in t.streams ==> t.streams[id] == (s.hs.negotiated >= 4))
      && (forall other :: other != id ==>
            (other in t.streams <==> other in s.streams)
            && (other in s.streams ==> t.streams[other] == s.streams[other]))
      && t.sent == s.sent + (if id in t.streams then [] else if id in s.streams then [Reset(id)] else [Rejected(id)])
  {
  }

  /** A stream that ends leaves the table, alone; and closing the session empties it for good. */
  lemma LeavesIff(c: Config, s: State, id: Uint32, inputs: seq<Input>)
    requires !s.closed
    ensures var t := Apply(c, s, StreamGone(id));
      t == s.(streams := t.streams) && t.streams.Keys == s.streams.Keys - {id}
      && forall other :: other in t.streams ==> t.streams[other] == s.streams[other]
    ensures var t := Apply(c, s, CloseSession);
      t == s.(closed := true, streams := map[]) && Run(c, t, inputs) == t
  {
    ClosedHearsNothing(c, Apply(c, s, CloseSession), inputs);
  }

  // The path of the last connect heard, "/" for one that names none.
  function LastPath(inputs: seq<Input>): Option<string> {
    if inputs == [] then None
    else
      var last := inputs[|inputs| - 1];
      if last.Connect? then Some(if last.path == "" then "/" else last.path) else LastPath(inputs[..|inputs| - 1])
  }

  lemma {:induction false} RunMore(c: Config, s: State, inputs: seq<Input>, i: Input)
    ensures Run(c, s, inputs + [i]) == Apply(c, Run(c, s, inputs), i)
    decreases |inputs|
  {
    if inputs == [] {
      assert inputs + [i] == [i] && [i][1..] == [];
    } else {
      assert (inputs + [i])[1..] == inputs[1..] + [i];
      RunMore(c, Apply(c, s, inputs[0]), inputs[1..], i);
    }
  }

  lemma PathStep(c: Config, s: State, i: Input)
    requires !s.closed && !i.CloseSession?
    ensures !Apply(c, s, i).closed
    ensures Apply(c, s, i).hs.path == if i.Connect? then (if i.path == "" then "/" else i.path) else s.hs.path
  {
  }

  /** The session is routed by its last connect, however often it connects. */
  lemma {:induction false} RoutedByLast(c: Config, inputs: seq<Input>)
    requires forall i :: 0 <= i < |inputs| ==> !inputs[i].CloseSession?
    ensures var s := Run(c, START, inputs);
      !s.closed && s.hs.path == if LastPath(inputs) == None then "" else LastPath(inputs).value
    decreases |inputs|
  {
    if inputs != [] {
      var front, last := inputs[..|inputs| - 1], inputs[|inputs| - 1];
      RoutedByLast(c, front);
      RunMore(c, START, front, last);
      PathStep(c, Run(c, START, front), last);
      assert inputs == front + [last];
    }
  }

  // ---- One flow-control mode ----

  ghost predicate OneMode(s: State) {
    forall id :: id in s.streams ==> s.streams[id] == (s.hs.negotiated >= 4)
  }

  ghost predicate AlwaysOneMode(c: Config, s: State, inputs: seq<Input>)
    decreases |inputs|
  {
    OneMode(s) && (inputs == [] || AlwaysOneMode(c, Apply(c, s, inputs[0]), inputs[1..]))
  }

  // A connect settles the version at 4 or above while streams are already open.
  predicate ConnectsLate(c: Config, s: State, inputs: seq<Input>)
    decreases |inputs|
  {
    inputs != [] &&
    (LateConnect(s, inputs[0]) || ConnectsLate(c, Apply(c, s, inputs[0]), inputs[1..]))
  }

  predicate LateConnect(s: State, i: Input) {
    !s.closed && i.Connect? && s.hs.negotiated == 0 && s.streams != map[] && NegotiateSWSPVersion(i.version) >= 4
  }

  lemma StepMode(c: Config, s: State, i: Input)
    requires Inv(s) && OneMode(s)
    ensures OneMode(Apply(c, s, i)) <==> !LateConnect(s, i)
  {
    if LateConnect(s, i) {
      var id :| id in s.streams;
      assert !s.streams[id] && id in Apply(c, s, i).streams;
    }
  }

  lemma {:induction false} OneModeIff(c: Config, s: State, inputs: seq<Input>)
    requires Inv(s) && OneMode(s)
    ensures AlwaysOneMode(c, s, inputs) <==> !ConnectsLate(c, s, inputs)
    decreases |inputs|
  {
    if inputs != [] {
      StepKeepsInv(c, s, inputs[0]);
      StepMode(c, s, inputs[0]);
      var next := Apply(c, s, inputs[0]);
      if OneMode(next) {
        OneModeIff(c, next, inputs[1..]);
      }
    }
  }

  lemma {:induction false} NoneLateWithoutPin(c: Config, s: State, inputs: seq<Input>)
    requires c.pin == None && Inv(s) && (s.hs.ready ==> s.hs.negotiated != 0)
    ensures !ConnectsLate(c, s, inputs)
    decreases |inputs|
  {
    if inputs != [] {
      StepKeepsInv(c, s, inputs[0]);
      NoneLateWithoutPin(c, Apply(c, s, inputs[0]), inputs[1..]);
    }
  }

  /** At every moment all streams in the table are flow controlled alike, as the settled version
      says, exactly when no connect settles it while streams are open; without a PIN none can. */
  lemma StreamsShareMode(c: Config, inputs: seq<Input>)
    ensures AlwaysOneMode(c, START, inputs) <==> !ConnectsLate(c, START, inputs)
    ensures c.pin == None ==> AlwaysOneMode(c, START, inputs)
  {
    OneModeIff(c, START, inputs);
    if c.pin == None { NoneLateWithoutPin(c, START, inputs); }
  }

  lemma RunStep(c: Config, s: State, inputs: seq<Input>)
    requires inputs != []
    ensures Run(c, s, inputs) == Run(c, Apply(c, s, inputs[0]), inputs[1..])
  {
  }

  /** With a PIN, authenticating before the first connect makes the session ready with no version
      settled: a stream opened then has no flow control, and the connect that follows leaves it so. */
  lemma AuthBeforeConnect(pin: string, kind: string, id: Uint32, path: string, accepts: set<string>)
    requires kind in accepts && kind != ""
    ensures var c := Config(Some(pin), accepts);
      var s := Run(c, START, [Auth(pin, accepts), Syn(id, kind), Connect(path, 4, accepts)]);
      s.hs.negotiated == 4 && id in s.streams && !s.streams[id]
  {
    var c := Config(Some(pin), accepts);
    RunStep(c, START, [Auth(pin, accepts), Syn(id, kind), Connect(path, 4, accepts)]);
    var a := Apply(c, START, Auth(pin, accepts));
    RunStep(c, a, [Syn(id, kind), Connect(path, 4, accepts)]);
    var b := Apply(c, a, Syn(id, kind));
    RunStep(c, b, [Connect(path, 4, accepts)]);
  }
}

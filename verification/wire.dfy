/**
 What one endpoint puts on the ordered data channel about one stream: its
 frames, and the stream-0 controls naming it. A log is everything sent so far.
 */
module Wire {
  import opened Protocol

  datatype Msg = Data(frame: Frame) | WindowUpdate(max: nat) | StreamReset

  predicate IsFinData(m: Msg) { m.Data? && m.frame.IsFIN() }

  ghost predicate HasFin(log: seq<Msg>) {
    exists i :: 0 <= i < |log| && IsFinData(log[i])
  }

  ghost predicate HasReset(log: seq<Msg>) {
    exists i :: 0 <= i < |log| && log[i].StreamReset?
  }

  // Nothing of the stream follows its FIN except possibly a reset; there is at
  // most one reset, and no frame of the stream follows it.
  ghost predicate TerminalOrder(log: seq<Msg>) {
    forall i, j :: 0 <= i < j < |log| ==>
      && (IsFinData(log[i]) ==> !log[j].Data?)
      && (log[i].StreamReset? ==> !log[j].Data? && !log[j].StreamReset?)
  }

  lemma LogGrows(log: seq<Msg>, m: Msg)
    ensures HasFin(log + [m]) <==> HasFin(log) || IsFinData(m)
    ensures HasReset(log + [m]) <==> HasReset(log) || m.StreamReset?
    ensures TerminalOrder(log + [m]) <==>
              && TerminalOrder(log)
              && (HasFin(log) ==> !m.Data?)
              && (HasReset(log) ==> !m.Data? && !m.StreamReset?)
  {
    var grown := log + [m];
    assert grown[|log|] == m;
    assert forall i :: 0 <= i < |log| ==> grown[i] == log[i];
    if TerminalOrder(grown) {
      forall i, j | 0 <= i < j < |log| ensures grown[i] == log[i] && grown[j] == log[j] {}
      forall i | 0 <= i < |log| && IsFinData(log[i]) ensures !m.Data? {
        assert IsFinData(grown[i]) && 0 <= i < |log|;
      }
    }
  }

  // The frames of one direction, up to its last.
  predicate Finished(frames: seq<Frame>) { frames != [] && frames[|frames| - 1].IsFIN() }

  lemma Chained(from: seq<Frame>, first: seq<Frame>, mid: seq<Frame>, rest: seq<Frame>, end: seq<Frame>)
    requires mid == from + first && end == mid + rest
    ensures end == from + (first + rest)
  {
  }

  // The resets sent.
  function Resets(log: seq<Msg>): nat {
    if log == [] then 0 else (if log[0].StreamReset? then 1 else 0) + Resets(log[1..])
  }

  lemma {:induction false} ResetsGrow(log: seq<Msg>, m: Msg)
    ensures Resets(log + [m]) == Resets(log) + if m.StreamReset? then 1 else 0
  {
    if log == [] {
      assert log + [m] == [m] && [m][1..] == [];
    } else {
      assert (log + [m])[1..] == log[1..] + [m];
      ResetsGrow(log[1..], m);
    }
  }

  // Window bytes of the frames in a stretch of the log.
  function DataBytes(log: seq<Msg>): nat {
    if log == [] then 0
    else (if log[0].Data? then log[0].frame.FlowBytes() else 0) + DataBytes(log[1..])
  }

  // The largest limit granted in a stretch of the log, at least `limit`.
  function Granted(limit: nat, log: seq<Msg>): nat
    decreases |log|
  {
    if log == [] then limit
    else Granted(if log[0].WindowUpdate? && log[0].max > limit then log[0].max else limit, log[1..])
  }

  lemma {:induction false} StretchGrows(limit: nat, log: seq<Msg>, m: Msg)
    ensures DataBytes(log + [m]) == DataBytes(log) + (if m.Data? then m.frame.FlowBytes() else 0)
    ensures Granted(limit, log + [m])
         == (if m.WindowUpdate? && m.max > Granted(limit, log) then m.max else Granted(limit, log))
    decreases |log|
  {
    if log == [] {
      assert log + [m] == [m] && [m][1..] == [];
    } else {
      assert (log + [m])[1..] == log[1..] + [m];
      StretchGrows(if log[0].WindowUpdate? && log[0].max > limit then log[0].max else limit, log[1..], m);
    }
  }

  lemma {:induction false} GrantedMonotone(a: nat, b: nat, log: seq<Msg>)
    requires a <= b
    ensures a <= Granted(a, log) <= Granted(b, log)
    ensures Granted(b, log) <= b || Granted(b, log) == Granted(a, log)
    decreases |log|
  {
    if log != [] {
      var m := log[0];
      GrantedMonotone(if m.WindowUpdate? && m.max > a then m.max else a,
                      if m.WindowUpdate? && m.max > b then m.max else b, log[1..]);
    }
  }

  lemma StretchAfter(log: seq<Msg>, from: nat, m: Msg)
    requires from <= |log|
    ensures (log + [m])[from..] == log[from..] + [m]
  {
  }

  // ---- Credit on its way to the sender ----

  // The largest of the sender's own limit, the updates in flight, and the one
  // the receiver's worker is about to send.
  ghost function Best(limit: nat, inFlight: seq<Msg>, owed: nat): nat {
    if owed > Granted(limit, inFlight) then owed else Granted(limit, inFlight)
  }

  // How a worker's move changes the advertised window `adv` and the update it
  // is about to send. Silent is the client's last window, never announced.
  datatype CreditMove = Same | Earned | Announced | Abandoned | Silent

  ghost predicate CreditMoves(move: CreditMove, adv: nat, owed: nat, adv': nat, owed': nat) {
    match move
    case Same => adv' == adv && owed' == owed
    case Earned => owed' == adv' >= adv
    case Announced => adv' == adv == owed && owed' == 0
    case Abandoned => adv' == adv && owed' == 0
    case Silent => adv' >= adv && owed' == 0
  }

  // The grants never exceed the advertised window, and keep up with it until
  // the worker gives one up.
  lemma GrantStep(move: CreditMove, limit: nat, log: seq<Msg>, from: nat, adv: nat, owed: nat, adv': nat, owed': nat)
    requires from <= |log| && CreditMoves(move, adv, owed, adv', owed')
    requires Best(limit, log[from..], owed) <= adv
    ensures var log' := log + (if move.Announced? then [WindowUpdate(owed)] else []);
      && Best(limit, log'[from..], owed') <= adv'
      && (Best(limit, log[from..], owed) == adv && !move.Abandoned? && !move.Silent? ==>
            Best(limit, log'[from..], owed') == adv')
  {
    if move.Announced? {
      StretchAfter(log, from, WindowUpdate(owed));
      StretchGrows(limit, log[from..], WindowUpdate(owed));
    } else {
      assert log + [] == log;
    }
  }
}

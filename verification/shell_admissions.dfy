/**
 The list of live shells, and who is displaced when it is full.
 */
module ShellAdmissions {
  import opened Wrappers

  // A shell is known by its number in admission order.
  datatype Shell = Shell(no: nat, protected: bool)

  // ---- Displacement ----

  predicate MayDisplace(protected: bool, live: Shell) { protected || !live.protected }

  // The oldest shell this caller may displace.
  function OldestDisplaceable(live: seq<Shell>, protected: bool): (i: int)
    ensures -1 <= i < |live|
    ensures i >= 0 ==> MayDisplace(protected, live[i]) && forall j :: 0 <= j < i ==> !MayDisplace(protected, live[j])
    ensures i < 0 ==> forall j :: 0 <= j < |live| ==> !MayDisplace(protected, live[j])
  {
    if live == [] then -1
    else if MayDisplace(protected, live[0]) then 0
    else
      var i := OldestDisplaceable(live[1..], protected);
      assert forall j :: 0 < j < |live| ==> live[j] == live[1..][j - 1];
      if i < 0 then -1 else i + 1
  }

  datatype Table = Table(live: seq<Shell>, admitted: nat)

  // Refused, or admitted with the shell displaced for it, if any.
  datatype Admission = Refused | Admitted(table: Table, displaced: Option<Shell>)

  function Cut(t: Table, i: nat): Table
    requires i < |t.live|
  {
    t.(live := t.live[..i] + t.live[i + 1..])
  }

  function Append(t: Table, protected: bool): Table {
    Table(t.live + [Shell(t.admitted, protected)], t.admitted + 1)
  }

  function Admit(t: Table, max: int, protected: bool): Admission {
    if max > 0 && |t.live| >= max then
      var i := OldestDisplaceable(t.live, protected);
      if i < 0 then Refused else Admitted(Append(Cut(t, i), protected), Some(t.live[i]))
    else Admitted(Append(t, protected), None)
  }

  function Release(t: Table, shell: Shell): Table { t.(live := Removed(t.live, shell)) }

  function Removed(live: seq<Shell>, shell: Shell): seq<Shell> {
    if live == [] then []
    else if live[0] == shell then live[1..]
    else [live[0]] + Removed(live[1..], shell)
  }

  class Admissions {
    var live: seq<Shell>
    var admitted: nat

    ghost function Snapshot(): Table
      reads this
    {
      Table(live, admitted)
    }

    constructor ()
      ensures Snapshot() == Table([], 0)
    {
      live, admitted := [], 0;
    }

    method FindDisplaceable(protected: bool) returns (i: int)
      ensures i == OldestDisplaceable(live, protected)
    {
      for k := 0 to |live|
        invariant forall j :: 0 <= j < k ==> !MayDisplace(protected, live[j])
      {
        if protected || !live[k].protected { return k; }
      }
      return -1;
    }

    method AdmitShell(max: int, protected: bool) returns (shell: Option<Shell>, displaced: Option<Shell>)
      modifies this
      ensures match Admit(old(Snapshot()), max, protected)
        case Refused => shell == None && displaced == None && Snapshot() == old(Snapshot())
        case Admitted(t, d) => Snapshot() == t && displaced == d && shell == Some(Shell(old(admitted), protected))
    {
      displaced := None;
      if max > 0 && |live| >= max {
        var i := FindDisplaceable(protected);
        if i < 0 { return None, None; }
        displaced := Some(live[i]);
        live := live[..i] + live[i + 1..];
      }
      shell := Some(Shell(admitted, protected));
      live := live + [shell.value];
      admitted := admitted + 1;
    }

    method ReleaseShell(shell: Shell)
      modifies this`live
      ensures Snapshot() == Release(old(Snapshot()), shell)
    {
      for i := 0 to |live|
        invariant live == old(live) && live[..i] + Removed(live[i..], shell) == Removed(live, shell)
      {
        assert live[i..][0] == live[i] && live[i..][1..] == live[i + 1..];
        if live[i] == shell {
          live := live[..i] + live[i + 1..];
          return;
        }
        assert live[..i] + ([live[i]] + Removed(live[i + 1..], shell)) == live[..i + 1] + Removed(live[i + 1..], shell);
      }
      assert live[..|live|] + [] == live;
    }
  }

  // ---- Every sequence of calls ----

  datatype Call = Arrive(protected: bool) | Leave(shell: Shell)

  function Apply(t: Table, max: int, c: Call): Table {
    match c
    case Arrive(protected) => (match Admit(t, max, protected) case Refused => t case Admitted(next, _) => next)
    case Leave(shell) => Release(t, shell)
  }

  function Run(t: Table, max: int, calls: seq<Call>): Table
    decreases |calls|
  {
    if calls == [] then t else Run(Apply(t, max, calls[0]), max, calls[1..])
  }

  // In admission order, each shell once.
  ghost predicate InOrder(t: Table) {
    && (forall i, j :: 0 <= i < j < |t.live| ==> t.live[i].no < t.live[j].no)
    && (forall i :: 0 <= i < |t.live| ==> t.live[i].no < t.admitted)
  }

  lemma AdmitKeeps(t: Table, max: int, protected: bool)
    requires InOrder(t) && (max > 0 ==> |t.live| <= max) && Admit(t, max, protected).Admitted?
    ensures var next := Admit(t, max, protected).table; InOrder(next) && (max > 0 ==> |next.live| <= max)
  {
    var i := OldestDisplaceable(t.live, protected);
    if max > 0 && |t.live| >= max {
      CutKeeps(t, i);
      AppendKeeps(Cut(t, i), protected);
    } else {
      AppendKeeps(t, protected);
    }
  }

  lemma AppendKeeps(t: Table, protected: bool)
    requires InOrder(t)
    ensures InOrder(Append(t, protected)) && |Append(t, protected).live| == |t.live| + 1
  {
  }

  lemma CutKeeps(t: Table, i: nat)
    requires InOrder(t) && i < |t.live|
    ensures InOrder(Cut(t, i)) && |Cut(t, i).live| == |t.live| - 1
    ensures forall s :: s in Cut(t, i).live <==> s in t.live && s != t.live[i]
  {
    var cut := Cut(t, i).live;
    assert forall j :: 0 <= j < |cut| ==> cut[j] == t.live[if j < i then j else j + 1];
    forall s | s in t.live && s != t.live[i] ensures s in cut {
      var j :| 0 <= j < |t.live| && t.live[j] == s;
      assert cut[if j < i then j else j - 1] == s;
    }
  }

  lemma {:induction false} RemovedAt(live: seq<Shell>, shell: Shell, i: nat)
    requires i < |live| && live[i] == shell && forall j :: 0 <= j < i ==> live[j] != shell
    ensures Removed(live, shell) == live[..i] + live[i + 1..]
  {
    if i > 0 {
      assert forall j :: 0 <= j < i - 1 ==> live[1..][j] == live[j + 1];
      RemovedAt(live[1..], shell, i - 1);
      assert live[1..][..i - 1] == live[1..i] && live[1..][i..] == live[i + 1..];
      assert [live[0]] + live[1..i] == live[..i];
    }
  }

  lemma {:induction false} RemovedNone(live: seq<Shell>, shell: Shell)
    requires shell !in live
    ensures Removed(live, shell) == live
  {
    if live != [] { RemovedNone(live[1..], shell); }
  }

  lemma FirstOf(t: Table, shell: Shell, i: nat)
    requires InOrder(t) && i < |t.live| && t.live[i] == shell
    ensures forall j :: 0 <= j < i ==> t.live[j] != shell
  {
  }

  lemma ReleaseKeeps(t: Table, shell: Shell)
    requires InOrder(t)
    ensures InOrder(Release(t, shell)) && |Release(t, shell).live| <= |t.live| && shell !in Release(t, shell).live
    ensures shell !in t.live ==> Release(t, shell) == t
  {
    if i :| 0 <= i < |t.live| && t.live[i] == shell {
      FirstOf(t, shell, i);
      RemovedAt(t.live, shell, i);
      CutKeeps(t, i);
    } else {
      RemovedNone(t.live, shell);
    }
  }

  lemma {:induction false} RunKeeps(t: Table, max: int, calls: seq<Call>)
    requires InOrder(t) && (max > 0 ==> |t.live| <= max)
    ensures var r := Run(t, max, calls); InOrder(r) && (max > 0 ==> |r.live| <= max)
    decreases |calls|
  {
    if calls != [] {
      match calls[0] {
        case Arrive(protected) => if Admit(t, max, protected).Admitted? { AdmitKeeps(t, max, protected); }
        case Leave(shell) => ReleaseKeeps(t, shell);
      }
      RunKeeps(Apply(t, max, calls[0]), max, calls[1..]);
    }
  }

  /** After any arrivals and departures the live shells are in admission order, never more than a
      fixed positive limit. */
  lemma ShellsBounded(max: int, calls: seq<Call>)
    ensures var t := Run(Table([], 0), max, calls); InOrder(t) && (max > 0 ==> |t.live| <= max)
  {
    RunKeeps(Table([], 0), max, calls);
  }

  // A displaced shell is the oldest this caller may displace, and leaves alone.
  ghost predicate Displaces(t: Table, next: Table, shell: Shell, protected: bool) {
    && shell in t.live && shell !in next.live && (shell.protected ==> protected)
    && (forall s :: s in t.live && s.no < shell.no ==> s.protected && !protected)
    && (forall s :: s in t.live && s != shell ==> s in next.live)
  }

  lemma DisplacesOldest(t: Table, i: nat, protected: bool)
    requires InOrder(t) && i < |t.live| && OldestDisplaceable(t.live, protected) == i
    ensures Displaces(t, Append(Cut(t, i), protected), t.live[i], protected)
  {
    CutKeeps(t, i);
    forall s | s in t.live && s.no < t.live[i].no ensures s.protected && !protected {
      var j :| 0 <= j < |t.live| && t.live[j] == s;
      assert j < i && !MayDisplace(protected, t.live[j]);
    }
  }

  /** An arrival displaces at most one shell, the oldest it may, and nobody else leaves; a protected
      shell goes only for a protected arrival; and an arrival is refused exactly when the list is
      full of shells it may not displace. */
  lemma WhoIsDisplaced(calls: seq<Call>, max: int, protected: bool)
    ensures var t := Run(Table([], 0), max, calls);
      match Admit(t, max, protected)
      case Refused => max > 0 && |t.live| == max && !protected && forall s :: s in t.live ==> s.protected
      case Admitted(next, None) => (max <= 0 || |t.live| < max) && t.live <= next.live
      case Admitted(next, Some(shell)) => max > 0 && |t.live| == max && Displaces(t, next, shell, protected)
  {
    RunKeeps(Table([], 0), max, calls);
    var t := Run(Table([], 0), max, calls);
    if max > 0 && |t.live| >= max {
      var i := OldestDisplaceable(t.live, protected);
      if i >= 0 { DisplacesOldest(t, i, protected); }
    }
  }

  /** Releasing a shell that was displaced, or released before, changes nothing. */
  lemma LateReleaseIsNoOp(calls: seq<Call>, max: int, protected: bool, more: seq<Call>)
    ensures var t := Run(Table([], 0), max, calls);
      var a := Admit(t, max, protected);
      a.Admitted? && a.displaced.Some? ==>
        var later := Run(a.table, max, more);
        Release(later, a.displaced.value) == later
  {
    RunKeeps(Table([], 0), max, calls);
    var t := Run(Table([], 0), max, calls);
    var a := Admit(t, max, protected);
    if a.Admitted? && a.displaced.Some? {
      AdmitKeeps(t, max, protected);
      GoneForGood(a.table, max, more, a.displaced.value);
      RemovedNone(Run(a.table, max, more).live, a.displaced.value);
    }
  }

  lemma {:induction false} GoneForGood(t: Table, max: int, calls: seq<Call>, shell: Shell)
    requires InOrder(t) && (max > 0 ==> |t.live| <= max) && shell.no < t.admitted && shell !in t.live
    ensures shell !in Run(t, max, calls).live
    decreases |calls|
  {
    if calls != [] {
      match calls[0] {
        case Arrive(protected) => if Admit(t, max, protected).Admitted? { AdmitKeeps(t, max, protected); }
        case Leave(other) =>
          ReleaseKeeps(t, other);
          if i :| 0 <= i < |t.live| && t.live[i] == other {
            FirstOf(t, other, i);
            RemovedAt(t.live, other, i);
            CutKeeps(t, i);
          }
      }
      GoneForGood(Apply(t, max, calls[0]), max, calls[1..], shell);
    }
  }

  // ---- Who is live ----

  // The flags of the arrivals admitted, in order: all but those refused.
  function AdmittedFlags(t: Table, max: int, calls: seq<Call>): seq<bool>
    decreases |calls|
  {
    if calls == [] then []
    else
      FlagOf(t, max, calls[0]) + AdmittedFlags(Apply(t, max, calls[0]), max, calls[1..])
  }

  // The shells admitted so far, by number, and the flag each came with.
  ghost predicate Flagged(t: Table, flags: seq<bool>) {
    |flags| == t.admitted
    && forall s :: s in t.live ==> s.no < |flags| && s.protected == flags[s.no]
  }

  /** A departure takes that shell alone. */
  lemma LeaveTakesOne(t: Table, shell: Shell)
    requires InOrder(t)
    ensures Release(t, shell).admitted == t.admitted
    ensures forall s :: s in Release(t, shell).live <==> s in t.live && s != shell
  {
    ReleaseKeeps(t, shell);
    if i :| 0 <= i < |t.live| && t.live[i] == shell {
      FirstOf(t, shell, i);
      RemovedAt(t.live, shell, i);
      CutKeeps(t, i);
    }
  }

  lemma NewestIsLast(t: Table, protected: bool)
    ensures var next := Append(t, protected);
      && next.admitted == t.admitted + 1
      && next.live != [] && next.live[|next.live| - 1] == Shell(t.admitted, protected)
      && forall s :: s in next.live <==> s == Shell(t.admitted, protected) || s in t.live
  {
  }

  /** An arrival that is admitted is live, as the newest, under its own flag, beside those it did not displace. */
  lemma ArrivalIsNewest(t: Table, max: int, protected: bool)
    requires InOrder(t) && Admit(t, max, protected).Admitted?
    ensures var a := Admit(t, max, protected);
      && a.table.admitted == t.admitted + 1
      && a.table.live != [] && a.table.live[|a.table.live| - 1] == Shell(t.admitted, protected)
      && forall s :: s in a.table.live <==> s == Shell(t.admitted, protected) || (s in t.live && a.displaced != Some(s))
  {
    if max > 0 && |t.live| >= max {
      var i := OldestDisplaceable(t.live, protected);
      CutKeeps(t, i);
      NewestIsLast(Cut(t, i), protected);
    } else {
      NewestIsLast(t, protected);
    }
  }

  function FlagOf(t: Table, max: int, c: Call): seq<bool> {
    if c.Arrive? && Admit(t, max, c.protected).Admitted? then [c.protected] else []
  }

  lemma FlaggedStep(t: Table, max: int, c: Call, flags: seq<bool>)
    requires InOrder(t) && Flagged(t, flags)
    ensures Flagged(Apply(t, max, c), flags + FlagOf(t, max, c))
  {
    match c
    case Leave(shell) => LeaveTakesOne(t, shell); assert flags + [] == flags;
    case Arrive(protected) =>
      if Admit(t, max, protected).Admitted? { ArrivalIsNewest(t, max, protected); } else { assert flags + [] == flags; }
  }

  lemma {:induction false} FlaggedAfter(t: Table, max: int, calls: seq<Call>, flags: seq<bool>)
    requires InOrder(t) && (max > 0 ==> |t.live| <= max) && Flagged(t, flags)
    ensures Flagged(Run(t, max, calls), flags + AdmittedFlags(t, max, calls))
    decreases |calls|
  {
    if calls == [] {
      assert flags + [] == flags;
    } else {
      var next := Apply(t, max, calls[0]);
      FlaggedStep(t, max, calls[0], flags);
      RunKeeps(t, max, [calls[0]]);
      assert [calls[0]][1..] == [] && Run(t, max, [calls[0]]) == next;
      var more := FlagOf(t, max, calls[0]);
      FlaggedAfter(next, max, calls[1..], flags + more);
      var rest := AdmittedFlags(next, max, calls[1..]);
      assert flags + more + rest == flags + (more + rest);
    }
  }

  /** After any calls every live shell carries the flag of the arrival that it was admitted for. */
  lemma FlagsKept(max: int, calls: seq<Call>)
    ensures Flagged(Run(Table([], 0), max, calls), AdmittedFlags(Table([], 0), max, calls))
  {
    FlaggedAfter(Table([], 0), max, calls, []);
    assert [] + AdmittedFlags(Table([], 0), max, calls) == AdmittedFlags(Table([], 0), max, calls);
  }
}

/**
 Who holds a share's slots, and that each is given back once: the viewers'
 pool, the controller's slot, and the peers that carry the reservations.
 */
module ShareSlots {
  import opened Wrappers

  // A reservation is known by its number in the order they were issued; each
  // has a release that works once.
  datatype Role = Viewer | Controller

  datatype Ticket = Ticket(role: Role, peer: nat)

  datatype Viewers = Viewers(used: int, max: int) {
    function Acquire(): Option<Viewers> { if used >= max then None else Some(this.(used := used + 1)) }

    function Release(): Viewers { this.(used := used - 1) }
  }

  datatype Control = Control(holder: Option<nat>, disabled: bool) {
    function Take(p: nat): Option<Control> { if disabled then None else Some(this.(holder := Some(p))) }

    // Only a slot still held by this peer is given up.
    function Release(p: nat): Control { if holder == Some(p) then this.(holder := None) else this }
  }

  // releases: held for teardown; running: taken by teardown and yet to run.
  datatype Peer = Peer(closed: bool, releases: seq<nat>, running: seq<nat>) {
    function Hold(t: nat): Option<Peer> { if closed then None else Some(this.(releases := releases + [t])) }

    function Teardown(): Peer { if closed then this else Peer(true, [], running + releases) }
  }

  const NEW_PEER := Peer(false, [], [])

  // ---- The pools as they are updated in place ----

  class RoleSlots {
    const max: int
    var used: int
    var spent: set<nat>      // releases whose once has fired

    ghost function Snapshot(): Viewers
      reads this
    {
      Viewers(used, max)
    }

    constructor (size: int)
      ensures Snapshot() == Viewers(0, size) && spent == {}
    {
      max, used, spent := size, 0, {};
    }

    method Acquire() returns (ok: bool)
      modifies this`used
      ensures ok == old(Snapshot()).Acquire().Some?
      ensures Snapshot() == if ok then old(Snapshot()).Acquire().value else old(Snapshot())
    {
      if used >= max { return false; }
      used := used + 1;
      return true;
    }

    method Release(ticket: nat)
      modifies this
      ensures spent == old(spent) + {ticket}
      ensures Snapshot() == if ticket in old(spent) then old(Snapshot()) else old(Snapshot()).Release()
    {
      if ticket in spent { return; }
      spent := spent + {ticket};
      used := used - 1;
    }
  }

  class ControlSlot {
    const disabled: bool
    var holder: Option<nat>
    var spent: set<nat>

    ghost function Snapshot(): Control
      reads this
    {
      Control(holder, disabled)
    }

    constructor (off: bool)
      ensures Snapshot() == Control(None, off) && spent == {}
    {
      disabled, holder, spent := off, None, {};
    }

    method Take(peer: nat) returns (ok: bool, evicted: Option<nat>)
      modifies this`holder
      ensures ok == old(Snapshot()).Take(peer).Some?
      ensures Snapshot() == if ok then old(Snapshot()).Take(peer).value else old(Snapshot())
      ensures evicted == if ok then old(holder) else None
    {
      if disabled { return false, None; }
      evicted := holder;
      holder := Some(peer);
      return true, evicted;
    }

    // The release that Take gave `peer`.
    method Release(ticket: nat, peer: nat)
      modifies this
      ensures spent == old(spent) + {ticket}
      ensures Snapshot() == if ticket in old(spent) then old(Snapshot()) else old(Snapshot()).Release(peer)
    {
      if ticket in spent { return; }
      spent := spent + {ticket};
      if holder == Some(peer) { holder := None; }
    }
  }

  class SharePeer {
    var closed: bool
    var releases: seq<nat>

    constructor ()
      ensures !closed && releases == []
    {
      closed, releases := false, [];
    }

    ghost function Snapshot(running: seq<nat>): Peer
      reads this
    {
      Peer(closed, releases, running)
    }

    method HoldRelease(ticket: nat) returns (held: bool)
      modifies this`releases
      ensures held == old(Snapshot([])).Hold(ticket).Some?
      ensures Snapshot([]) == if held then old(Snapshot([])).Hold(ticket).value else old(Snapshot([]))
    {
      if closed { return false; }
      releases := releases + [ticket];
      return true;
    }

    // The releases to run once the lock is left.
    method TearDown() returns (first: bool, running: seq<nat>)
      modifies this
      ensures first == !old(closed)
      ensures Snapshot(running) == old(Snapshot([])).Teardown()
    {
      if closed { return false, []; }
      closed := true;
      running := releases;
      releases := [];
      assert [] + running == running;
      return true, running;
    }
  }

  // ---- Every interleaving ----

  // building: taken by a buildSession that has not held them yet; refused:
  // hold declined them, and buildSession is about to release them itself.
  datatype Desk = Desk(building: set<nat>, refused: set<nat>)

  datatype World = World(
    viewers: Viewers, control: Control, tickets: seq<Ticket>, spent: set<nat>, desk: Desk, peers: map<nat, Peer>)

  function Start(max: int, disabled: bool): World {
    World(Viewers(0, max), Control(None, disabled), [], {}, Desk({}, {}), map[])
  }

  datatype Step =
    | View(p: nat) | TakeControl(p: nat) | Hold(t: nat) | GiveBack(t: nat)
    | Teardown(p: nat) | RunRelease(p: nat)

  function PeerOf(w: World, p: nat): Peer { if p in w.peers then w.peers[p] else NEW_PEER }

  function Issue(w: World, role: Role, p: nat): World {
    w.(tickets := w.tickets + [Ticket(role, p)],
       desk := w.desk.(building := w.desk.building + {|w.tickets|}))
  }

  // Calling a release.
  function Release(w: World, t: nat): World
    requires t < |w.tickets|
  {
    if t in w.spent then w
    else match w.tickets[t].role
      case Viewer => w.(spent := w.spent + {t}, viewers := w.viewers.Release())
      case Controller => w.(spent := w.spent + {t}, control := w.control.Release(w.tickets[t].peer))
  }

  predicate Enabled(w: World, s: Step) {
    match s
    case View(p) => true
    case TakeControl(p) => true
    case Hold(t) => t in w.desk.building && t < |w.tickets|
    case GiveBack(t) => t in w.desk.refused && t < |w.tickets|
    case Teardown(p) => true
    case RunRelease(p) => PeerOf(w, p).running != [] && PeerOf(w, p).running[0] < |w.tickets|
  }

  function Next(w: World, s: Step): World
    requires Enabled(w, s)
  {
    match s
    case View(p) =>
      (match w.viewers.Acquire()
       case None => w
       case Some(viewers) => Issue(w.(viewers := viewers), Viewer, p))
    case TakeControl(p) =>
      (match w.control.Take(p)
       case None => w
       case Some(control) => Issue(w.(control := control), Controller, p))
    case Hold(t) =>
      var p, desk := w.tickets[t].peer, w.desk.(building := w.desk.building - {t});
      (match PeerOf(w, p).Hold(t)
       case None => w.(desk := desk.(refused := desk.refused + {t}))
       case Some(peer) => w.(desk := desk, peers := w.peers[p := peer]))
    case GiveBack(t) => Release(w.(desk := w.desk.(refused := w.desk.refused - {t})), t)
    case Teardown(p) =>
      if PeerOf(w, p).closed then w else w.(peers := w.peers[p := PeerOf(w, p).Teardown()])
    case RunRelease(p) =>
      var peer := PeerOf(w, p);
      Release(w.(peers := w.peers[p := peer.(running := peer.running[1..])]), peer.running[0])
  }

  // ---- Where each reservation is ----

  datatype Place = Building | Refused | Held | Running | Spent

  predicate Distinct(s: seq<nat>) { forall i, j :: 0 <= i < j < |s| ==> s[i] != s[j] }

  predicate At(w: World, t: nat, place: Place)
    requires t < |w.tickets|
  {
    match place
    case Building => t in w.desk.building
    case Refused => t in w.desk.refused
    case Held => t in PeerOf(w, w.tickets[t].peer).releases
    case Running => t in PeerOf(w, w.tickets[t].peer).running
    case Spent => t in w.spent
  }

  // In one place, and no other.
  ghost predicate InOnePlace(w: World, t: nat)
    requires t < |w.tickets|
  {
    (exists a :: At(w, t, a)) && forall a, b :: At(w, t, a) && At(w, t, b) ==> a == b
  }

  ghost predicate OwnTickets(w: World, p: nat) {
    var peer := PeerOf(w, p);
    && Distinct(peer.releases) && Distinct(peer.running)
    && (forall t :: t in peer.releases || t in peer.running ==> t < |w.tickets| && w.tickets[t].peer == p)
    && (!peer.closed ==> peer.running == []) && (peer.closed ==> peer.releases == [])
  }

  ghost predicate PlacesInv(w: World) {
    && (forall t :: 0 <= t < |w.tickets| ==> InOnePlace(w, t))
    && (forall t :: t in w.desk.building || t in w.desk.refused || t in w.spent ==> t < |w.tickets|)
    && (forall p :: OwnTickets(w, p))
  }

  // Viewers admitted whose release has not run.
  function Unreturned(tickets: seq<Ticket>, spent: set<nat>): nat {
    if tickets == [] then 0
    else
      var last := |tickets| - 1;
      Unreturned(tickets[..last], spent) + if tickets[last].role == Viewer && last !in spent then 1 else 0
  }

  ghost predicate CountInv(w: World) {
    w.viewers.used == Unreturned(w.tickets, w.spent) && (w.viewers.used <= w.viewers.max || w.viewers.used == 0)
  }

  // The controller's slot belongs to the last peer that took it, until its release runs.
  function ControllerOf(tickets: seq<Ticket>, spent: set<nat>): Option<nat> {
    if tickets == [] then None
    else
      var last := |tickets| - 1;
      if tickets[last].role == Viewer then ControllerOf(tickets[..last], spent)
      else if last in spent then None
      else Some(tickets[last].peer)
  }

  // No peer takes control twice: buildSession runs once for each.
  ghost predicate ControlsOnce(tickets: seq<Ticket>) {
    forall i, j :: 0 <= i < j < |tickets| && tickets[i].role == Controller && tickets[j].role == Controller ==>
      tickets[i].peer != tickets[j].peer
  }

  ghost predicate HolderInv(w: World) {
    ControlsOnce(w.tickets) ==> w.control.holder == ControllerOf(w.tickets, w.spent)
  }

  ghost predicate Inv(w: World) { PlacesInv(w) && CountInv(w) && HolderInv(w) }

  // ---- Counting ----

  lemma UnreturnedIssue(tickets: seq<Ticket>, spent: set<nat>, ticket: Ticket)
    requires |tickets| !in spent
    ensures Unreturned(tickets + [ticket], spent) == Unreturned(tickets, spent) + if ticket.role == Viewer then 1 else 0
  {
    assert (tickets + [ticket])[..|tickets|] == tickets;
  }

  lemma {:induction false} UnreturnedSame(tickets: seq<Ticket>, spent: set<nat>, t: nat)
    requires t >= |tickets|
    ensures Unreturned(tickets, spent + {t}) == Unreturned(tickets, spent)
  {
    if tickets != [] { UnreturnedSame(tickets[..|tickets| - 1], spent, t); }
  }

  lemma {:induction false} UnreturnedSpend(tickets: seq<Ticket>, spent: set<nat>, t: nat)
    requires t < |tickets| && t !in spent
    ensures Unreturned(tickets, spent + {t}) == Unreturned(tickets, spent) - if tickets[t].role == Viewer then 1 else 0
  {
    var last := |tickets| - 1;
    if t == last {
      UnreturnedSame(tickets[..last], spent, t);
    } else {
      UnreturnedSpend(tickets[..last], spent, t);
    }
  }

  lemma {:induction false} NoneUnreturned(tickets: seq<Ticket>, spent: set<nat>)
    requires forall t :: 0 <= t < |tickets| ==> t in spent
    ensures Unreturned(tickets, spent) == 0 && ControllerOf(tickets, spent) == None
  {
    if tickets != [] { NoneUnreturned(tickets[..|tickets| - 1], spent); }
  }

  // ---- The controller ----

  lemma ControllerIssue(tickets: seq<Ticket>, spent: set<nat>, ticket: Ticket)
    requires |tickets| !in spent
    ensures ControllerOf(tickets + [ticket], spent)
         == if ticket.role == Viewer then ControllerOf(tickets, spent) else Some(ticket.peer)
  {
    assert (tickets + [ticket])[..|tickets|] == tickets;
  }

  // Spending a ticket frees the slot exactly when its peer is in it.
  lemma {:induction false} ControllerSpend(tickets: seq<Ticket>, spent: set<nat>, t: nat)
    requires t !in spent && ControlsOnce(tickets)
    ensures ControllerOf(tickets, spent + {t}) ==
              if t < |tickets| && tickets[t].role == Controller && ControllerOf(tickets, spent) == Some(tickets[t].peer)
              then None else ControllerOf(tickets, spent)
  {
    if tickets != [] {
      var last := |tickets| - 1;
      var front := tickets[..last];
      assert forall i :: 0 <= i < last ==> front[i] == tickets[i];
      ControllerSpend(front, spent, t);
      if tickets[last].role == Viewer {
        assert t < last ==> front[t] == tickets[t];
      } else if t < last && tickets[t].role == Controller {
        assert tickets[t].peer != tickets[last].peer;
      }
    }
  }

  // ---- What each step moves ----

  // `t` moves to `place`; every other reservation stays where it is.
  ghost predicate Moves(w: World, w': World, t: nat, place: Place) {
    && |w.tickets| <= |w'.tickets| && t < |w'.tickets|
    && (forall x :: 0 <= x < |w.tickets| ==> w'.tickets[x] == w.tickets[x])
    && (forall x, a :: 0 <= x < |w.tickets| && x != t ==> (At(w', x, a) <==> At(w, x, a)))
    && (forall a :: At(w', t, a) <==> a == place)
  }

  lemma MovesKeep(w: World, w': World, t: nat, place: Place)
    requires (forall x :: 0 <= x < |w.tickets| ==> InOnePlace(w, x)) && Moves(w, w', t, place)
    requires |w'.tickets| == |w.tickets| || (|w'.tickets| == |w.tickets| + 1 && t == |w.tickets|)
    ensures forall x :: 0 <= x < |w'.tickets| ==> InOnePlace(w', x)
  {
    forall x | 0 <= x < |w'.tickets| ensures InOnePlace(w', x) {
      if x == t {
        assert At(w', t, place);
      } else {
        assert InOnePlace(w, x);
        var a :| At(w, x, a);
        assert At(w', x, a);
      }
    }
  }

  lemma IssueKeepsPlaces(w: World, role: Role, p: nat)
    requires PlacesInv(w)
    ensures PlacesInv(Issue(w, role, p))
  {
    var w' := Issue(w, role, p);
    var t := |w.tickets|;
    assert OwnTickets(w, p);
    forall x, a | 0 <= x < |w.tickets| ensures At(w', x, a) <==> At(w, x, a) {}
    forall a ensures At(w', t, a) <==> a == Building {}
    MovesKeep(w, w', t, Building);
    forall q ensures OwnTickets(w', q) { assert OwnTickets(w, q); }
  }

  lemma HoldKeepsPlaces(w: World, t: nat)
    requires PlacesInv(w) && Enabled(w, Hold(t))
    ensures PlacesInv(Next(w, Hold(t)))
  {
    var w' := Next(w, Hold(t));
    var p := w.tickets[t].peer;
    assert At(w, t, Building) && InOnePlace(w, t);
    assert !At(w, t, Held) && !At(w, t, Running) && !At(w, t, Refused) && !At(w, t, Spent);
    assert OwnTickets(w, p);
    forall x, a | 0 <= x < |w.tickets| && x != t ensures At(w', x, a) <==> At(w, x, a) {}
    var place := if PeerOf(w, p).closed then Refused else Held;
    forall a ensures At(w', t, a) <==> a == place {}
    MovesKeep(w, w', t, place);
    forall q ensures OwnTickets(w', q) { assert OwnTickets(w, q); }
  }

  lemma GiveBackKeepsPlaces(w: World, t: nat)
    requires PlacesInv(w) && Enabled(w, GiveBack(t))
    ensures PlacesInv(Next(w, GiveBack(t))) && t !in w.spent
  {
    var w' := Next(w, GiveBack(t));
    assert At(w, t, Refused) && InOnePlace(w, t);
    assert !At(w, t, Held) && !At(w, t, Running) && !At(w, t, Building) && !At(w, t, Spent);
    forall x, a | 0 <= x < |w.tickets| && x != t ensures At(w', x, a) <==> At(w, x, a) {}
    forall a ensures At(w', t, a) <==> a == Spent {}
    MovesKeep(w, w', t, Spent);
    forall q ensures OwnTickets(w', q) { assert OwnTickets(w, q); }
  }

  lemma TailOf(s: seq<nat>)
    requires Distinct(s) && s != []
    ensures Distinct(s[1..]) && s[0] !in s[1..] && forall x :: x in s <==> x == s[0] || x in s[1..]
  {
  }

  lemma RunKeepsPlaces(w: World, p: nat)
    requires PlacesInv(w) && Enabled(w, RunRelease(p))
    ensures PlacesInv(Next(w, RunRelease(p))) && PeerOf(w, p).running[0] !in w.spent
  {
    var w' := Next(w, RunRelease(p));
    var running := PeerOf(w, p).running;
    var t := running[0];
    assert OwnTickets(w, p) && w.tickets[t].peer == p;
    assert At(w, t, Running) && InOnePlace(w, t);
    assert !At(w, t, Held) && !At(w, t, Building) && !At(w, t, Refused) && !At(w, t, Spent);
    TailOf(running);
    assert PeerOf(w', p) == PeerOf(w, p).(running := running[1..]);
    forall x, a | 0 <= x < |w.tickets| && x != t ensures At(w', x, a) <==> At(w, x, a) {
      assert OwnTickets(w, w.tickets[x].peer);
    }
    forall a ensures At(w', t, a) <==> a == Spent {}
    MovesKeep(w, w', t, Spent);
    forall q ensures OwnTickets(w', q) { assert OwnTickets(w, q); }
  }

  // A reservation where it was, or where `moved` takes its place.
  lemma StaysInOnePlace(w: World, w': World, t: nat, moved: Place -> Place)
    requires t < |w.tickets| && t < |w'.tickets| && InOnePlace(w, t)
    requires forall a :: At(w, t, a) ==> At(w', t, moved(a))
    requires forall b :: At(w', t, b) ==> exists a :: At(w, t, a) && b == moved(a)
    ensures InOnePlace(w', t)
  {
    var a :| At(w, t, a);
    assert At(w', t, moved(a));
  }

  // Teardown takes what was held to be run.
  lemma TeardownMoves(w: World, p: nat, t: nat)
    requires t < |w.tickets| && InOnePlace(w, t) && OwnTickets(w, p) && !PeerOf(w, p).closed
    ensures InOnePlace(Next(w, Teardown(p)), t)
  {
    var w' := Next(w, Teardown(p));
    var peer := PeerOf(w, p);
    assert [] + peer.releases == peer.releases;
    assert PeerOf(w', p) == Peer(true, [], peer.releases);
    if w.tickets[t].peer == p {
      forall b ensures At(w', t, b) <==> b != Held && At(w, t, if b == Running then Held else b) {}
      assert !At(w, t, Running);
      var moved := a => if a == Held then Running else a;
      forall b | At(w', t, b) ensures exists a :: At(w, t, a) && b == moved(a) {
        assert At(w, t, if b == Running then Held else b);
      }
      StaysInOnePlace(w, w', t, moved);
    } else {
      assert PeerOf(w', w.tickets[t].peer) == PeerOf(w, w.tickets[t].peer);
      forall b ensures At(w', t, b) <==> At(w, t, b) {}
      StaysInOnePlace(w, w', t, a => a);
    }
  }

  lemma TeardownKeepsOwn(w: World, p: nat, q: nat)
    requires OwnTickets(w, p) && OwnTickets(w, q) && !PeerOf(w, p).closed
    ensures OwnTickets(Next(w, Teardown(p)), q)
  {
    var peer := PeerOf(w, p);
    assert [] + peer.releases == peer.releases;
    if q != p { assert PeerOf(Next(w, Teardown(p)), q) == PeerOf(w, q); }
  }

  lemma TeardownKeepsPlaces(w: World, p: nat)
    requires PlacesInv(w)
    ensures PlacesInv(Next(w, Teardown(p)))
  {
    assert OwnTickets(w, p);
    if !PeerOf(w, p).closed {
      forall t | 0 <= t < |w.tickets| ensures InOnePlace(Next(w, Teardown(p)), t) { TeardownMoves(w, p, t); }
      forall q ensures OwnTickets(Next(w, Teardown(p)), q) { TeardownKeepsOwn(w, p, q); }
    }
  }

  // A release that has not run changes the counts by its own reservation.
  lemma ReleaseKeepsCounts(w: World, t: nat)
    requires CountInv(w) && HolderInv(w) && t < |w.tickets| && t !in w.spent
    ensures CountInv(Release(w, t)) && HolderInv(Release(w, t))
  {
    UnreturnedSpend(w.tickets, w.spent, t);
    if ControlsOnce(w.tickets) { ControllerSpend(w.tickets, w.spent, t); }
  }

  lemma IssueKeepsCounts(w: World, role: Role, p: nat)
    requires PlacesInv(w) && CountInv(w) && HolderInv(w)
    requires role == Viewer ==> w.viewers.used < w.viewers.max
    ensures var w' := Issue(if role == Viewer then w.(viewers := w.viewers.(used := w.viewers.used + 1))
                           else w.(control := w.control.(holder := Some(p))), role, p);
      CountInv(w') && HolderInv(w')
  {
    UnreturnedIssue(w.tickets, w.spent, Ticket(role, p));
    ControllerIssue(w.tickets, w.spent, Ticket(role, p));
    var grown := w.tickets + [Ticket(role, p)];
    if ControlsOnce(grown) {
      forall i, j | 0 <= i < j < |w.tickets| && w.tickets[i].role == Controller && w.tickets[j].role == Controller
        ensures w.tickets[i].peer != w.tickets[j].peer
      {
        assert grown[i] == w.tickets[i] && grown[j] == w.tickets[j];
      }
    }
  }

  lemma StepKeeps(w: World, s: Step)
    requires Inv(w) && Enabled(w, s)
    ensures Inv(Next(w, s))
  {
    match s
    case View(p) =>
      if w.viewers.used < w.viewers.max {
        IssueKeepsPlaces(w, Viewer, p);
        IssueKeepsCounts(w, Viewer, p);
        PlacesIgnorePool(Issue(w, Viewer, p), Next(w, s));
      }
    case TakeControl(p) =>
      if !w.control.disabled {
        IssueKeepsPlaces(w, Controller, p);
        IssueKeepsCounts(w, Controller, p);
        PlacesIgnorePool(Issue(w, Controller, p), Next(w, s));
      }
    case Hold(t) => HoldKeepsPlaces(w, t);
    case GiveBack(t) =>
      GiveBackKeepsPlaces(w, t);
      ReleaseKeepsCounts(w.(desk := w.desk.(refused := w.desk.refused - {t})), t);
    case Teardown(p) => TeardownKeepsPlaces(w, p);
    case RunRelease(p) =>
      RunKeepsPlaces(w, p);
      var peer := PeerOf(w, p);
      ReleaseKeepsCounts(w.(peers := w.peers[p := peer.(running := peer.running[1..])]), peer.running[0]);
  }

  lemma PlacesIgnorePool(w: World, w': World)
    requires PlacesInv(w) && w'.tickets == w.tickets && w'.spent == w.spent && w'.desk == w.desk && w'.peers == w.peers
    ensures PlacesInv(w')
  {
    forall x | 0 <= x < |w.tickets| ensures InOnePlace(w', x) {
      assert InOnePlace(w, x);
      var a :| At(w, x, a);
      assert At(w', x, a);
      forall b ensures At(w', x, b) <==> At(w, x, b) {}
    }
    forall p ensures OwnTickets(w', p) { assert OwnTickets(w, p); }
  }

  // ---- Runs ----

  datatype Outcome = Stuck | To(w: World)

  function Run(w: World, steps: seq<Step>): Outcome
    decreases |steps|
  {
    if steps == [] then To(w)
    else if !Enabled(w, steps[0]) then Stuck
    else Run(Next(w, steps[0]), steps[1..])
  }

  lemma StartInv(max: int, disabled: bool)
    ensures Inv(Start(max, disabled))
  {
  }

  lemma {:induction false} RunKeeps(w: World, steps: seq<Step>)
    requires Inv(w) && Run(w, steps).To?
    ensures Inv(Run(w, steps).w)
    decreases |steps|
  {
    if steps != [] {
      StepKeeps(w, steps[0]);
      RunKeeps(Next(w, steps[0]), steps[1..]);
    }
  }

  /** Under every order of admissions, holds, teardowns and releases: the pool counts the viewers
      whose release has not run, and never more than its size; every reservation is with its
      builder, with its peer, on its way back, or returned, and in one of these only; and the
      controller is the last peer that took control, until that peer's own release runs. */
  lemma SlotAccounting(max: int, disabled: bool, steps: seq<Step>)
    requires Run(Start(max, disabled), steps).To?
    ensures var w := Run(Start(max, disabled), steps).w;
      && w.viewers.used == Unreturned(w.tickets, w.spent) && 0 <= w.viewers.used
      && (w.viewers.used <= w.viewers.max || w.viewers.used == 0)
      && (forall t :: 0 <= t < |w.tickets| ==> InOnePlace(w, t))
      && (ControlsOnce(w.tickets) ==> w.control.holder == ControllerOf(w.tickets, w.spent))
  {
    StartInv(max, disabled);
    RunKeeps(Start(max, disabled), steps);
  }

  /** No release is ever run on a reservation already returned. */
  lemma ReturnedOnce(max: int, disabled: bool, steps: seq<Step>, s: Step)
    requires Run(Start(max, disabled), steps).To? && Enabled(Run(Start(max, disabled), steps).w, s)
    ensures var w := Run(Start(max, disabled), steps).w;
      && (s.GiveBack? ==> s.t !in w.spent)
      && (s.RunRelease? ==> PeerOf(w, s.p).running[0] !in w.spent)
  {
    StartInv(max, disabled);
    RunKeeps(Start(max, disabled), steps);
    var w := Run(Start(max, disabled), steps).w;
    match s
    case GiveBack(t) => GiveBackKeepsPlaces(w, t);
    case RunRelease(p) => RunKeepsPlaces(w, p);
    case _ =>
  }

  /** Nothing leaks: once every peer is torn down, every release has run and no session is being
      built, the pool is empty and nobody holds control. */
  lemma AllGivenBack(max: int, disabled: bool, steps: seq<Step>)
    requires Run(Start(max, disabled), steps).To?
    requires var w := Run(Start(max, disabled), steps).w;
      && w.desk == Desk({}, {})
      && forall p :: p in w.peers ==> w.peers[p].releases == [] && w.peers[p].running == []
    ensures var w := Run(Start(max, disabled), steps).w;
      w.viewers.used == 0 && (ControlsOnce(w.tickets) ==> w.control.holder == None)
  {
    StartInv(max, disabled);
    RunKeeps(Start(max, disabled), steps);
    var w := Run(Start(max, disabled), steps).w;
    forall t | 0 <= t < |w.tickets| ensures t in w.spent {
      assert InOnePlace(w, t);
      var a :| At(w, t, a);
    }
    NoneUnreturned(w.tickets, w.spent);
  }

  lemma {:induction false} OlderNotController(tickets: seq<Ticket>, spent: set<nat>, t: nat, u: nat)
    requires ControlsOnce(tickets) && t < u < |tickets|
    requires tickets[t].role == Controller && tickets[u].role == Controller
    ensures ControllerOf(tickets, spent) != Some(tickets[t].peer)
  {
    var last := |tickets| - 1;
    if tickets[last].role == Viewer {
      var front := tickets[..last];
      assert forall i :: 0 <= i < last ==> front[i] == tickets[i];
      OlderNotController(front, spent, t, u);
    }
  }

  /** A controller displaced by a later one gives nothing up when its release runs at last. */
  lemma LateReleaseKeepsNewer(max: int, disabled: bool, steps: seq<Step>, t: nat, u: nat)
    requires Run(Start(max, disabled), steps).To?
    requires var w := Run(Start(max, disabled), steps).w;
      && ControlsOnce(w.tickets) && t < u < |w.tickets|
      && w.tickets[t].role == Controller && w.tickets[u].role == Controller
    ensures var w := Run(Start(max, disabled), steps).w; Release(w, t).control == w.control
  {
    SlotAccounting(max, disabled, steps);
    var w := Run(Start(max, disabled), steps).w;
    OlderNotController(w.tickets, w.spent, t, u);
  }

  /** A release called again, from wherever, changes nothing. */
  lemma ReleasedTwice(w: World, t: nat)
    requires t < |w.tickets|
    ensures t in Release(w, t).spent && Release(Release(w, t), t) == Release(w, t)
  {
  }
}

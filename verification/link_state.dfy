/**
 The listener's link state: every path that replaces the table, and the poll
 that re-checks live sessions against it.
 */
module LinkState {
  import opened Wrappers
  import opened LinkTable
  import opened GrantFields
  import opened GrantSpec
  import opened GrantAlike
  import opened GrantNarrow
  import Text

  // ---- The file ----

  datatype Disk = Unreadable | Holding(rows: seq<Terms>)

  predicate ValidRow(e: Terms) { Text.TrimSpace(e.name) != "" && ParseString(e.grant).Ok? }

  // A missing file holds no rows.
  function Load(disk: Disk): Option<seq<Terms>> {
    match disk
    case Unreadable => None
    case Holding(rows) => if forall i :: 0 <= i < |rows| ==> ValidRow(rows[i]) then Some(rows) else None
  }

  // ---- The edits ----

  datatype Edit = Add(entry: Terms) | Remove(name: string) | Replace(name: string, entry: Terms)

  datatype EditError = Reserved | AlreadyExists | NoSuchLink

  predicate Named(rows: seq<Terms>, name: string) { exists i :: 0 <= i < |rows| && rows[i].name == name }

  function Without(rows: seq<Terms>, name: string): seq<Terms> {
    if rows == [] then []
    else (if rows[0].name == name then [] else [rows[0]]) + Without(rows[1..], name)
  }

  // The named rows replaced, each keeping its own code.
  function Replaced(rows: seq<Terms>, name: string, entry: Terms): (out: seq<Terms>)
    ensures |out| == |rows|
  {
    seq(|rows|, i requires 0 <= i < |rows| =>
      if rows[i].name == name then entry.(code := rows[i].code) else rows[i])
  }

  predicate TouchesOwner(e: Edit) {
    match e
    case Add(entry) => entry.name == OWNER_LABEL
    case Remove(name) => name == OWNER_LABEL
    case Replace(name, entry) => name == OWNER_LABEL || entry.name == OWNER_LABEL
  }

  function Edited(e: Edit, rows: seq<Terms>): Result<seq<Terms>, EditError> {
    match e
    case Add(entry) => if Named(rows, entry.name) then Err(AlreadyExists) else Ok(rows + [entry.(code := "")])
    case Remove(name) => if Named(rows, name) then Ok(Without(rows, name)) else Err(NoSuchLink)
    case Replace(name, entry) =>
      if entry.name != name && Named(rows, entry.name) then Err(AlreadyExists)
      else if Named(rows, name) then Ok(Replaced(rows, name, entry))
      else Err(NoSuchLink)
  }

  method AddRow(rows: seq<Terms>, entry: Terms) returns (r: Result<seq<Terms>, EditError>)
    ensures r == Edited(Add(entry), rows)
  {
    for i := 0 to |rows|
      invariant forall j :: 0 <= j < i ==> rows[j].name != entry.name
    {
      if rows[i].name == entry.name { return Err(AlreadyExists); }
    }
    return Ok(rows + [entry.(code := "")]);
  }

  lemma {:induction false} WithoutAppend(rows: seq<Terms>, e: Terms, name: string)
    ensures Without(rows + [e], name) == Without(rows, name) + (if e.name == name then [] else [e])
  {
    if rows == [] {
      assert rows + [e] == [e];
    } else {
      assert (rows + [e])[1..] == rows[1..] + [e];
      WithoutAppend(rows[1..], e, name);
    }
  }

  method RemoveRow(rows: seq<Terms>, name: string) returns (r: Result<seq<Terms>, EditError>)
    ensures r == Edited(Remove(name), rows)
  {
    var kept: seq<Terms> := [];
    var found := false;
    for i := 0 to |rows|
      invariant kept == Without(rows[..i], name)
      invariant found <==> exists j :: 0 <= j < i && rows[j].name == name
    {
      WithoutAppend(rows[..i], rows[i], name);
      assert rows[..i] + [rows[i]] == rows[..i + 1];
      if rows[i].name == name {
        found := true;
        continue;
      }
      kept := kept + [rows[i]];
    }
    assert rows[..|rows|] == rows;
    if !found { return Err(NoSuchLink); }
    return Ok(kept);
  }

  method ReplaceRow(rows: seq<Terms>, name: string, entry: Terms) returns (r: Result<seq<Terms>, EditError>)
    ensures r == Edited(Replace(name, entry), rows)
  {
    var out: seq<Terms> := [];
    var found := false;
    for i := 0 to |rows|
      invariant |out| == i && forall j :: 0 <= j < i ==> out[j] == Replaced(rows, name, entry)[j]
      invariant found <==> exists j :: 0 <= j < i && rows[j].name == name
      invariant entry.name != name ==> forall j :: 0 <= j < i ==> rows[j].name != entry.name
    {
      var e := rows[i];
      if e.name == name {
        found := true;
        out := out + [entry.(code := e.code)];
      } else if e.name == entry.name {
        return Err(AlreadyExists);
      } else {
        out := out + [e];
      }
    }
    if !found { return Err(NoSuchLink); }
    assert out == Replaced(rows, name, entry);
    return Ok(out);
  }

  // ---- mutate and reload ----

  datatype Config = Config(readOnly: bool, identity: string, offered: Spec, cwd: Option<Path>)

  datatype State = State(disk: Disk, table: seq<Terms>)

  datatype Outcome = Failed(s: State) | Done(s: State)

  predicate Builds(c: Config, rows: seq<Terms>) { DistinctNames(Rows(rows, c.identity)) }

  // Writing what the passes made of `rows`, and installing its table. The file
  // is written first: a table that does not build leaves it changed.
  function Install(c: Config, s: State, rows: seq<Terms>, saving: bool, saves: bool): Outcome {
    if saving && !saves then Failed(s)
    else
      var disk := if saving then Holding(rows) else s.disk;
      if Builds(c, rows) then Done(State(disk, Rows(rows, c.identity))) else Failed(s.(disk := disk))
  }

  function Mutate(c: Config, s: State, e: Edit, now: int, gen: nat -> Option<string>, saves: bool): Outcome {
    if TouchesOwner(e) || c.readOnly || Load(s.disk) == None then Failed(s)
    else match Edited(e, s.disk.rows)
      case Err(_) => Failed(s)
      case Ok(rows) =>
        match Prepared(rows, c.identity, now, gen)
        case None => Failed(s)
        case Some(out) => Install(c, s, out, true, saves)
  }

  // What reload counts as a change: rows sharing a code with each other,
  // retired rows, and minted ones. A row losing the identity's code is not counted.
  predicate Changes(c: Config, rows: seq<Terms>, now: int) {
    var deduped := Deduped(rows, c.identity);
    || (exists i :: 0 <= i < |rows| && rows[i].code != c.identity && Shared(rows, c.identity, i))
    || (exists i :: 0 <= i < |rows| && deduped[i].code != "" && !deduped[i].Holds(now))
    || (exists i :: 0 <= i < |rows| && WantsCode(Retired(deduped, now)[i], now))
  }

  function Reload(c: Config, s: State, now: int, gen: nat -> Option<string>, saves: bool): Outcome {
    var loaded := if c.readOnly then Some([]) else Load(s.disk);
    match loaded
    case None => Failed(s)
    case Some(rows) =>
      match Prepared(rows, c.identity, now, gen)
      case None => Failed(s)
      case Some(out) => Install(c, s, out, Changes(c, rows, now), saves)
  }

  method RunPasses(c: Config, rows: seq<Terms>, now: int, gen: nat -> Option<string>)
    returns (out: Option<seq<Terms>>, changed: bool)
    ensures out == Prepared(rows, c.identity, now, gen)
    ensures out.Some? ==> changed == Changes(c, rows, now)
  {
    if |rows| == 0 {
      assert rows == [] && Retired(Deduped(rows, c.identity), now) == [];
      return Some([]), false;
    }
    var deduped, conflicts := DedupeCodes(rows, c.identity);
    var left, retired := RetireExpired(deduped, now);
    var full, minted := Mint(left, now, gen);
    if full == None { return None, false; }
    NoneNamed(deduped, Lapsed(now));
    NoneNamed(left, Wants(now));
    var clashed := exists x :: x in conflicts && !conflicts[x];
    ConflictsCounted(rows, c.identity, conflicts);
    return full, clashed || retired != [] || minted != [];
  }

  lemma ConflictsCounted(rows: seq<Terms>, identity: string, conflicts: map<string, bool>)
    requires forall x :: x in conflicts <==>
               exists i :: 0 <= i < |rows| && rows[i].code == x && Shared(rows, identity, i)
    requires forall x :: x in conflicts ==> conflicts[x] == (x == identity)
    ensures (exists x :: x in conflicts && !conflicts[x]) <==>
              exists i :: 0 <= i < |rows| && rows[i].code != identity && Shared(rows, identity, i)
  {
    if i :| 0 <= i < |rows| && rows[i].code != identity && Shared(rows, identity, i) {
      assert rows[i].code in conflicts && !conflicts[rows[i].code];
    }
  }

  // The listener's state, with the file it owns.
  class Listener {
    const c: Config
    var disk: Disk
    var table: seq<Terms>

    ghost function Snapshot(): State
      reads this
    {
      State(disk, table)
    }

    constructor (config: Config, file: Disk, rows: seq<Terms>)
      ensures c == config && Snapshot() == State(file, rows)
    {
      c, disk, table := config, file, rows;
    }

    method ReloadTable(now: int, gen: nat -> Option<string>, saves: bool) returns (ok: bool)
      modifies this
      ensures Snapshot() == Reload(c, old(Snapshot()), now, gen, saves).s
      ensures ok == Reload(c, old(Snapshot()), now, gen, saves).Done?
    {
      var rows: seq<Terms> := [];
      if !c.readOnly {
        var loaded := Load(disk);
        if loaded == None { return false; }
        rows := loaded.value;
      }
      var out, changed := RunPasses(c, rows, now, gen);
      if out == None { return false; }
      ok := InstallRows(out.value, changed, saves);
    }

    method InstallRows(rows: seq<Terms>, saving: bool, saves: bool) returns (ok: bool)
      modifies this
      ensures Snapshot() == Install(c, old(Snapshot()), rows, saving, saves).s
      ensures ok == Install(c, old(Snapshot()), rows, saving, saves).Done?
    {
      if saving {
        if !saves { return false; }
        disk := Holding(rows);
      }
      var built := Build(rows, c.identity);
      if built.Err? { return false; }
      table := built.value;
      return true;
    }

    method MutateTable(e: Edit, now: int, gen: nat -> Option<string>, saves: bool) returns (ok: bool)
      modifies this
      ensures Snapshot() == Mutate(c, old(Snapshot()), e, now, gen, saves).s
      ensures ok == Mutate(c, old(Snapshot()), e, now, gen, saves).Done?
    {
      if TouchesOwner(e) || c.readOnly { return false; }
      var loaded := Load(disk);
      if loaded == None { return false; }
      var edited: Result<seq<Terms>, EditError>;
      match e {
        case Add(entry) => edited := AddRow(loaded.value, entry);
        case Remove(name) => edited := RemoveRow(loaded.value, name);
        case Replace(name, entry) => edited := ReplaceRow(loaded.value, name, entry);
      }
      if edited.Err? { return false; }
      var deduped, _ := DedupeCodes(edited.value, c.identity);
      var left, _ := RetireExpired(deduped, now);
      var minted, _ := Mint(left, now, gen);
      if minted == None { return false; }
      ok := InstallRows(minted.value, true, saves);
    }
  }

  // ---- Every table is a prepared one ----

  // What every installed table satisfies.
  ghost predicate TableOk(c: Config, table: seq<Terms>) {
    && |table| > 0 && table[0] == OwnerRow(c.identity)
    && DistinctCodes(table) && DistinctNames(table)
  }

  ghost predicate FreshFor(c: Config, s: State, gen: nat -> Option<string>) {
    FreshCodes(gen, {c.identity, ""} + if s.disk.Holding? then Codes(s.disk.rows) else {})
  }

  lemma FreshForFewer(gen: nat -> Option<string>, used: set<string>, fewer: set<string>)
    requires FreshCodes(gen, used) && fewer <= used
    ensures FreshCodes(gen, fewer)
  {
  }

  lemma {:induction false} WithoutRows(rows: seq<Terms>, name: string)
    ensures forall e :: e in Without(rows, name) <==> e in rows && e.name != name
  {
    if rows != [] {
      WithoutRows(rows[1..], name);
      assert forall e :: e in rows <==> e == rows[0] || e in rows[1..];
    }
  }

  lemma EditedCodes(e: Edit, rows: seq<Terms>)
    requires Edited(e, rows).Ok?
    ensures Codes(Edited(e, rows).value) <= Codes(rows) + {""}
  {
    var out := Edited(e, rows).value;
    match e
    case Add(entry) =>
    case Replace(name, entry) =>
    case Remove(name) =>
      WithoutRows(rows, name);
      forall i | 0 <= i < |out| ensures out[i].code in Codes(rows) { assert out[i] in rows; }
  }

  // An edit that is installed: the rows the passes were given, and what they left.
  lemma MutateYields(c: Config, s: State, e: Edit, now: int, gen: nat -> Option<string>, saves: bool)
      returns (rows: seq<Terms>)
    requires FreshFor(c, s, gen) && Mutate(c, s, e, now, gen, saves).Done?
    ensures s.disk.Holding? && Edited(e, s.disk.rows) == Ok(rows)
    ensures Codes(rows) <= Codes(s.disk.rows) + {""}
    ensures FreshCodes(gen, Codes(rows) + {c.identity}) && Prepared(rows, c.identity, now, gen).Some?
    ensures var t := Mutate(c, s, e, now, gen, saves).s;
      && t.disk == Holding(Prepared(rows, c.identity, now, gen).value)
      && t.table == Rows(Prepared(rows, c.identity, now, gen).value, c.identity)
      && TableOk(c, t.table)
  {
    rows := Edited(e, s.disk.rows).value;
    EditedCodes(e, s.disk.rows);
    FreshForFewer(gen, {c.identity, ""} + Codes(s.disk.rows), Codes(rows) + {c.identity});
    PreparedRowsDistinct(rows, c.identity, now, gen);
  }

  datatype Op =
    | Editing(e: Edit, now: int, gen: nat -> Option<string>, saves: bool)
    | Reloading(now: int, gen: nat -> Option<string>, saves: bool)
    | FileChanged(disk: Disk)        // another process wrote the file

  function Apply(c: Config, s: State, op: Op): State {
    match op
    case Editing(e, now, gen, saves) => Mutate(c, s, e, now, gen, saves).s
    case Reloading(now, gen, saves) => Reload(c, s, now, gen, saves).s
    case FileChanged(disk) => s.(disk := disk)
  }

  function Run(c: Config, s: State, ops: seq<Op>): State
    decreases |ops|
  {
    if ops == [] then s else Run(c, Apply(c, s, ops[0]), ops[1..])
  }

  ghost predicate AllFresh(c: Config, s: State, ops: seq<Op>)
    decreases |ops|
  {
    ops == [] || ((!ops[0].FileChanged? ==> FreshFor(c, s, ops[0].gen)) && AllFresh(c, Apply(c, s, ops[0]), ops[1..]))
  }

  lemma ReloadKeepsTable(c: Config, s: State, now: int, gen: nat -> Option<string>, saves: bool)
    requires FreshFor(c, s, gen)
    ensures var r := Reload(c, s, now, gen, saves);
      if r.Done? then TableOk(c, r.s.table) else r.s.table == s.table
  {
    if Reload(c, s, now, gen, saves).Done? {
      var rows := if c.readOnly then [] else s.disk.rows;
      var used := {c.identity, ""} + if s.disk.Holding? then Codes(s.disk.rows) else {};
      FreshForFewer(gen, used, Codes(rows) + {c.identity});
      PreparedRowsDistinct(rows, c.identity, now, gen);
    }
  }

  /** Whatever edits, reloads and outside writes happen, and whichever of them fail, the table
      in force has the owner's row first, no two rows of one label, and no two of one code. */
  lemma {:induction false} TableAlwaysOk(c: Config, s: State, ops: seq<Op>)
    requires TableOk(c, s.table) && AllFresh(c, s, ops)
    ensures TableOk(c, Run(c, s, ops).table)
    decreases |ops|
  {
    if ops != [] {
      match ops[0] {
        case Editing(e, now, gen, saves) =>
          if Mutate(c, s, e, now, gen, saves).Done? { var _ := MutateYields(c, s, e, now, gen, saves); }
        case Reloading(now, gen, saves) => ReloadKeepsTable(c, s, now, gen, saves);
        case FileChanged(_) =>
      }
      TableAlwaysOk(c, Apply(c, s, ops[0]), ops[1..]);
    }
  }

  /** A reload leaves on disk the rows of the table it installs, except that an expired row
      holding the identity's own code keeps it there. */
  lemma ReloadedFile(c: Config, s: State, now: int, gen: nat -> Option<string>, saves: bool)
    requires FreshFor(c, s, gen) && !c.readOnly && Reload(c, s, now, gen, saves).Done?
    ensures var t := Reload(c, s, now, gen, saves).s;
      && t.disk.Holding? && |t.table| == |t.disk.rows| + 1
      && forall i :: 0 <= i < |t.disk.rows| ==>
           t.table[i + 1] == t.disk.rows[i]
           || (t.disk.rows[i].code == c.identity && !t.disk.rows[i].Holds(now)
               && t.table[i + 1] == t.disk.rows[i].(code := ""))
  {
    var rows := s.disk.rows;
    FreshForFewer(gen, {c.identity, ""} + Codes(rows), Codes(rows) + {c.identity});
    PreparedTable(rows, c.identity, now, gen);
    if !Changes(c, rows, now) {
      var left := Retired(Deduped(rows, c.identity), now);
      NothingWanted(left, now, gen, 0);
      forall i | 0 <= i < |rows|
        ensures left[i] == rows[i] || (rows[i].code == c.identity && !rows[i].Holds(now)
            && left[i] == rows[i].(code := ""))
      {
        assert !WantsCode(left[i], now);
        assert !(Deduped(rows, c.identity)[i].code != "" && !Deduped(rows, c.identity)[i].Holds(now));
        assert !(rows[i].code != c.identity && Shared(rows, c.identity, i));
      }
    }
  }

  // ---- The poll ----

  function EffectiveOf(c: Config, t: Terms): Option<Spec> {
    match ParseString(t.grant)
    case Err(_) => None
    case Ok(spec) =>
      match Effective(c.cwd, c.offered, spec)
      case Err(_) => None
      case Ok(eff) => Some(eff)
  }

  predicate SameGrants(c: Config, a: Terms, b: Terms) {
    var x, y := EffectiveOf(c, a), EffectiveOf(c, b);
    x.Some? && y.Some? && Render(x.value) == Render(y.value)
  }

  /** The comparison tells grants apart, where both lines and the offer show where each argument ends. */
  lemma SameGrantsIff(c: Config, a: Terms, b: Terms)
    requires EffectiveOf(c, a).Some? && EffectiveOf(c, b).Some? && AllDelimited(c.offered)
    requires AllDelimited(ParseString(a.grant).value) && AllDelimited(ParseString(b.grant).value)
    ensures SameGrants(c, a, b) <==> OnlyGranted(EffectiveOf(c, a).value) == OnlyGranted(EffectiveOf(c, b).value)
  {
    SameReachIff(c.cwd, c.offered, a.grant, b.grant);
  }

  datatype Why = Revoked | Expired | Reissued | GrantsChanged

  function WhyGone(table: seq<Terms>, name: string, now: int): Why {
    var e := ByName(table, name);
    if e == None then Revoked
    else if e.value.code == "" && !e.value.Holds(now) then Expired
    else Reissued
  }

  // Why a session granted `had` under `name` is closed; None keeps it.
  function Verdict(c: Config, table: seq<Terms>, name: string, had: Terms, now: int): Option<Why> {
    if name == "" then None
    else match ByCode(table, had.code)
      case None => Some(WhyGone(table, name, now))
      case Some(current) =>
        if !current.Holds(now) then Some(Expired)
        else if !SameGrants(c, had, current) then Some(GrantsChanged)
        else None
  }

  class ServePeer {
    var name: string          // empty until a code resolves
    var terms: Terms
    var open: bool
    var why: Option<Why>

    constructor ()
      ensures name == "" && open && why == None
    {
      name, terms, open, why := "", Terms("", "", "", None), true, None;
    }

    method Grant(granted: Terms)
      modifies this`name, this`terms
      ensures name == granted.name && terms == granted
    {
      name, terms := granted.name, granted;
    }

    method Revoke(reason: Why)
      modifies this`open, this`why
      ensures !open && why == Some(reason)
    {
      open, why := false, Some(reason);
    }
  }

  method PollPeers(c: Config, peers: seq<ServePeer>, table: seq<Terms>, now: int)
    modifies set p | p in peers :: p`open, set p | p in peers :: p`why
    ensures forall p :: p in peers ==>
              var v := Verdict(c, table, p.name, p.terms, now);
              p.open == (old(p.open) && v == None) && p.why == if v == None then old(p.why) else v
  {
    for i := 0 to |peers|
      invariant forall p :: p in peers ==>
        var v := Verdict(c, table, p.name, p.terms, now);
        if p in peers[..i] then p.open == (old(p.open) && v == None) && p.why == (if v == None then old(p.why) else v)
        else p.open == old(p.open) && p.why == old(p.why)
    {
      var p := peers[i];
      assert peers[..i + 1] == peers[..i] + [p];
      if p.name == "" { continue; }
      var current := FindByCode(table, p.terms.code);
      if current == None {
        p.Revoke(WhyGone(table, p.name, now));
        continue;
      }
      if !current.value.Holds(now) {
        p.Revoke(Expired);
      } else if !SameGrants(c, p.terms, current.value) {
        p.Revoke(GrantsChanged);
      }
    }
    assert peers[..|peers|] == peers;
  }

  // ---- Revocation ----

  // The session's code, on one row live and alone that still admits the session.
  ghost predicate Admits(c: Config, rows: seq<Terms>, had: Terms, now: int, later: int, k: nat) {
    KeptBy(rows, c.identity, had.code, now, k) && rows[k].Holds(later) && SameGrants(c, had, rows[k])
  }

  lemma VerdictIff(c: Config, rows: seq<Terms>, now: int, gen: nat -> Option<string>, name: string, had: Terms,
      later: int)
    requires name != "" && had.code != "" && had.code != c.identity
    requires FreshCodes(gen, Codes(rows) + {c.identity}) && (forall k :: gen(k) != Some(had.code))
    requires Prepared(rows, c.identity, now, gen).Some?
    ensures Verdict(c, Rows(Prepared(rows, c.identity, now, gen).value, c.identity), name, had, later) == None <==>
              exists k: nat :: Admits(c, rows, had, now, later, k)
  {
    LookupPrepared(rows, c.identity, now, gen, had.code);
    var r := ByCode(Rows(Prepared(rows, c.identity, now, gen).value, c.identity), had.code);
    if r.Some? {
      var k: nat :| KeptBy(rows, c.identity, had.code, now, k) && r.value == rows[k];
      forall l: nat | KeptBy(rows, c.identity, had.code, now, l) ensures l == k {
        KeptByOne(rows, c.identity, had.code, now, k, l);
      }
      assert Admits(c, rows, had, now, later, k) <==> rows[k].Holds(later) && SameGrants(c, had, rows[k]);
    }
  }

  // The generator is fresh for everything on file, and for the code a session presented.
  ghost predicate FreshWith(c: Config, s: State, code: string, gen: nat -> Option<string>) {
    FreshFor(c, s, gen) && forall k :: gen(k) != Some(code)
  }

  /** A session outlives an edit and the poll after it exactly when a single live row of the
      edited file holds the code it presented, alone, and that row still holds at the poll and
      grants the same. */
  lemma SurvivesIff(c: Config, s: State, e: Edit, now: int, gen: nat -> Option<string>, saves: bool, name: string,
      had: Terms, later: int)
    requires name != "" && had.code != "" && had.code != c.identity
    requires FreshWith(c, s, had.code, gen) && Mutate(c, s, e, now, gen, saves).Done?
    ensures Edited(e, s.disk.rows).Ok?
    ensures Verdict(c, Mutate(c, s, e, now, gen, saves).s.table, name, had, later) == None <==>
              exists k: nat :: Admits(c, Edited(e, s.disk.rows).value, had, now, later, k)
  {
    var rows := MutateYields(c, s, e, now, gen, saves);
    VerdictIff(c, rows, now, gen, name, had, later);
  }

  /** Removing a link whose code no other label holds revokes, at the next poll, every session
      that presented that code. */
  lemma RemovalRevokes(c: Config, s: State, removed: string, now: int, gen: nat -> Option<string>, saves: bool,
                       name: string, had: Terms, later: int)
    requires had.code != "" && had.code != c.identity && name != "" && FreshWith(c, s, had.code, gen)
    requires Mutate(c, s, Remove(removed), now, gen, saves).Done?
    requires forall e :: e in s.disk.rows && e.code == had.code ==> e.name == removed
    ensures Verdict(c, Mutate(c, s, Remove(removed), now, gen, saves).s.table, name, had, later).Some?
  {
    SurvivesIff(c, s, Remove(removed), now, gen, saves, name, had, later);
    NoRowLeft(c, s.disk.rows, removed, had, now, later);
  }

  lemma NoRowLeft(c: Config, rows: seq<Terms>, removed: string, had: Terms, now: int, later: int)
    requires forall e :: e in rows && e.code == had.code ==> e.name == removed
    ensures forall k: nat :: !Admits(c, Without(rows, removed), had, now, later, k)
  {
    WithoutRows(rows, removed);
    var left := Without(rows, removed);
    forall k: nat ensures !Admits(c, left, had, now, later, k) {
      if k < |left| { assert left[k] in left; }
    }
  }

  /** But a live copy of the row under another label keeps the code, and the session. */
  lemma CopyOutlivesRemoval(c: Config, a: Terms, b: Terms, table: seq<Terms>, now: int, gen: nat -> Option<string>,
      later: int)
    requires a.name != b.name && a.code == b.code != "" && b.code != c.identity && a.grant == b.grant
    requires b.Holds(now) && b.Holds(later) && EffectiveOf(c, b).Some? && a.name != ""
    requires FreshWith(c, State(Holding([a, b]), table), a.code, gen)
    requires Mutate(c, State(Holding([a, b]), table), Remove(a.name), now, gen, true).Done?
    ensures Verdict(c, Mutate(c, State(Holding([a, b]), table), Remove(a.name), now, gen, true).s.table, a.name, a,
        later) == None
  {
    SurvivesIff(c, State(Holding([a, b]), table), Remove(a.name), now, gen, true, a.name, a, later);
    RowAlone(a, b);
    assert !Shared([b], c.identity, 0);
    assert Admits(c, [b], a, now, later, 0);
  }

  lemma RowAlone(a: Terms, b: Terms)
    requires a.name != b.name
    ensures Without([a, b], a.name) == [b]
  {
    assert [a, b][1..] == [b] && [b][1..] == [];
    assert Without([b], a.name) == [b] + Without([], a.name) == [b];
    assert Without([a, b], a.name) == [] + Without([b], a.name);
  }

  /** Renaming a link, or moving its expiry, closes no session that its grant would still admit. */
  lemma RenameKeepsSessions(c: Config, s: State, i: nat, entry: Terms, now: int, gen: nat -> Option<string>,
      saves: bool, name: string, had: Terms, later: int)
    requires s.disk.Holding? && i < |s.disk.rows| && DistinctCodes(s.disk.rows) && s.disk.rows[i].code == had.code != ""
    requires had.code != c.identity && name != "" && entry.grant == had.grant && EffectiveOf(c, had).Some?
    requires entry.Holds(now) && entry.Holds(later) && FreshWith(c, s, had.code, gen)
    requires Mutate(c, s, Replace(s.disk.rows[i].name, entry), now, gen, saves).Done?
    ensures Verdict(c, Mutate(c, s, Replace(s.disk.rows[i].name, entry), now, gen, saves).s.table, name, had,
        later) == None
  {
    SurvivesIff(c, s, Replace(s.disk.rows[i].name, entry), now, gen, saves, name, had, later);
    RenamedRowAdmits(c, s.disk.rows, i, entry, now, had, later);
  }

  lemma RenamedRowAdmits(c: Config, rows: seq<Terms>, i: nat, entry: Terms, now: int, had: Terms, later: int)
    requires i < |rows| && DistinctCodes(rows) && rows[i].code == had.code != "" && had.code != c.identity
    requires entry.grant == had.grant && EffectiveOf(c, had).Some? && entry.Holds(now) && entry.Holds(later)
    ensures Admits(c, Replaced(rows, rows[i].name, entry), had, now, later, i)
  {
    var out := Replaced(rows, rows[i].name, entry);
    ReplacedHoldsCode(rows, i, entry, c.identity, now);
    assert EffectiveOf(c, out[i]) == EffectiveOf(c, had);
  }

  /** An edit is judged on the terms it writes, not on those it replaces: a replaced row keeps its
      code exactly when the new terms hold and nothing else has the code, so renewing a link that
      lapsed since the last reload puts its old code back in force. */
  lemma RenewalJudgedOnNewTerms(c: Config, s: State, i: nat, entry: Terms, now: int, gen: nat -> Option<string>,
      saves: bool)
    requires s.disk.Holding? && i < |s.disk.rows| && DistinctCodes(s.disk.rows)
    requires s.disk.rows[i].code != "" && s.disk.rows[i].code != c.identity
    requires FreshWith(c, s, s.disk.rows[i].code, gen)
    requires Mutate(c, s, Replace(s.disk.rows[i].name, entry), now, gen, saves).Done?
    ensures var code := s.disk.rows[i].code;
      ByCode(Mutate(c, s, Replace(s.disk.rows[i].name, entry), now, gen, saves).s.table, code)
        == if entry.Holds(now) then Some(entry.(code := code)) else None
  {
    var rows := MutateYields(c, s, Replace(s.disk.rows[i].name, entry), now, gen, saves);
    ReplacedLookup(s.disk.rows, i, entry, c.identity, now, gen);
  }

  lemma ReplacedLookup(rows: seq<Terms>, i: nat, entry: Terms, identity: string, now: int, gen: nat -> Option<string>)
    requires i < |rows| && DistinctCodes(rows) && rows[i].code != "" && rows[i].code != identity
    requires FreshCodes(gen, Codes(Replaced(rows, rows[i].name, entry)) + {identity})
        && (forall k :: gen(k) != Some(rows[i].code))
    requires Prepared(Replaced(rows, rows[i].name, entry), identity, now, gen).Some?
    ensures ByCode(Rows(Prepared(Replaced(rows, rows[i].name, entry), identity, now, gen).value, identity),
        rows[i].code)
         == if entry.Holds(now) then Some(entry.(code := rows[i].code)) else None
  {
    var out := Replaced(rows, rows[i].name, entry);
    LookupPrepared(out, identity, now, gen, rows[i].code);
    ReplacedHoldsCode(rows, i, entry, identity, now);
    if entry.Holds(now) {
      assert KeptBy(out, identity, rows[i].code, now, i);
    } else {
      forall k: nat ensures !KeptBy(out, identity, rows[i].code, now, k) {}
    }
  }

  lemma ReplacedHoldsCode(rows: seq<Terms>, i: nat, entry: Terms, identity: string, now: int)
    requires i < |rows| && DistinctCodes(rows) && rows[i].code != "" && rows[i].code != identity
    ensures var out := Replaced(rows, rows[i].name, entry);
      && out[i] == entry.(code := rows[i].code)
      && forall k: nat :: KeptBy(out, identity, rows[i].code, now, k) <==> k == i && entry.Holds(now)
  {
    var out := Replaced(rows, rows[i].name, entry);
    forall j | 0 <= j < |out| && j != i ensures out[j].code != rows[i].code {
      assert out[j].code == rows[j].code;
      var lo, hi := if i < j then i else j, if i < j then j else i;
      assert rows[lo].code == "" || rows[lo].code != rows[hi].code;
    }
  }

  /** A link that gives up a capability keeps the sessions that hold it, when the new line has a
      target with a blank that prints as the old line did. */
  lemma LostCapabilityKeepsSession(c: Config, table: seq<Terms>, name: string, had: Terms, now: Terms, t: string,
      u: string, later: int)
    requires c.offered == EVERYTHING && PlainTarget(t) && PlainTarget(u) && !IsWord(t) && !IsWord(u)
    requires had.grant == Render(Targets({Proxy, Forward}, [t], [u]))
    requires now.grant == JoinFields(["proxy", t + " forward " + u])
    requires ByCode(table, had.code) == Some(now) && now.Holds(later)
    ensures Verdict(c, table, name, had, later) == None
    ensures EffectiveOf(c, had).Some? && EffectiveOf(c, now).Some?
    ensures EffectiveOf(c, had).value.Has(Forward) && !EffectiveOf(c, now).value.Has(Forward)
  {
    LostCapabilityCountsAsSame(c.cwd, t, u);
  }

  /** The owner's own sessions are never closed. */
  lemma OwnerStays(c: Config, table: seq<Terms>, later: int)
    requires TableOk(c, table) && c.identity != ""
    ensures Verdict(c, table, OWNER_LABEL, OwnerRow(c.identity), later) == None
  {
    FirstByCodeAt(table, c.identity, 0);
    WordsAloneResolve(c.cwd, c.offered, None);
    assert ParseString("") == Ok(UNSPECIFIED);
  }
}

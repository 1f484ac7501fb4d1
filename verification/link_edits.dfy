/**
 What an edit or a reload leaves in the table and the file, row by row, when
 each succeeds, and what a closed session is told.
 */
module LinkEdits {
  import opened Wrappers
  import opened LinkTable
  import opened LinkState
  import opened GrantSpec
  import opened GrantNarrow
  import Text

  // ---- What the passes leave ----

  /** The passes succeed exactly when the generator does, once for each live row without a code. */
  lemma {:induction false} MintedIff(rows: seq<Terms>, now: int, gen: nat -> Option<string>, k: nat)
    ensures Minted(rows, now, gen, k).Some? <==>
              forall j :: k <= j < k + Wanting(rows, now, |rows|) ==> gen(j).Some?
    decreases |rows|
  {
    if rows != [] {
      WantingTail(rows, now, |rows|);
      MintedIff(rows[1..], now, gen, if WantsCode(rows[0], now) then k + 1 else k);
    }
  }

  lemma PreparedKeepsTerms(rows: seq<Terms>, identity: string, now: int, gen: nat -> Option<string>)
    requires Prepared(rows, identity, now, gen).Some?
    ensures var out := Prepared(rows, identity, now, gen).value;
      |out| == |rows| && forall i :: 0 <= i < |rows| ==> SameTerms(out[i], rows[i])
  {
    var left := Retired(Deduped(rows, identity), now);
    MintedRows(left, now, gen);
    forall i | 0 <= i < |rows| ensures SameTerms(Prepared(rows, identity, now, gen).value[i], rows[i]) {
      LeftCode(rows, identity, now, i);
    }
  }

  // A row's code after the passes: its own if it was live and alone, a new one if it was live, else none.
  ghost predicate CodeAsDue(rows: seq<Terms>, identity: string, now: int, i: nat, code: string)
    requires i < |rows|
  {
    if !rows[i].Holds(now) then code == ""
    else if rows[i].code != "" && !Shared(rows, identity, i) then code == rows[i].code
    else code != "" && code != identity && code !in Codes(rows)
  }

  lemma PreparedCodes(rows: seq<Terms>, identity: string, now: int, gen: nat -> Option<string>)
    requires FreshCodes(gen, Codes(rows) + {identity}) && Prepared(rows, identity, now, gen).Some?
    ensures var out := Prepared(rows, identity, now, gen).value;
      |out| == |rows| && forall i :: 0 <= i < |rows| ==> CodeAsDue(rows, identity, now, i, out[i].code)
  {
    PreparedTable(rows, identity, now, gen);
    var out := Prepared(rows, identity, now, gen).value;
    forall i | 0 <= i < |rows| ensures CodeAsDue(rows, identity, now, i, out[i].code) {
      MintedOrKept(rows, identity, now, gen, i);
      if out[i].code == rows[i].code != "" { assert !Shared(rows, identity, i); }
    }
  }

  // ---- The rows of the table ----

  // The table holds the owner and these rows, in order, with codes as due.
  ghost predicate TableOf(c: Config, table: seq<Terms>, rows: seq<Terms>, now: int) {
    && |table| == |rows| + 1 && table[0] == OwnerRow(c.identity)
    && forall i :: 0 <= i < |rows| ==>
         SameTerms(table[i + 1], rows[i]) && CodeAsDue(rows, c.identity, now, i, table[i + 1].code)
  }

  lemma InstalledRows(c: Config, table: seq<Terms>, rows: seq<Terms>, now: int, gen: nat -> Option<string>)
    requires FreshCodes(gen, Codes(rows) + {c.identity}) && Prepared(rows, c.identity, now, gen).Some?
    requires table == Rows(Prepared(rows, c.identity, now, gen).value, c.identity)
    ensures TableOf(c, table, rows, now)
  {
    PreparedKeepsTerms(rows, c.identity, now, gen);
    PreparedCodes(rows, c.identity, now, gen);
    var out := Prepared(rows, c.identity, now, gen).value;
    forall i | 0 <= i < |rows| ensures table[i + 1] == out[i] {}
  }

  // Left out of `rows` are those of the label, and nothing else, in order.
  lemma {:induction false} WithoutParts(a: seq<Terms>, b: seq<Terms>, name: string)
    ensures Without(a + b, name) == Without(a, name) + Without(b, name)
    ensures forall e: Terms :: Without([e], name) == if e.name == name then [] else [e]
  {
    if a == [] {
      assert a + b == b && [] + Without(b, name) == Without(b, name);
    } else {
      assert (a + b)[1..] == a[1..] + b;
      WithoutParts(a[1..], b, name);
      var first := if a[0].name == name then [] else [a[0]];
      assert first + (Without(a[1..], name) + Without(b, name)) == first + Without(a[1..], name) + Without(b, name);
    }
    forall e: Terms ensures Without([e], name) == if e.name == name then [] else [e] {
      assert [e][1..] == [] && Without([], name) == [];
    }
  }

  lemma AddedIsLast(rows: seq<Terms>, entry: Terms, identity: string)
    ensures var out := rows + [entry.(code := "")];
      && !Shared(out, identity, |rows|) && out[|rows|].code == ""
      && Codes(out) == Codes(rows) + {""}
      && forall i :: 0 <= i < |rows| ==> (Shared(out, identity, i) <==> Shared(rows, identity, i))
  {
    var out := rows + [entry.(code := "")];
    forall i | 0 <= i < |rows| ensures Shared(out, identity, i) <==> Shared(rows, identity, i) {
      if rows[i].code != "" && rows[i].code != identity && Shared(rows, identity, i) {
        var j :| 0 <= j < |rows| && j != i && rows[j].code == rows[i].code;
        assert out[j].code == out[i].code;
      }
    }
    forall x ensures x in Codes(out) <==> x in Codes(rows) + {""} {
      if x in Codes(rows) {
        var i :| 0 <= i < |rows| && rows[i].code == x;
        assert out[i].code == x;
      }
      assert out[|rows|].code == "";
    }
  }

  /** A link added is in the table, last, under its label and with its grant and expiry, and has a
      code of its own exactly when it is live; every link before it keeps its row, and its code if
      it was live and alone in holding it. */
  lemma AddedLinkListed(c: Config, s: State, entry: Terms, now: int, gen: nat -> Option<string>, saves: bool)
    requires FreshFor(c, s, gen) && Mutate(c, s, Add(entry), now, gen, saves).Done?
    ensures s.disk.Holding? && !Named(s.disk.rows, entry.name)
    ensures var t, rows := Mutate(c, s, Add(entry), now, gen, saves).s.table, s.disk.rows;
      && |t| == |rows| + 2 && TableOf(c, t[..|rows| + 1], rows, now)
      && SameTerms(t[|rows| + 1], entry)
      && (if entry.Holds(now) then t[|rows| + 1].code !in Codes(rows) + {"", c.identity} else t[|rows| + 1].code == "")
  {
    var rows := MutateYields(c, s, Add(entry), now, gen, saves);
    var t, before := Mutate(c, s, Add(entry), now, gen, saves).s.table, s.disk.rows;
    InstalledRows(c, t, rows, now, gen);
    AddedIsLast(before, entry, c.identity);
    forall i | 0 <= i < |before|
      ensures SameTerms(t[i + 1], before[i]) && CodeAsDue(before, c.identity, now, i, t[i + 1].code)
    {
      assert rows[i] == before[i] && CodeAsDue(rows, c.identity, now, i, t[i + 1].code);
    }
    assert CodeAsDue(rows, c.identity, now, |before|, t[|before| + 1].code);
  }

  // The rows an edit makes of those on file, before the passes.
  ghost predicate EditOf(e: Edit, rows: seq<Terms>, out: seq<Terms>) {
    match e
    case Add(entry) => !Named(rows, entry.name) && out == rows + [entry.(code := "")]
    case Remove(name) => Named(rows, name) && out == Without(rows, name)
    case Replace(name, entry) =>
      && Named(rows, name) && |out| == |rows|
      && forall i :: 0 <= i < |rows| ==>
           out[i] == if rows[i].name == name then entry.(code := rows[i].code) else rows[i]
  }

  lemma EditedRows(e: Edit, rows: seq<Terms>)
    requires Edited(e, rows).Ok?
    ensures EditOf(e, rows, Edited(e, rows).value)
  {
  }

  /** What any edit leaves: after removing a label, the other rows; after replacing one, the new
      terms in its place, under the code it had; each with its code as due. */
  lemma EditedRowsListed(c: Config, s: State, e: Edit, now: int, gen: nat -> Option<string>, saves: bool)
    returns (rows: seq<Terms>)
    requires FreshFor(c, s, gen) && Mutate(c, s, e, now, gen, saves).Done?
    ensures s.disk.Holding? && EditOf(e, s.disk.rows, rows)
    ensures TableOf(c, Mutate(c, s, e, now, gen, saves).s.table, rows, now)
  {
    rows := MutateYields(c, s, e, now, gen, saves);
    EditedRows(e, s.disk.rows);
    InstalledRows(c, Mutate(c, s, e, now, gen, saves).s.table, rows, now, gen);
  }

  // ---- When an edit or a reload succeeds ----

  /** A file is read exactly when every link in it has a label that is more than white space, and a
      grant that can be read; and then as it is written. */
  lemma LoadedIff(disk: Disk)
    ensures Load(disk) ==
              if disk.Holding? && forall e :: e in disk.rows ==> !Text.AllSpace(e.name) && ParseString(e.grant).Ok?
              then Some(disk.rows) else None
  {
    if disk.Holding? {
      var rows := disk.rows;
      forall i | 0 <= i < |rows| ensures ValidRow(rows[i]) <==>
          !Text.AllSpace(rows[i].name) && ParseString(rows[i].grant).Ok?
      {
        Text.BlankIff(rows[i].name);
      }
      if forall e :: e in rows ==> !Text.AllSpace(e.name) && ParseString(e.grant).Ok? {
        forall i | 0 <= i < |rows| ensures ValidRow(rows[i]) { assert rows[i] in rows; }
      }
    }
  }

  // The labels are free for the edit, and the one it names is there.
  predicate Applies(e: Edit, rows: seq<Terms>) {
    match e
    case Add(entry) => entry.name != OWNER_LABEL && !Named(rows, entry.name)
    case Remove(name) => name != OWNER_LABEL && Named(rows, name)
    case Replace(name, entry) =>
      && name != OWNER_LABEL && entry.name != OWNER_LABEL && Named(rows, name)
      && (entry.name == name || !Named(rows, entry.name))
  }

  lemma SameNamesBuild(c: Config, a: seq<Terms>, b: seq<Terms>)
    requires |a| == |b| && forall i :: 0 <= i < |a| ==> SameTerms(a[i], b[i])
    ensures Builds(c, a) <==> Builds(c, b)
  {
    var x, y := Rows(a, c.identity), Rows(b, c.identity);
    forall i | 0 <= i < |x| ensures x[i].name == y[i].name {}
  }

  lemma AppliesIff(e: Edit, rows: seq<Terms>)
    ensures !TouchesOwner(e) && Edited(e, rows).Ok? <==> Applies(e, rows)
  {
  }

  // The generator answers as often as the passes ask.
  predicate Answers(rows: seq<Terms>, identity: string, now: int, gen: nat -> Option<string>) {
    forall k :: 0 <= k < Wanting(Retired(Deduped(rows, identity), now), now, |rows|) ==> gen(k).Some?
  }

  lemma PreparedIff(rows: seq<Terms>, identity: string, now: int, gen: nat -> Option<string>)
    ensures Prepared(rows, identity, now, gen).Some? <==> Answers(rows, identity, now, gen)
  {
    MintedIff(Retired(Deduped(rows, identity), now), now, gen, 0);
  }

  /** An edit is installed exactly when the file may be written and can be read, the edit applies to
      its labels, the generator answers, and the rows it leaves have distinct labels. */
  lemma EditSucceedsIff(c: Config, s: State, e: Edit, now: int, gen: nat -> Option<string>, saves: bool)
    ensures Mutate(c, s, e, now, gen, saves).Done? <==>
              && !c.readOnly && saves && Load(s.disk).Some? && Applies(e, s.disk.rows)
              && Answers(Edited(e, s.disk.rows).value, c.identity, now, gen)
              && Builds(c, Edited(e, s.disk.rows).value)
  {
    if s.disk.Holding? {
      AppliesIff(e, s.disk.rows);
      if Edited(e, s.disk.rows).Ok? {
        var rows := Edited(e, s.disk.rows).value;
        PreparedIff(rows, c.identity, now, gen);
        if Prepared(rows, c.identity, now, gen).Some? {
          PreparedKeepsTerms(rows, c.identity, now, gen);
          SameNamesBuild(c, Prepared(rows, c.identity, now, gen).value, rows);
        }
      }
    }
  }

  /** An edit that is not installed leaves the table, and the file too unless all that failed was the
      rows' labels: by then they are written. */
  lemma FailedEditLeaves(c: Config, s: State, e: Edit, now: int, gen: nat -> Option<string>, saves: bool)
    requires Mutate(c, s, e, now, gen, saves).Failed?
    ensures var t := Mutate(c, s, e, now, gen, saves).s;
      && t.table == s.table
      && (if !c.readOnly && saves && Load(s.disk).Some? && Applies(e, s.disk.rows)
             && Answers(Edited(e, s.disk.rows).value, c.identity, now, gen)
          then Some(t.disk) == WrittenBy(Prepared(Edited(e, s.disk.rows).value, c.identity, now, gen))
          else t.disk == s.disk)
  {
    if s.disk.Holding? {
      AppliesIff(e, s.disk.rows);
      if Edited(e, s.disk.rows).Ok? { PreparedIff(Edited(e, s.disk.rows).value, c.identity, now, gen); }
    }
  }

  function WrittenBy(rows: Option<seq<Terms>>): Option<Disk> {
    if rows == None then None else Some(Holding(rows.value))
  }

  // What a reload reads: nothing at all for a listener that keeps no file.
  function Read(c: Config, s: State): Option<seq<Terms>> { if c.readOnly then Some([]) else Load(s.disk) }

  /** A reload is installed exactly when the file can be read, the generator answers, the labels are
      distinct, and the file can be written if anything in it changed; the table then holds the
      file's rows, each with its code as due. */
  lemma ReloadSucceedsIff(c: Config, s: State, now: int, gen: nat -> Option<string>, saves: bool)
    requires FreshFor(c, s, gen)
    ensures var r := Reload(c, s, now, gen, saves);
      && (r.Done? <==>
            && Read(c, s).Some? && Answers(Read(c, s).value, c.identity, now, gen) && Builds(c, Read(c, s).value)
            && (saves || !Changes(c, Read(c, s).value, now)))
      && (r.Done? ==> TableOf(c, r.s.table, Read(c, s).value, now))
  {
    if Read(c, s).Some? {
      var rows := Read(c, s).value;
      PreparedIff(rows, c.identity, now, gen);
      if Prepared(rows, c.identity, now, gen).Some? {
        PreparedKeepsTerms(rows, c.identity, now, gen);
        SameNamesBuild(c, Prepared(rows, c.identity, now, gen).value, rows);
        if Reload(c, s, now, gen, saves).Done? {
          var used := {c.identity, ""} + if s.disk.Holding? then Codes(s.disk.rows) else {};
          FreshForFewer(gen, used, Codes(rows) + {c.identity});
          InstalledRows(c, Reload(c, s, now, gen, saves).s.table, rows, now, gen);
        }
      }
    }
  }

  // ---- What a closed session is told ----

  lemma {:induction false} NameNotFound(rows: seq<Terms>, name: string)
    ensures ByName(rows, name) == None <==> !Named(rows, name)
    ensures ByName(rows, name).Some? ==> ByName(rows, name).value in rows && ByName(rows, name).value.name == name
  {
    if rows != [] {
      NameNotFound(rows[1..], name);
      assert forall i :: 0 < i < |rows| ==> rows[i] == rows[1..][i - 1];
    }
  }

  /** A session whose code is gone is told that its link was revoked exactly when no row has the
      label; with distinct labels, that it expired exactly when that row is lapsed and has no code,
      and otherwise that it was reissued. */
  lemma ToldWhy(c: Config, table: seq<Terms>, name: string, had: Terms, now: int)
    requires name != "" && ByCode(table, had.code) == None
    ensures (Verdict(c, table, name, had, now) == Some(Revoked) <==> !Named(table, name))
    ensures forall i :: 0 <= i < |table| && table[i].name == name && DistinctNames(table) ==>
              Verdict(c, table, name, had, now)
                == Some(if table[i].code == "" && !table[i].Holds(now) then Expired else Reissued)
  {
    NameNotFound(table, name);
    if ByName(table, name).Some? {
      var e := ByName(table, name).value;
      var k :| 0 <= k < |table| && table[k] == e;
      forall i | 0 <= i < |table| && table[i].name == name && DistinctNames(table) ensures i == k {}
    }
  }

  /** A session whose link was removed is told so at the next poll, if nothing else holds its code. */
  lemma RemovalTold(c: Config, s: State, removed: string, now: int, gen: nat -> Option<string>, saves: bool,
      had: Terms, later: int)
    requires removed != "" && had.code != "" && had.code != c.identity && FreshWith(c, s, had.code, gen)
    requires Mutate(c, s, Remove(removed), now, gen, saves).Done?
    requires forall e :: e in s.disk.rows && e.code == had.code ==> e.name == removed
    ensures Verdict(c, Mutate(c, s, Remove(removed), now, gen, saves).s.table, removed, had, later) == Some(Revoked)
  {
    var table := Mutate(c, s, Remove(removed), now, gen, saves).s.table;
    var rows := MutateYields(c, s, Remove(removed), now, gen, saves);
    WithoutRows(s.disk.rows, removed);
    InstalledRows(c, table, rows, now, gen);
    LookupPrepared(rows, c.identity, now, gen, had.code);
    forall k: nat ensures !KeptBy(rows, c.identity, had.code, now, k) {
      if k < |rows| { assert rows[k] in rows; }
    }
    forall i | 0 <= i < |table| ensures table[i].name != removed {
      if i > 0 { assert SameTerms(table[i], rows[i - 1]) && rows[i - 1] in rows; }
    }
    ToldWhy(c, table, removed, had, later);
  }

  /** A session whose code is on a row is told that the link expired exactly when the row has lapsed,
      and otherwise that its permissions changed exactly when the row no longer grants the same; one
      that was granted nothing yet is left alone. */
  lemma JudgedByRow(c: Config, table: seq<Terms>, name: string, had: Terms, now: int)
    ensures name == "" ==> Verdict(c, table, name, had, now) == None
    ensures name != "" && ByCode(table, had.code).Some? ==>
              var row := ByCode(table, had.code).value;
              Verdict(c, table, name, had, now)
                == if !row.Holds(now) then Some(Expired)
                   else if SameGrants(c, had, row) then None else Some(GrantsChanged)
  {
  }
}

/**
 The link table: the code pipeline that every table goes through, the rows a
 table is built of, and how a presented code is resolved.
 */
module LinkTable {
  import opened Wrappers

  // One link; name is its label. Instants are seconds on one clock.
  datatype Terms = Terms(name: string, code: string, grant: string, expires: Option<int>) {
    // Check: the terms still hold at this instant.
    predicate Holds(now: int) { expires == None || now < expires.value }
  }

  const OWNER_LABEL := "owner"

  // ---- The three passes ----

  // The row holds a code that another row, or the identity, holds too.
  predicate Shared(entries: seq<Terms>, identity: string, i: nat)
    requires i < |entries|
  {
    entries[i].code != "" &&
    (entries[i].code == identity || exists j :: 0 <= j < |entries| && j != i && entries[j].code == entries[i].code)
  }

  function Deduped(entries: seq<Terms>, identity: string): (out: seq<Terms>)
    ensures |out| == |entries|
  {
    seq(|entries|, i requires 0 <= i < |entries| =>
      if Shared(entries, identity, i) then entries[i].(code := "") else entries[i])
  }

  function Retired(entries: seq<Terms>, now: int): (out: seq<Terms>)
    ensures |out| == |entries|
  {
    seq(|entries|, i requires 0 <= i < |entries| =>
      if entries[i].Holds(now) then entries[i] else entries[i].(code := ""))
  }

  predicate WantsCode(e: Terms, now: int) { e.code == "" && e.Holds(now) }

  function WithRow(e: Terms, r: Option<seq<Terms>>): Option<seq<Terms>> {
    match r
    case None => None
    case Some(rows) => Some([e] + rows)
  }

  // gen(k) is what the k-th call of the code generator returns, None an error.
  function Minted(entries: seq<Terms>, now: int, gen: nat -> Option<string>, k: nat): Option<seq<Terms>>
    decreases |entries|
  {
    if entries == [] then Some([])
    else if !WantsCode(entries[0], now) then WithRow(entries[0], Minted(entries[1..], now, gen, k))
    else match gen(k)
      case None => None
      case Some(code) => WithRow(entries[0].(code := code), Minted(entries[1..], now, gen, k + 1))
  }

  function Prepared(entries: seq<Terms>, identity: string, now: int, gen: nat -> Option<string>): Option<seq<Terms>> {
    Minted(Retired(Deduped(entries, identity), now), now, gen, 0)
  }

  // ---- The passes as loops ----

  // The rows holding a code, by index.
  ghost predicate Indexed(byCode: map<string, seq<nat>>, entries: seq<Terms>, n: nat)
    requires n <= |entries|
  {
    && (forall c :: c in byCode ==> c != "" && byCode[c] != [])
    && (forall c, k :: c in byCode && 0 <= k < |byCode[c]| ==> byCode[c][k] < n && entries[byCode[c][k]].code == c)
    && (forall c, k, l :: c in byCode && 0 <= k < l < |byCode[c]| ==> byCode[c][k] < byCode[c][l])
    && (forall i :: 0 <= i < n && entries[i].code != "" ==> entries[i].code in byCode && i in byCode[entries[i].code])
  }

  function AddIndex(byCode: map<string, seq<nat>>, code: string, n: nat): map<string, seq<nat>> {
    byCode[code := (if code in byCode then byCode[code] else []) + [n]]
  }

  lemma IndexedKept(byCode: map<string, seq<nat>>, entries: seq<Terms>, n: nat)
    requires n < |entries| && Indexed(byCode, entries, n) && entries[n].code != ""
    ensures var next := AddIndex(byCode, entries[n].code, n);
      forall i :: 0 <= i < n && entries[i].code != "" ==>
        entries[i].code in next && i in next[entries[i].code]
  {
    var c := entries[n].code;
    var next := AddIndex(byCode, c, n);
    forall i | 0 <= i < n && entries[i].code != "" ensures entries[i].code in next && i in next[entries[i].code] {
      assert entries[i].code in byCode && i in byCode[entries[i].code];
      if entries[i].code == c { assert next[c] == byCode[c] + [n]; }
    }
  }

  lemma IndexOne(byCode: map<string, seq<nat>>, entries: seq<Terms>, n: nat)
    requires n < |entries| && Indexed(byCode, entries, n) && entries[n].code != ""
    ensures Indexed(AddIndex(byCode, entries[n].code, n), entries, n + 1)
  {
    var c := entries[n].code;
    var next := AddIndex(byCode, c, n);
    IndexedKept(byCode, entries, n);
    assert next[c][|next[c]| - 1] == n;
    forall d, k | d in next && 0 <= k < |next[d]|
      ensures next[d][k] < n + 1 && entries[next[d][k]].code == d
      ensures forall l :: k < l < |next[d]| ==> next[d][k] < next[d][l]
    {
      if d == c && k < |next[c]| - 1 { assert next[c][k] == byCode[c][k]; }
    }
  }

  // Sharing, read off the index.
  lemma SharedByIndex(byCode: map<string, seq<nat>>, entries: seq<Terms>, identity: string, i: nat)
    requires i < |entries| && Indexed(byCode, entries, |entries|)
    ensures Shared(entries, identity, i) <==>
              entries[i].code != "" && (entries[i].code == identity || |byCode[entries[i].code]| >= 2)
  {
    if entries[i].code != "" {
      var idx := byCode[entries[i].code];
      if |idx| >= 2 {
        var j := if idx[0] == i then idx[1] else idx[0];
        assert j != i && entries[j].code == entries[i].code;
      }
    }
  }

  method IndexCodes(entries: seq<Terms>) returns (byCode: map<string, seq<nat>>)
    ensures Indexed(byCode, entries, |entries|)
  {
    byCode := map[];
    for i := 0 to |entries|
      invariant Indexed(byCode, entries, i)
    {
      if entries[i].code != "" {
        IndexOne(byCode, entries, i);
        byCode := AddIndex(byCode, entries[i].code, i);
      }
    }
  }

  method ClearCodes(rows: seq<Terms>, idx: seq<nat>) returns (out: seq<Terms>)
    requires forall k :: 0 <= k < |idx| ==> idx[k] < |rows|
    ensures |out| == |rows|
    ensures forall i :: 0 <= i < |rows| ==> out[i] == if i in idx then rows[i].(code := "") else rows[i]
  {
    out := rows;
    for k := 0 to |idx|
      invariant |out| == |rows|
      invariant forall i :: 0 <= i < |rows| ==> out[i] == if i in idx[..k] then rows[i].(code := "") else rows[i]
    {
      out := out[idx[k] := out[idx[k]].(code := "")];
      assert idx[..k + 1] == idx[..k] + [idx[k]];
    }
    assert idx[..|idx|] == idx;
  }

  // What the clearing loop has done once the codes in `left` remain.
  ghost predicate ClearedSoFar(entries: seq<Terms>, identity: string, out: seq<Terms>, left: set<string>)
    requires |out| == |entries|
  {
    forall i :: 0 <= i < |entries| ==>
      out[i] == if entries[i].code !in left && Shared(entries, identity, i) then entries[i].(code := "") else entries[i]
  }

  lemma ClearOneCode(byCode: map<string, seq<nat>>, entries: seq<Terms>, identity: string,
                     out: seq<Terms>, left: set<string>, code: string, next: seq<Terms>)
    requires Indexed(byCode, entries, |entries|) && code in left && code in byCode
    requires |out| == |entries| && ClearedSoFar(entries, identity, out, left) && |next| == |entries|
    requires var clears := |byCode[code]| >= 2 || code == identity;
      forall i :: 0 <= i < |entries| ==>
        next[i] == if clears && i in byCode[code] then out[i].(code := "") else out[i]
    ensures ClearedSoFar(entries, identity, next, left - {code})
  {
    forall i | 0 <= i < |entries|
      ensures next[i] == if entries[i].code !in left - {code} && Shared(entries, identity, i)
                         then entries[i].(code := "") else entries[i]
    {
      SharedByIndex(byCode, entries, identity, i);
      assert i in byCode[code] <==> entries[i].code == code;
    }
  }

  // The codes in conflict, each marked reserved when it is the identity's.
  method DedupeCodes(entries: seq<Terms>, identity: string) returns (out: seq<Terms>, conflicts: map<string, bool>)
    ensures out == Deduped(entries, identity)
    ensures forall c :: c in conflicts <==>
              exists i :: 0 <= i < |entries| && entries[i].code == c && Shared(entries, identity, i)
    ensures forall c :: c in conflicts ==> conflicts[c] == (c == identity)
  {
    var byCode := IndexCodes(entries);
    out := entries;
    conflicts := map[];
    var left := byCode.Keys;
    while left != {}
      invariant left <= byCode.Keys && |out| == |entries| && ClearedSoFar(entries, identity, out, left)
      invariant forall c :: c in conflicts <==> c in byCode && c !in left && (c == identity || |byCode[c]| >= 2)
      invariant forall c :: c in conflicts ==> conflicts[c] == (c == identity)
    {
      var code :| code in left;
      var idx := byCode[code];
      var reserved := identity != "" && code == identity;
      ghost var before, was := out, left;
      if |idx| >= 2 || reserved {
        conflicts := conflicts[code := reserved];
        out := ClearCodes(out, idx);
      }
      left := left - {code};
      ClearOneCode(byCode, entries, identity, before, was, code, out);
    }
    ConflictsAreShared(byCode, entries, identity);
  }

  lemma ConflictsAreShared(byCode: map<string, seq<nat>>, entries: seq<Terms>, identity: string)
    requires Indexed(byCode, entries, |entries|)
    ensures forall c :: c in byCode && (c == identity || |byCode[c]| >= 2) <==>
              exists i :: 0 <= i < |entries| && entries[i].code == c && Shared(entries, identity, i)
  {
    forall i | 0 <= i < |entries| ensures Shared(entries, identity, i) <==>
        entries[i].code != "" && (entries[i].code == identity || |byCode[entries[i].code]| >= 2)
    {
      SharedByIndex(byCode, entries, identity, i);
    }
    forall c | c in byCode ensures 0 <= byCode[c][0] < |entries| && entries[byCode[c][0]].code == c {}
  }

  // The labels of the rows picked, in order.
  function NamesOf(entries: seq<Terms>, picked: Terms -> bool): seq<string> {
    if entries == [] then [] else (if picked(entries[0]) then [entries[0].name] else []) + NamesOf(entries[1..], picked)
  }

  function Lapsed(now: int): Terms -> bool { (e: Terms) => e.code != "" && !e.Holds(now) }

  function Wants(now: int): Terms -> bool { (e: Terms) => WantsCode(e, now) }

  lemma {:induction false} NoneNamed(entries: seq<Terms>, picked: Terms -> bool)
    ensures NamesOf(entries, picked) == [] <==> forall i :: 0 <= i < |entries| ==> !picked(entries[i])
  {
    if entries != [] {
      var rest := entries[1..];
      NoneNamed(rest, picked);
      assert forall i :: 0 <= i < |rest| ==> rest[i] == entries[i + 1];
      assert forall i :: 0 < i < |entries| ==> entries[i] == rest[i - 1];
    }
  }

  lemma {:induction false} NamesOfAppend(entries: seq<Terms>, e: Terms, picked: Terms -> bool)
    ensures NamesOf(entries + [e], picked) == NamesOf(entries, picked) + (if picked(e) then [e.name] else [])
  {
    if entries == [] {
      assert entries + [e] == [e];
    } else {
      assert (entries + [e])[1..] == entries[1..] + [e];
      NamesOfAppend(entries[1..], e, picked);
    }
  }

  lemma NamesOfNext(entries: seq<Terms>, i: nat, picked: Terms -> bool)
    requires i < |entries|
    ensures NamesOf(entries[..i + 1], picked)
         == NamesOf(entries[..i], picked) + (if picked(entries[i]) then [entries[i].name] else [])
  {
    NamesOfAppend(entries[..i], entries[i], picked);
    assert entries[..i] + [entries[i]] == entries[..i + 1];
  }

  method RetireExpired(entries: seq<Terms>, now: int) returns (out: seq<Terms>, retired: seq<string>)
    ensures out == Retired(entries, now) && retired == NamesOf(entries, Lapsed(now))
  {
    out, retired := entries, [];
    for i := 0 to |entries|
      invariant |out| == |entries| && retired == NamesOf(entries[..i], Lapsed(now))
      invariant forall j :: 0 <= j < |entries| ==> out[j] == if j < i then Retired(entries, now)[j] else entries[j]
    {
      NamesOfNext(entries, i, Lapsed(now));
      if out[i].code == "" || out[i].Holds(now) { continue; }
      retired := retired + [out[i].name];
      out := out[i := out[i].(code := "")];
    }
    assert entries[..|entries|] == entries;
  }

  method Mint(entries: seq<Terms>, now: int, gen: nat -> Option<string>)
    returns (r: Option<seq<Terms>>, minted: seq<string>)
    ensures r == Minted(entries, now, gen, 0)
    ensures minted == if r.Some? then NamesOf(entries, Wants(now)) else []
  {
    var out: seq<Terms> := [];
    minted := [];
    WithRowsNone(Minted(entries, now, gen, 0));
    assert entries[0..] == entries;
    for i := 0 to |entries|
      invariant Minted(entries, now, gen, 0) == WithRows(out, Minted(entries[i..], now, gen, |minted|))
      invariant minted == NamesOf(entries[..i], Wants(now))
    {
      assert entries[i..][0] == entries[i] && entries[i..][1..] == entries[i + 1..];
      NamesOfNext(entries, i, Wants(now));
      var e := entries[i];
      if WantsCode(e, now) {
        var code := gen(|minted|);
        if code == None { return None, []; }
        e := e.(code := code.value);
        minted := minted + [e.name];
      }
      WithRowsOne(out, e, Minted(entries[i + 1..], now, gen, |minted|));
      out := out + [e];
    }
    assert out + [] == out && entries[..|entries|] == entries;
    return Some(out), minted;
  }

  function WithRows(rows: seq<Terms>, r: Option<seq<Terms>>): Option<seq<Terms>> {
    match r
    case None => None
    case Some(more) => Some(rows + more)
  }

  lemma WithRowsNone(r: Option<seq<Terms>>)
    ensures WithRows([], r) == r
  {
    if r.Some? { assert [] + r.value == r.value; }
  }

  lemma WithRowsOne(rows: seq<Terms>, e: Terms, r: Option<seq<Terms>>)
    ensures WithRows(rows, WithRow(e, r)) == WithRows(rows + [e], r)
  {
    if r.Some? { assert rows + ([e] + r.value) == rows + [e] + r.value; }
  }

  // ---- What the passes leave ----

  // The generator returns codes that are neither in use nor returned before.
  ghost predicate FreshCodes(gen: nat -> Option<string>, used: set<string>) {
    && (forall k :: gen(k).Some? ==> gen(k).value != "" && gen(k).value !in used)
    && (forall k, l :: k < l && gen(k).Some? && gen(l).Some? ==> gen(k).value != gen(l).value)
  }

  function Codes(entries: seq<Terms>): set<string> {
    set i | 0 <= i < |entries| :: entries[i].code
  }

  // Rows before the i-th that want a code.
  function Wanting(entries: seq<Terms>, now: int, i: nat): nat
    requires i <= |entries|
  {
    if i == 0 then 0 else Wanting(entries, now, i - 1) + if WantsCode(entries[i - 1], now) then 1 else 0
  }

  lemma {:induction false} WantingTail(entries: seq<Terms>, now: int, i: nat)
    requires 0 < i <= |entries|
    ensures Wanting(entries, now, i)
         == (if WantsCode(entries[0], now) then 1 else 0) + Wanting(entries[1..], now, i - 1)
  {
    if i > 1 {
      WantingTail(entries, now, i - 1);
      assert entries[1..][i - 2] == entries[i - 1];
    }
  }

  lemma {:induction false} WantingGrows(entries: seq<Terms>, now: int, i: nat, j: nat)
    requires i < j <= |entries|
    ensures Wanting(entries, now, i) + (if WantsCode(entries[i], now) then 1 else 0) <= Wanting(entries, now, j)
  {
    if j > i + 1 { WantingGrows(entries, now, i, j - 1); }
  }

  // The i-th row, with the code it is minted if it wants one.
  function MintedRow(entries: seq<Terms>, now: int, gen: nat -> Option<string>, k: nat, i: nat): Terms
    requires i < |entries|
  {
    var code := gen(k + Wanting(entries, now, i));
    if WantsCode(entries[i], now) && code.Some? then entries[i].(code := code.value) else entries[i]
  }

  lemma {:induction false} MintedLength(entries: seq<Terms>, now: int, gen: nat -> Option<string>, k: nat)
    requires Minted(entries, now, gen, k).Some?
    ensures |Minted(entries, now, gen, k).value| == |entries|
    decreases |entries|
  {
    if entries != [] {
      MintedLength(entries[1..], now, gen, if WantsCode(entries[0], now) then k + 1 else k);
    }
  }

  lemma {:induction false} MintedAt(entries: seq<Terms>, now: int, gen: nat -> Option<string>, k: nat, i: nat)
    requires Minted(entries, now, gen, k).Some? && i < |entries| == |Minted(entries, now, gen, k).value|
    ensures Minted(entries, now, gen, k).value[i] == MintedRow(entries, now, gen, k, i)
    ensures WantsCode(entries[i], now) ==> gen(k + Wanting(entries, now, i)).Some?
    decreases |entries|
  {
    if i > 0 {
      var next := if WantsCode(entries[0], now) then k + 1 else k;
      MintedAt(entries[1..], now, gen, next, i - 1);
      WantingTail(entries, now, i);
    }
  }

  lemma MintedRows(entries: seq<Terms>, now: int, gen: nat -> Option<string>)
    requires Minted(entries, now, gen, 0).Some?
    ensures var out := Minted(entries, now, gen, 0).value;
      && |out| == |entries|
      && forall i :: 0 <= i < |entries| ==>
           && out[i] == MintedRow(entries, now, gen, 0, i)
           && (WantsCode(entries[i], now) ==> gen(Wanting(entries, now, i)).Some?)
  {
    MintedLength(entries, now, gen, 0);
    forall i | 0 <= i < |entries|
      ensures Minted(entries, now, gen, 0).value[i] == MintedRow(entries, now, gen, 0, i)
      ensures WantsCode(entries[i], now) ==> gen(Wanting(entries, now, i)).Some?
    {
      MintedAt(entries, now, gen, 0, i);
    }
  }

  ghost predicate DistinctCodes(rows: seq<Terms>) {
    forall i, j :: 0 <= i < j < |rows| && rows[i].code != "" ==> rows[i].code != rows[j].code
  }

  predicate SameTerms(a: Terms, b: Terms) { a.name == b.name && a.grant == b.grant && a.expires == b.expires }

  // After de-duplication and retirement, what is left of the i-th row's code.
  lemma LeftCode(entries: seq<Terms>, identity: string, now: int, i: nat)
    requires i < |entries|
    ensures var row := Retired(Deduped(entries, identity), now)[i];
      && SameTerms(row, entries[i])
      && row.code == if entries[i].Holds(now) && !Shared(entries, identity, i) then entries[i].code else ""
  {
  }

  /** De-duplicate, retire, mint, at one instant: no two rows share a code and none holds the
      identity's; the live rows are exactly those with a code; a row keeps its code exactly when
      it was live and nothing else held the code; and nothing but codes has changed. */
  lemma PreparedTable(entries: seq<Terms>, identity: string, now: int, gen: nat -> Option<string>)
    requires FreshCodes(gen, Codes(entries) + {identity})
    requires Prepared(entries, identity, now, gen).Some?
    ensures var out := Prepared(entries, identity, now, gen).value;
      && |out| == |entries| && DistinctCodes(out)
      && forall i :: 0 <= i < |out| ==>
           && SameTerms(out[i], entries[i])
           && (out[i].code != "" <==> out[i].Holds(now))
           && (out[i].code != "" ==> out[i].code != identity)
           && (entries[i].code != "" ==>
                 (out[i].code == entries[i].code <==> entries[i].Holds(now) && !Shared(entries, identity, i)))
  {
    var left := Retired(Deduped(entries, identity), now);
    var out := Prepared(entries, identity, now, gen).value;
    MintedRows(left, now, gen);
    forall i | 0 <= i < |out|
      ensures SameTerms(out[i], entries[i]) && (out[i].code != "" <==> out[i].Holds(now))
      ensures out[i].code != "" ==> out[i].code != identity
      ensures entries[i].code != "" ==>
                (out[i].code == entries[i].code <==> entries[i].Holds(now) && !Shared(entries, identity, i))
    {
      LeftCode(entries, identity, now, i);
      assert entries[i].code in Codes(entries);
    }
    forall i, j | 0 <= i < j < |out| && out[i].code != "" ensures out[i].code != out[j].code {
      MintedApart(entries, identity, now, gen, i, j);
    }
  }

  lemma MintedApart(entries: seq<Terms>, identity: string, now: int, gen: nat -> Option<string>, i: nat, j: nat)
    requires FreshCodes(gen, Codes(entries) + {identity})
    requires Prepared(entries, identity, now, gen).Some? && i < j < |entries|
    requires |Prepared(entries, identity, now, gen).value| == |entries|
    requires Prepared(entries, identity, now, gen).value[i].code != ""
    ensures Prepared(entries, identity, now, gen).value[i].code != Prepared(entries, identity, now, gen).value[j].code
  {
    var left := Retired(Deduped(entries, identity), now);
    MintedRows(left, now, gen);
    LeftCode(entries, identity, now, i);
    LeftCode(entries, identity, now, j);
    WantingGrows(left, now, i, j);
    assert entries[i].code in Codes(entries) && entries[j].code in Codes(entries);
  }

  lemma {:induction false} NothingWanted(entries: seq<Terms>, now: int, gen: nat -> Option<string>, k: nat)
    requires forall i :: 0 <= i < |entries| ==> !WantsCode(entries[i], now)
    ensures Minted(entries, now, gen, k) == Some(entries)
  {
    if entries != [] {
      var rest := entries[1..];
      forall i | 0 <= i < |rest| ensures !WantsCode(rest[i], now) { assert rest[i] == entries[i + 1]; }
      NothingWanted(rest, now, gen, k);
      assert [entries[0]] + rest == entries;
    }
  }

  /** The passes leave nothing for themselves to do: a second time at the same instant changes
      no row and draws no code. */
  lemma PreparedTwice(entries: seq<Terms>, identity: string, now: int, gen: nat -> Option<string>,
      again: nat -> Option<string>)
    requires FreshCodes(gen, Codes(entries) + {identity})
    requires Prepared(entries, identity, now, gen).Some?
    ensures Prepared(Prepared(entries, identity, now, gen).value, identity, now, again) == Prepared(entries, identity,
        now, gen)
  {
    PreparedTable(entries, identity, now, gen);
    var out := Prepared(entries, identity, now, gen).value;
    forall i | 0 <= i < |out| ensures !Shared(out, identity, i) {
    }
    assert Deduped(out, identity) == out;
    assert Retired(out, now) == out;
    NothingWanted(out, now, again, 0);
  }

  // ---- The order of the passes ----

  // A live row shares its code with expired rows only.
  ghost predicate SharesWithExpiredOnly(entries: seq<Terms>, identity: string, now: int, i: nat)
    requires i < |entries|
  {
    && entries[i].Holds(now) && entries[i].code != identity && Shared(entries, identity, i)
    && forall j :: 0 <= j < |entries| && j != i && entries[j].code == entries[i].code ==> !entries[j].Holds(now)
  }

  lemma SharedAmongLive(entries: seq<Terms>, identity: string, now: int, i: nat)
    requires i < |entries| && entries[i].Holds(now)
    ensures Shared(Retired(entries, now), identity, i) <==>
              Shared(entries, identity, i) && !SharesWithExpiredOnly(entries, identity, now, i)
  {
    var left := Retired(entries, now);
    if Shared(left, identity, i) && entries[i].code != identity {
      var j :| 0 <= j < |left| && j != i && left[j].code == left[i].code;
      assert entries[j].code == entries[i].code && entries[j].Holds(now);
    }
    if Shared(entries, identity, i) && !SharesWithExpiredOnly(entries, identity, now, i)
        && entries[i].code != identity {
      var j :| 0 <= j < |entries| && j != i && entries[j].code == entries[i].code && entries[j].Holds(now);
      assert left[j].code == left[i].code;
    }
  }

  /** Clearing shared codes and retiring expired ones commute exactly when no live row shares
      its code with expired rows only. */
  lemma PassesCommuteIff(entries: seq<Terms>, identity: string, now: int)
    ensures Deduped(Retired(entries, now), identity) == Retired(Deduped(entries, identity), now) <==>
              forall i :: 0 <= i < |entries| ==> !SharesWithExpiredOnly(entries, identity, now, i)
  {
    var a, b := Deduped(Retired(entries, now), identity), Retired(Deduped(entries, identity), now);
    forall i | 0 <= i < |entries|
      ensures a[i] == b[i] <==> !SharesWithExpiredOnly(entries, identity, now, i)
    {
      if entries[i].Holds(now) { SharedAmongLive(entries, identity, now, i); }
    }
    if forall i :: 0 <= i < |entries| ==> !SharesWithExpiredOnly(entries, identity, now, i) {
      assert forall i :: 0 <= i < |a| ==> a[i] == b[i];
    }
  }

  /** An expired row and a live copy of it: in the other order the live row keeps the code that
      was handed out as the expired one's. */
  lemma PassesDoNotCommute(name: string, copy: string, code: string, grant: string, identity: string, now: int)
    requires code != "" && code != identity
    ensures var entries := [Terms(name, code, grant, Some(now)), Terms(copy, code, grant, None)];
      && Retired(Deduped(entries, identity), now)[1].code == ""
      && Deduped(Retired(entries, now), identity)[1].code == code
  {
    var entries := [Terms(name, code, grant, Some(now)), Terms(copy, code, grant, None)];
    assert entries[0].code == entries[1].code;
    assert SharesWithExpiredOnly(entries, identity, now, 1);
    SharedAmongLive(entries, identity, now, 1);
  }

  // ---- Building and looking up ----

  datatype BuildError = OwnerReserved | DuplicateName(name: string)

  function OwnerRow(identity: string): Terms { Terms(OWNER_LABEL, identity, "", None) }

  // The rows of the table, the owner's first.
  function Rows(entries: seq<Terms>, identity: string): seq<Terms> { [OwnerRow(identity)] + entries }

  predicate DistinctNames(rows: seq<Terms>) {
    forall i, j :: 0 <= i < j < |rows| ==> rows[i].name != rows[j].name
  }

  predicate Clash(rows: seq<Terms>, i: nat, j: nat, error: BuildError)
    requires i < |rows| && j < |rows|
  {
    && rows[i].name == rows[j].name
    && error == if rows[j].name == OWNER_LABEL then OwnerReserved else DuplicateName(rows[j].name)
  }

  method Build(entries: seq<Terms>, identity: string) returns (r: Result<seq<Terms>, BuildError>)
    ensures r.Ok? <==> DistinctNames(Rows(entries, identity))
    ensures r.Ok? ==> r.value == Rows(entries, identity)
    ensures r.Err? ==>
              exists i, j :: 0 <= i < j < |Rows(entries, identity)| && Clash(Rows(entries, identity), i, j, r.error)
  {
    var all := [OwnerRow(identity)] + entries;
    var seen: set<string> := {};
    for i := 0 to |all|
      invariant forall n :: n in seen <==> exists j :: 0 <= j < i && all[j].name == n
      invariant forall j, k :: 0 <= j < k < i ==> all[j].name != all[k].name
    {
      var e := all[i];
      if e.name in seen {
        ghost var j :| 0 <= j < i && all[j].name == e.name;
        assert Clash(all, j, i, if e.name == OWNER_LABEL then OwnerReserved else DuplicateName(e.name));
        return Err(if e.name == OWNER_LABEL then OwnerReserved else DuplicateName(e.name));
      }
      seen := seen + {e.name};
    }
    return Ok(all);
  }

  function FirstByCode(rows: seq<Terms>, code: string): Option<Terms> {
    if rows == [] then None
    else if rows[0].code == code then Some(rows[0])
    else FirstByCode(rows[1..], code)
  }

  function ByCode(rows: seq<Terms>, code: string): Option<Terms> {
    if code == "" then None else FirstByCode(rows, code)
  }

  function ByName(rows: seq<Terms>, name: string): Option<Terms> {
    if rows == [] then None
    else if rows[0].name == name then Some(rows[0])
    else ByName(rows[1..], name)
  }

  method FindByCode(rows: seq<Terms>, code: string) returns (r: Option<Terms>)
    ensures r == ByCode(rows, code)
  {
    if code == "" { return None; }
    for i := 0 to |rows|
      invariant FirstByCode(rows[i..], code) == FirstByCode(rows, code)
    {
      if rows[i].code == code { return Some(rows[i]); }
    }
    return None;
  }

  method FindByName(rows: seq<Terms>, name: string) returns (r: Option<Terms>)
    ensures r == ByName(rows, name)
  {
    for i := 0 to |rows|
      invariant ByName(rows[i..], name) == ByName(rows, name)
    {
      if rows[i].name == name { return Some(rows[i]); }
    }
    return None;
  }

  // Authorize compares with every row, with no early exit; the last match decides.
  method Authorize(rows: seq<Terms>, code: string, now: int) returns (r: Option<Terms>)
    ensures DistinctCodes(rows) ==>
              r == if ByCode(rows, code).Some? && ByCode(rows, code).value.Holds(now) then ByCode(rows, code) else None
    ensures r.Some? <==> exists i :: 0 <= i < |rows| && LastMatch(rows, code, i) && rows[i].Holds(now)
    ensures r.Some? ==>
              exists i :: 0 <= i < |rows| && LastMatch(rows, code, i) && rows[i].Holds(now) && r.value == rows[i]
  {
    var matched := -1;
    for i := 0 to |rows|
      invariant -1 <= matched < i
      invariant matched >= 0 ==> rows[matched].code == code != ""
      invariant forall j :: matched < j < i ==> rows[j].code == "" || rows[j].code != code
    {
      if rows[i].code == "" { continue; }
      if rows[i].code == code { matched := i; }
    }
    FirstIsLast(rows, code, matched);
    if matched < 0 { return None; }
    assert LastMatch(rows, code, matched);
    var e := rows[matched];
    if !e.Holds(now) { return None; }
    return Some(e);
  }

  ghost predicate LastMatch(rows: seq<Terms>, code: string, i: nat)
    requires i < |rows|
  {
    rows[i].code == code != "" && forall j :: i < j < |rows| ==> rows[j].code != code
  }

  lemma {:induction false} FirstByCodeAt(rows: seq<Terms>, code: string, i: nat)
    requires i < |rows| && rows[i].code == code
    requires forall j :: 0 <= j < i ==> rows[j].code != code
    ensures FirstByCode(rows, code) == Some(rows[i])
  {
    if i > 0 {
      forall j | 0 <= j < i - 1 ensures rows[1..][j].code != code { assert rows[1..][j] == rows[j + 1]; }
      FirstByCodeAt(rows[1..], code, i - 1);
    }
  }

  lemma {:induction false} FirstByCodeNone(rows: seq<Terms>, code: string)
    ensures FirstByCode(rows, code) == None <==> forall i :: 0 <= i < |rows| ==> rows[i].code != code
    ensures FirstByCode(rows, code).Some? ==>
              FirstByCode(rows, code).value.code == code && FirstByCode(rows, code).value in rows
  {
    if rows != [] {
      FirstByCodeNone(rows[1..], code);
      assert forall i :: 0 < i < |rows| ==> rows[i] == rows[1..][i - 1];
    }
  }

  // Where no two rows share a code, the only match is the first and the last.
  lemma FirstIsLast(rows: seq<Terms>, code: string, matched: int)
    requires -1 <= matched < |rows| && (matched >= 0 ==> rows[matched].code == code != "")
    requires forall j :: matched < j < |rows| ==> rows[j].code == "" || rows[j].code != code
    ensures DistinctCodes(rows) ==> ByCode(rows, code) == if matched < 0 then None else Some(rows[matched])
  {
    if DistinctCodes(rows) && code != "" {
      if matched >= 0 { FirstByCodeAt(rows, code, matched); } else { FirstByCodeNone(rows, code); }
    }
  }

  /** Every table built from prepared entries resolves each code to at most one row. */
  lemma PreparedRowsDistinct(entries: seq<Terms>, identity: string, now: int, gen: nat -> Option<string>)
    requires FreshCodes(gen, Codes(entries) + {identity}) && Prepared(entries, identity, now, gen).Some?
    ensures DistinctCodes(Rows(Prepared(entries, identity, now, gen).value, identity))
  {
    PreparedTable(entries, identity, now, gen);
    var out := Prepared(entries, identity, now, gen).value;
    var rows := Rows(out, identity);
    forall i, j | 0 <= i < j < |rows| && rows[i].code != "" ensures rows[i].code != rows[j].code {
      assert rows[j] == out[j - 1] && (i > 0 ==> rows[i] == out[i - 1]);
    }
  }

  // ---- Which codes survive ----

  // One row of those given to the passes holds the code, live and alone.
  predicate KeptBy(rows: seq<Terms>, identity: string, code: string, now: int, k: nat) {
    k < |rows| && rows[k].code == code != "" && rows[k].Holds(now) && !Shared(rows, identity, k)
  }

  lemma MintedOrKept(rows: seq<Terms>, identity: string, now: int, gen: nat -> Option<string>, i: nat)
    requires Prepared(rows, identity, now, gen).Some? && i < |rows| == |Prepared(rows, identity, now, gen).value|
    ensures var code := Prepared(rows, identity, now, gen).value[i].code;
      code == "" || code == rows[i].code || exists k :: gen(k) == Some(code)
  {
    var left := Retired(Deduped(rows, identity), now);
    MintedRows(left, now, gen);
    LeftCode(rows, identity, now, i);
    assert Prepared(rows, identity, now, gen).value[i] == MintedRow(left, now, gen, 0, i);
    if WantsCode(left[i], now) { assert gen(Wanting(left, now, i)).Some?; }
  }

  lemma PreparedCodeKept(rows: seq<Terms>, identity: string, now: int, gen: nat -> Option<string>, code: string, i: nat)
    requires FreshCodes(gen, Codes(rows) + {identity}) && (forall k :: gen(k) != Some(code))
    requires Prepared(rows, identity, now, gen).Some? && code != ""
    requires i < |rows| == |Prepared(rows, identity, now, gen).value|
    ensures Prepared(rows, identity, now, gen).value[i].code == code <==> KeptBy(rows, identity, code, now, i)
  {
    PreparedTable(rows, identity, now, gen);
    MintedOrKept(rows, identity, now, gen, i);
  }

  /** In the table built of prepared rows a code in use before resolves to the row that held it
      live and alone, and otherwise to none. */
  lemma LookupPrepared(rows: seq<Terms>, identity: string, now: int, gen: nat -> Option<string>, code: string)
    requires FreshCodes(gen, Codes(rows) + {identity}) && (forall k :: gen(k) != Some(code))
    requires Prepared(rows, identity, now, gen).Some? && code != "" && code != identity
    ensures var r := ByCode(Rows(Prepared(rows, identity, now, gen).value, identity), code);
      if r == None then forall k: nat :: !KeptBy(rows, identity, code, now, k)
      else exists k: nat :: KeptBy(rows, identity, code, now, k) && r.value == rows[k]
  {
    PreparedTable(rows, identity, now, gen);
    PreparedRowsDistinct(rows, identity, now, gen);
    var out := Prepared(rows, identity, now, gen).value;
    var table := Rows(out, identity);
    if i :| 0 < i < |table| && table[i].code == code {
      PreparedCodeKept(rows, identity, now, gen, code, i - 1);
      PreparedRow(rows, identity, now, gen, i - 1);
      forall j | 0 <= j < i ensures table[j].code != code {}
      FirstByCodeAt(table, code, i);
      assert KeptBy(rows, identity, code, now, i - 1);
    } else {
      FirstByCodeNone(table, code);
      forall k: nat ensures !KeptBy(rows, identity, code, now, k) {
        if k < |rows| { PreparedCodeKept(rows, identity, now, gen, code, k); assert table[k + 1] == out[k]; }
      }
    }
  }

  lemma PreparedRow(rows: seq<Terms>, identity: string, now: int, gen: nat -> Option<string>, i: nat)
    requires FreshCodes(gen, Codes(rows) + {identity}) && Prepared(rows, identity, now, gen).Some?
    requires i < |rows| == |Prepared(rows, identity, now, gen).value|
        && Prepared(rows, identity, now, gen).value[i].code == rows[i].code
    ensures Prepared(rows, identity, now, gen).value[i] == rows[i]
  {
    PreparedTable(rows, identity, now, gen);
  }

  lemma KeptByOne(rows: seq<Terms>, identity: string, code: string, now: int, k: nat, l: nat)
    requires KeptBy(rows, identity, code, now, k) && KeptBy(rows, identity, code, now, l)
    ensures k == l
  {
  }
}

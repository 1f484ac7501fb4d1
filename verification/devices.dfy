/**
 The table of remembered hosts: one row for each UID, each with a name no
 other row has, whatever the case of its letters.
 */
module Devices {
  import opened Wrappers
  import Text

  datatype Device = Device(name: string, uid: string, code: string, server: string, pairedAt: int)

  // ---- Names ----

  predicate IsLetter(c: char) { 'a' <= c <= 'z' || 'A' <= c <= 'Z' }

  predicate ValidName(name: string) {
    name != "" && IsLetter(name[0])
    && forall i :: 0 <= i < |name| ==> IsLetter(name[i]) || Text.IsDigit(name[i]) || name[i] == '-' || name[i] == '_'
  }

  // Names are compared without regard to case.
  function Fold(name: string): string { Text.ToLower(name) }

  predicate SameName(a: string, b: string) { Fold(a) == Fold(b) }

  function Digit(d: nat): char
    requires d < 10
  {
    ('0' as int + d) as char
  }

  function Itoa(n: nat): string {
    if n < 10 then [Digit(n)] else Itoa(n / 10) + [Digit(n % 10)]
  }

  lemma {:induction false} ItoaDigits(n: nat)
    ensures Itoa(n) != "" && forall i :: 0 <= i < |Itoa(n)| ==> Text.IsDigit(Itoa(n)[i])
  {
    if n >= 10 { ItoaDigits(n / 10); }
  }

  /** Reading a printed number gives the number. */
  lemma {:induction false} ItoaValue(n: nat)
    ensures (forall i :: 0 <= i < |Itoa(n)| ==> Text.IsDigit(Itoa(n)[i])) && Text.DecimalValue(Itoa(n)) == n
  {
    ItoaDigits(n);
    if n >= 10 {
      ItoaValue(n / 10);
      var s := Itoa(n);
      assert s[..|s| - 1] == Itoa(n / 10);
    } else {
      assert [Digit(n)][..0] == "";
      assert Text.DecimalValue("") == 0;
    }
  }

  const AUTO_NAME_ROOT := "device"

  function AutoName(n: nat): string { AUTO_NAME_ROOT + Itoa(n) }

  lemma AutoNameValid(n: nat)
    ensures ValidName(AutoName(n)) && Fold(AutoName(n)) == AutoName(n)
  {
    ItoaDigits(n);
    var name := AutoName(n);
    assert forall i :: |AUTO_NAME_ROOT| <= i < |name| ==> name[i] == Itoa(n)[i - |AUTO_NAME_ROOT|];
    assert forall i :: 0 <= i < |AUTO_NAME_ROOT| ==> name[i] == AUTO_NAME_ROOT[i] && 'a' <= AUTO_NAME_ROOT[i] <= 'z';
    assert Fold(name) == name;
  }

  lemma AutoNameInjective(m: nat, n: nat)
    requires AutoName(m) == AutoName(n)
    ensures m == n
  {
    assert AutoName(m)[|AUTO_NAME_ROOT|..] == Itoa(m) && AutoName(n)[|AUTO_NAME_ROOT|..] == Itoa(n);
    ItoaValue(m);
    ItoaValue(n);
  }

  predicate NameTaken(table: seq<Device>, name: string) {
    exists i :: 0 <= i < |table| && SameName(table[i].name, name)
  }

  method FindName(table: seq<Device>, name: string) returns (taken: bool)
    ensures taken == NameTaken(table, name)
  {
    for i := 0 to |table|
      invariant forall j :: 0 <= j < i ==> !SameName(table[j].name, name)
    {
      if SameName(table[i].name, name) { return true; }
    }
    return false;
  }

  // ---- The least free number ----

  predicate AutoTaken(table: seq<Device>, n: nat) { NameTaken(table, AutoName(n)) }

  function Below(n: nat): (s: set<nat>)
    ensures |s| == n && forall i: nat :: i in s <==> i < n
  {
    if n == 0 then {} else Below(n - 1) + {n - 1}
  }

  // The rows holding one of the first n automatic names.
  function Holders(table: seq<Device>, n: nat): set<nat> {
    set i | i in Below(|table|) && HoldsAuto(table, i, n)
  }

  predicate HoldsAuto(table: seq<Device>, i: nat, n: nat)
    requires i < |table|
  {
    exists k :: 1 <= k <= n && SameName(table[i].name, AutoName(k))
  }

  lemma HoldsOne(table: seq<Device>, i: nat, m: nat, n: nat)
    requires i < |table| && m < n && SameName(table[i].name, AutoName(n))
    ensures !HoldsAuto(table, i, m)
  {
    if k :| 1 <= k <= m && SameName(table[i].name, AutoName(k)) {
      AutoNameValid(k);
      AutoNameValid(n);
      AutoNameInjective(k, n);
    }
  }

  // Each name taken is taken by a row of its own.
  lemma {:induction false} HoldersCount(table: seq<Device>, n: nat)
    requires forall k :: 1 <= k <= n ==> AutoTaken(table, k)
    ensures n <= |Holders(table, n)|
  {
    if n > 0 {
      HoldersCount(table, n - 1);
      assert AutoTaken(table, n);
      var i: nat :| i < |table| && SameName(table[i].name, AutoName(n));
      OneMoreHolder(table, n, i);
      SubsetCount(Holders(table, n - 1) + {i}, Holders(table, n));
    }
  }

  lemma OneMoreHolder(table: seq<Device>, n: nat, i: nat)
    requires n > 0 && i < |table| && SameName(table[i].name, AutoName(n))
    ensures i !in Holders(table, n - 1) && Holders(table, n - 1) + {i} <= Holders(table, n)
  {
    HoldsOne(table, i, n - 1, n);
    HoldsMore(table, i, n, n);
    forall j | j in Holders(table, n - 1) ensures j in Holders(table, n) {
      var k :| 1 <= k <= n - 1 && SameName(table[j].name, AutoName(k));
      HoldsMore(table, j, k, n);
    }
  }

  lemma HoldsMore(table: seq<Device>, i: nat, k: nat, n: nat)
    requires i < |table| && 1 <= k <= n && SameName(table[i].name, AutoName(k))
    ensures HoldsAuto(table, i, n)
  {
  }

  lemma {:induction false} SubsetCount(a: set<nat>, b: set<nat>)
    requires a <= b
    ensures |a| <= |b|
  {
    if a != {} {
      var x :| x in a;
      SubsetCount(a - {x}, b - {x});
    }
  }

  // The pigeonhole: a table cannot hold more automatic names than it has rows.
  lemma AutoTakenBound(table: seq<Device>, n: nat)
    requires forall k :: 1 <= k <= n ==> AutoTaken(table, k)
    ensures n <= |table|
  {
    HoldersCount(table, n);
    SubsetCount(Holders(table, n), Below(|table|));
  }

  /** The search stops within one try more than there are rows, at the least free number. */
  method AutoDeviceName(table: seq<Device>) returns (name: string, n: nat)
    ensures 1 <= n <= |table| + 1 && name == AutoName(n) && !NameTaken(table, name)
    ensures forall k :: 1 <= k < n ==> AutoTaken(table, k)
  {
    n := 1;
    while true
      invariant n >= 1 && forall k :: 1 <= k < n ==> AutoTaken(table, k)
      decreases |table| + 1 - n
    {
      AutoTakenBound(table, n - 1);
      name := AutoName(n);
      var taken := FindName(table, name);
      if !taken { return; }
      AutoTakenBound(table, n);
      n := n + 1;
    }
  }

  ghost predicate LeastFree(table: seq<Device>, n: nat) {
    n >= 1 && !AutoTaken(table, n) && forall k :: 1 <= k < n ==> AutoTaken(table, k)
  }

  // ---- recordDevice ----

  datatype Status = Updated | Created | CreatedAuto

  datatype RecordError = RenameUnsupported(stored: string) | InvalidName | NameInUse | NotLoaded | NotWritten

  datatype Request = Request(server: string, uid: string, code: string, name: string, now: int)

  datatype Recorded = Recorded(name: string, status: Status)

  function IndexOfUid(table: seq<Device>, uid: string): (i: int)
    ensures -1 <= i < |table|
    ensures i >= 0 ==> table[i].uid == uid && forall j :: 0 <= j < i ==> table[j].uid != uid
    ensures i < 0 ==> forall j :: 0 <= j < |table| ==> table[j].uid != uid
  {
    if table == [] then -1
    else if table[0].uid == uid then 0
    else
      var i := IndexOfUid(table[1..], uid);
      assert forall j :: 0 < j < |table| ==> table[j] == table[1..][j - 1];
      if i < 0 then -1 else i + 1
  }

  function Refreshed(d: Device, r: Request): Device { d.(code := r.code, server := r.server, pairedAt := r.now) }

  // What one call may leave in the file, and return.
  ghost predicate Records(table: seq<Device>, r: Request, table': seq<Device>, out: Result<Recorded, RecordError>) {
    var i := IndexOfUid(table, r.uid);
    if i >= 0 then
      if r.name != "" && !SameName(r.name, table[i].name) then table' == table
          && out == Err(RenameUnsupported(table[i].name))
      else table' == table[i := Refreshed(table[i], r)] && out == Ok(Recorded(table[i].name, Updated))
    else if r.name == "" then
      exists n :: LeastFree(table, n) && table' == table + [Device(AutoName(n), r.uid, r.code, r.server, r.now)]
               && out == Ok(Recorded(AutoName(n), CreatedAuto))
    else if !ValidName(r.name) then table' == table && out == Err(InvalidName)
    else if NameTaken(table, r.name) then table' == table && out == Err(NameInUse)
    else table' == table + [Device(r.name, r.uid, r.code, r.server, r.now)] && out == Ok(Recorded(r.name, Created))
  }

  datatype File = Table(devices: seq<Device>) | Corrupt

  // A file that does not parse is read as an empty table.
  function Rows(f: File): seq<Device> { if f.Corrupt? then [] else f.devices }

  class DeviceFile {
    var file: File

    constructor ()
      ensures file == Table([])
    {
      file := Table([]);
    }

    // A file that cannot be read, or written, is left as it was, and so is one that is not to change.
    method RecordDevice(r: Request, loads: bool, writes: bool) returns (out: Result<Recorded, RecordError>)
      modifies this
      ensures !loads ==> out == Err(NotLoaded)
      ensures out == Err(NotWritten) ==> !writes
      ensures out.Ok? ==> writes && file.Table? && Records(Rows(old(file)), r, file.devices, out)
      ensures out.Err? ==> file == old(file)
      ensures loads && out.Err? && out != Err(NotWritten) ==> Records(Rows(old(file)), r, Rows(file), out)
    {
      if !loads { return Err(NotLoaded); }
      var t := Rows(file);
      for i := 0 to |t|
        invariant t == Rows(file) && file == old(file) && forall j :: 0 <= j < i ==> t[j].uid != r.uid
      {
        if t[i].uid != r.uid { continue; }
        assert IndexOfUid(t, r.uid) == i;
        if r.name != "" && !SameName(r.name, t[i].name) { return Err(RenameUnsupported(t[i].name)); }
        t := t[i := Refreshed(t[i], r)];
        if !writes { return Err(NotWritten); }
        file := Table(t);
        return Ok(Recorded(t[i].name, Updated));
      }
      assert IndexOfUid(t, r.uid) == -1;
      var name, status := r.name, Created;
      if name == "" {
        var n: nat;
        name, n := AutoDeviceName(t);
        assert LeastFree(t, n);
        status := CreatedAuto;
      } else {
        if !ValidName(name) { return Err(InvalidName); }
        var taken := FindName(t, name);
        if taken { return Err(NameInUse); }
      }
      t := t + [Device(name, r.uid, r.code, r.server, r.now)];
      if !writes { return Err(NotWritten); }
      file := Table(t);
      return Ok(Recorded(name, status));
    }
  }

  // ---- What every call keeps ----

  ghost predicate TableOk(table: seq<Device>) {
    && (forall i, j :: 0 <= i < j < |table| ==> table[i].uid != table[j].uid)
    && (forall i, j :: 0 <= i < j < |table| ==> !SameName(table[i].name, table[j].name))
    && (forall i :: 0 <= i < |table| ==> ValidName(table[i].name))
  }

  function LookupByName(table: seq<Device>, name: string): Option<Device> {
    if table == [] then None
    else if SameName(table[0].name, name) then Some(table[0])
    else LookupByName(table[1..], name)
  }

  lemma {:induction false} LookupAt(table: seq<Device>, name: string, i: nat)
    requires i < |table| && SameName(table[i].name, name) && forall j :: 0 <= j < i ==> !SameName(table[j].name, name)
    ensures LookupByName(table, name) == Some(table[i])
  {
    if i > 0 {
      assert forall j :: 0 <= j < i - 1 ==> table[1..][j] == table[j + 1];
      LookupAt(table[1..], name, i - 1);
    }
  }

  lemma AppendKeeps(table: seq<Device>, d: Device)
    requires TableOk(table) && ValidName(d.name) && !NameTaken(table, d.name)
    requires forall i :: 0 <= i < |table| ==> table[i].uid != d.uid
    ensures TableOk(table + [d])
  {
  }

  // The name finds the row just written.
  ghost predicate Finds(table: seq<Device>, name: string, r: Request) {
    var d := LookupByName(table, name);
    && d.Some? && d.value.uid == r.uid
    && d.value.code == r.code && d.value.server == r.server && d.value.pairedAt == r.now
  }

  lemma RefreshKeeps(table: seq<Device>, r: Request, i: nat)
    requires TableOk(table) && i < |table| && table[i].uid == r.uid
    ensures var table' := table[i := Refreshed(table[i], r)];
      TableOk(table') && Finds(table', table[i].name, r) && forall e :: e in table && e.uid != r.uid ==> e in table'
  {
    var table' := table[i := Refreshed(table[i], r)];
    assert forall j :: 0 <= j < |table| ==> table'[j].name == table[j].name && table'[j].uid == table[j].uid;
    LookupAt(table', table[i].name, i);
    forall e | e in table && e.uid != r.uid ensures e in table' {
      var j :| 0 <= j < |table| && table[j] == e;
      assert table'[j] == e;
    }
  }

  lemma AddKeeps(table: seq<Device>, r: Request, name: string)
    requires TableOk(table) && ValidName(name) && !NameTaken(table, name)
    requires forall i :: 0 <= i < |table| ==> table[i].uid != r.uid
    ensures var table' := table + [Device(name, r.uid, r.code, r.server, r.now)];
      TableOk(table') && Finds(table', name, r) && forall e :: e in table ==> e in table'
  {
    var d := Device(name, r.uid, r.code, r.server, r.now);
    AppendKeeps(table, d);
    var table' := table + [d];
    forall j | 0 <= j < |table| ensures !SameName(table'[j].name, name) { assert table'[j] == table[j]; }
    LookupAt(table', name, |table|);
  }

  /** Recording keeps one row for each UID and for each name up to case. On success the name returned
      finds the row of that UID with the new credentials, and no other row has changed. */
  lemma RecordKeeps(table: seq<Device>, r: Request, table': seq<Device>, out: Result<Recorded, RecordError>)
    requires TableOk(table) && Records(table, r, table', out)
    ensures TableOk(table')
    ensures if out.Ok? then
              && Finds(table', out.value.name, r)
              && (r.name != "" ==> SameName(out.value.name, r.name))
              && (forall e :: e in table && e.uid != r.uid ==> e in table')
              && |table'| == |table| + (if out.value.status == Updated then 0 else 1)
            else table' == table
  {
    var i := IndexOfUid(table, r.uid);
    if out.Ok? {
      if i >= 0 {
        RefreshKeeps(table, r, i);
      } else if r.name == "" {
        var n :| LeastFree(table, n) && table' == table + [Device(AutoName(n), r.uid, r.code, r.server, r.now)]
               && out == Ok(Recorded(AutoName(n), CreatedAuto));
        AutoNameValid(n);
        AddKeeps(table, r, AutoName(n));
      } else {
        AddKeeps(table, r, r.name);
      }
    }
  }

  // The files after a sequence of calls and accidents: each call records or leaves the file alone.
  ghost predicate History(files: seq<File>) {
    && files != [] && files[0] == Table([])
    && forall i :: 0 <= i < |files| - 1 ==> Follows(files[i], files[i + 1])
  }

  ghost predicate Follows(before: File, after: File) {
    after == before || after.Corrupt? || Written(Rows(before), Rows(after))
  }

  lemma FollowsKeeps(before: File, after: File)
    requires TableOk(Rows(before)) && Follows(before, after)
    ensures TableOk(Rows(after))
  {
    if after != before && !after.Corrupt? { WrittenKeeps(Rows(before), Rows(after)); }
  }

  ghost predicate Written(table: seq<Device>, table': seq<Device>) {
    exists r, out :: Records(table, r, table', out)
  }

  lemma WrittenKeeps(table: seq<Device>, table': seq<Device>)
    requires TableOk(table) && Written(table, table')
    ensures TableOk(table')
  {
    var r, out :| Records(table, r, table', out);
    RecordKeeps(table, r, table', out);
  }

  /** From the empty file on, every file, even after one was corrupted, keeps UIDs and names unique. */
  lemma {:induction false} HistoryUnique(files: seq<File>, i: nat)
    requires History(files) && i < |files|
    ensures TableOk(Rows(files[i]))
  {
    if i > 0 {
      HistoryUnique(files, i - 1);
      assert files[i - 1 + 1] == files[i];
      FollowsKeeps(files[i - 1], files[i]);
    }
  }

  // ---- When a host is recorded ----

  predicate Known(table: seq<Device>, uid: string) { exists i :: 0 <= i < |table| && table[i].uid == uid }

  predicate KnownAs(table: seq<Device>, uid: string, name: string) {
    exists i :: 0 <= i < |table| && table[i].uid == uid && SameName(table[i].name, name)
  }

  /** A known host is recorded exactly under no name or its own, whatever the case of its letters; a
      new one under no name, or a valid one that no row has. */
  lemma RecordedIff(table: seq<Device>, r: Request, table': seq<Device>, out: Result<Recorded, RecordError>)
    requires TableOk(table) && Records(table, r, table', out)
    ensures out.Ok? <==>
              r.name == "" || (if Known(table, r.uid) then KnownAs(table, r.uid, r.name)
                               else ValidName(r.name) && !NameTaken(table, r.name))
    ensures out.Ok? ==> (out.value.status == Updated <==> Known(table, r.uid))
  {
    var i := IndexOfUid(table, r.uid);
    if i >= 0 {
      forall j | 0 <= j < |table| && table[j].uid == r.uid ensures j == i {}
    }
  }

  /** Case never makes a name valid or invalid. */
  lemma ValidWhateverCase(a: string, b: string)
    requires SameName(a, b)
    ensures ValidName(a) <==> ValidName(b)
  {
    var x, y := Fold(a), Fold(b);
    assert |a| == |x| == |y| == |b|;
    forall i | 0 <= i < |a|
      ensures IsLetter(a[i]) <==> IsLetter(b[i])
      ensures IsLetter(a[i]) || a[i] == b[i]
    {
      assert x[i] == y[i];
    }
  }

  /** A host once recorded is there, under its name, for as long as the file is not corrupted. */
  lemma RememberedUntilCorrupt(files: seq<File>, i: nat, d: Device)
    requires History(files) && i + 1 < |files| && files[i].Table? && files[i + 1].Table? && d in files[i].devices
    ensures exists e :: e in files[i + 1].devices && e.uid == d.uid && e.name == d.name
  {
    HistoryUnique(files, i);
    assert Follows(files[i], files[i + 1]);
    if files[i + 1] != files[i] {
      var r, out :| Records(files[i].devices, r, files[i + 1].devices, out);
      RecordKeeps(files[i].devices, r, files[i + 1].devices, out);
      StillThere(files[i].devices, r, files[i + 1].devices, out, d);
    }
  }

  lemma StillThere(table: seq<Device>, r: Request, table': seq<Device>, out: Result<Recorded, RecordError>, d: Device)
    requires TableOk(table) && Records(table, r, table', out) && d in table
    ensures exists e :: e in table' && e.uid == d.uid && e.name == d.name
  {
    RecordKeeps(table, r, table', out);
    var k :| 0 <= k < |table| && table[k] == d;
    var i := IndexOfUid(table, r.uid);
    if out.Ok? && d.uid == r.uid {
      assert i == k;
      assert table'[k] in table';
    } else if !out.Ok? {
      assert d in table';
    }
  }

  /** A name can be taken neither for a pair code, which is all digits, nor for a URL or UID form. */
  lemma NamesStandApart(name: string)
    requires ValidName(name)
    ensures !Text.AllDigits(name)
    ensures forall c :: c in ".:/#@" ==> c !in name
  {
    assert !Text.IsDigit(name[0]);
    forall c | c in ".:/#@" ensures c !in name {
      assert forall i :: 0 <= i < |name| ==> name[i] != c;
    }
  }
}

/**
 Allowlists of host:port targets: how an entry is read, and which targets a
 list permits. The empty list permits everything.
 */
module Allowlist {
  import opened Wrappers
  import Text

  // ---- net.SplitHostPort ----

  // The first, and the last, place a character stands; -1 when it does not.
  function IndexOf(s: string, c: char): (i: int)
    ensures -1 <= i < |s| && (i >= 0 ==> s[i] == c)
  {
    if s == "" then -1
    else if s[0] == c then 0
    else
      var i := IndexOf(s[1..], c);
      if i < 0 then -1 else i + 1
  }

  function LastIndexOf(s: string, c: char): (i: int)
    ensures -1 <= i < |s| && (i >= 0 ==> s[i] == c)
  {
    if s == "" then -1
    else if s[|s| - 1] == c then |s| - 1
    else LastIndexOf(s[..|s| - 1], c)
  }

  datatype HostPort = HostPort(host: string, port: string)

  function SplitHostPort(s: string): Option<HostPort> {
    var i := LastIndexOf(s, ':');
    if i < 0 then None
    else if s[0] == '[' then
      var end := IndexOf(s, ']');
      if end < 0 || end + 1 != i then None
      else if IndexOf(s[1..], '[') >= 0 || IndexOf(s[end + 1..], ']') >= 0 then None
      else Some(HostPort(s[1..end], s[i + 1..]))
    else if IndexOf(s[..i], ':') >= 0 || IndexOf(s, '[') >= 0 || IndexOf(s, ']') >= 0 then None
    else Some(HostPort(s[..i], s[i + 1..]))
  }

  lemma {:induction false} IndexOfNone(s: string, c: char)
    ensures IndexOf(s, c) == -1 <==> c !in s
  {
    if s != "" && s[0] != c {
      IndexOfNone(s[1..], c);
    }
  }

  lemma {:induction false} LastIndexOfAfter(a: string, b: string, c: char)
    requires c !in b
    ensures LastIndexOf(a + [c] + b, c) == |a|
  {
    var s := a + [c] + b;
    if b != "" {
      assert s[..|s| - 1] == a + [c] + b[..|b| - 1];
      LastIndexOfAfter(a, b[..|b| - 1], c);
    }
  }

  predicate PlainText(s: string) { ':' !in s && '[' !in s && ']' !in s }

  /** Joining a plain host and a port with a colon is undone by the split. */
  lemma SplitHostPortInvertsJoin(host: string, port: string)
    requires PlainText(host) && PlainText(port)
    ensures SplitHostPort(host + ":" + port) == Some(HostPort(host, port))
  {
    var s := host + ":" + port;
    LastIndexOfAfter(host, port, ':');
    assert s == host + [':'] + port && s[..|host|] == host && s[|host| + 1..] == port;
    IndexOfNone(host, ':');
    IndexOfNone(s, '[');
    IndexOfNone(s, ']');
    assert s[0] in s;
  }

  lemma {:induction false} LastIndexOfNone(s: string, c: char)
    requires c !in s
    ensures LastIndexOf(s, c) == -1
  {
    if s != "" { LastIndexOfNone(s[..|s| - 1], c); }
  }

  // ---- Entries ----

  function StripBrackets(s: string): string {
    if s != "" && (s[0] == '[' || s[0] == ']') then StripBrackets(s[1..])
    else if s != "" && (s[|s| - 1] == '[' || s[|s| - 1] == ']') then StripBrackets(s[..|s| - 1])
    else s
  }

  // One spelling for every way a host can be written.
  function NormalizeHost(h: string): string {
    var s := StripBrackets(Text.TrimSpace(h));
    Text.ToLower(if s != "" && s[|s| - 1] == '.' then s[..|s| - 1] else s)
  }

  // Port 0 is any port on the host.
  datatype Entry = Entry(host: string, port: nat) {
    predicate Permits(h: string, p: int) { host == NormalizeHost(h) && (port == 0 || port == p) }
  }

  datatype EntryError = EmptyTarget | NeedsBrackets | BadPort | NoHost

  function ParseEntry(text: string): Result<Entry, EntryError> {
    var spec := Text.TrimSpace(text);
    if spec == "" then Err(EmptyTarget)
    else match SplitHostPort(spec)
      case None =>
        if ':' in spec && spec[0] != '[' then Err(NeedsBrackets) else Ok(Entry(NormalizeHost(spec), 0))
      case Some(hp) =>
        var port := Text.Atoi(hp.port);
        if port == None || port.value < 1 || port.value > 65535 then Err(BadPort)
        else if hp.host == "" then Err(NoHost)
        else Ok(Entry(NormalizeHost(hp.host), port.value))
  }

  type List = seq<Entry>

  function Parse(specs: seq<string>): Result<List, EntryError> {
    if specs == [] then Ok([])
    else match ParseEntry(specs[0])
      case Err(e) => Err(e)
      case Ok(entry) => After([entry], Parse(specs[1..]))
  }

  function After(l: List, r: Result<List, EntryError>): Result<List, EntryError> {
    match r
    case Err(e) => Err(e)
    case Ok(rest) => Ok(l + rest)
  }

  lemma AfterAfter(a: List, b: List, r: Result<List, EntryError>)
    ensures After(a, After(b, r)) == After(a + b, r)
  {
    if r.Ok? { assert a + (b + r.value) == a + b + r.value; }
  }

  predicate Permits(l: List, host: string, port: int) {
    l == [] || exists i :: 0 <= i < |l| && l[i].Permits(host, port)
  }

  predicate PermitsTarget(l: List, target: string) {
    l == [] ||
    match SplitHostPort(target)
    case None => Permits(l, target, 0)
    case Some(hp) => Text.Atoi(hp.port).Some? && Permits(l, hp.host, Text.Atoi(hp.port).value)
  }

  lemma ParseSingle(spec: string)
    ensures Parse([spec]) == match ParseEntry(spec) case Err(e) => Err(e) case Ok(entry) => Ok([entry])
  {
    assert [spec][1..] == [];
    if ParseEntry(spec).Ok? { assert [ParseEntry(spec).value] + [] == [ParseEntry(spec).value]; }
  }

  method ParseList(specs: seq<string>) returns (r: Result<List, EntryError>)
    ensures r == Parse(specs)
  {
    var l: List := [];
    assert specs[0..] == specs;
    if Parse(specs).Ok? { assert [] + Parse(specs).value == Parse(specs).value; }
    for i := 0 to |specs|
      invariant Parse(specs) == After(l, Parse(specs[i..]))
    {
      assert specs[i..][0] == specs[i] && specs[i..][1..] == specs[i + 1..];
      var e := ParseEntry(specs[i]);
      if e.Err? { return Err(e.error); }
      AfterAfter(l, [e.value], Parse(specs[i + 1..]));
      l := l + [e.value];
    }
    assert l + [] == l;
    return Ok(l);
  }

  method FindPermitting(l: List, host: string, port: int) returns (ok: bool)
    ensures ok == Permits(l, host, port)
  {
    if |l| == 0 { return true; }
    var h := NormalizeHost(host);
    for i := 0 to |l|
      invariant forall j :: 0 <= j < i ==> !l[j].Permits(host, port)
    {
      var e := l[i];
      if e.host != h { continue; }
      if e.port == 0 || e.port == port { return true; }
    }
    return false;
  }

  // ---- What a target reaches ----

  lemma {:induction false} ParsedEntries(specs: seq<string>)
    requires Parse(specs).Ok?
    ensures var l := Parse(specs).value;
      |l| == |specs| && forall i :: 0 <= i < |l| ==> ParseEntry(specs[i]) == Ok(l[i])
  {
    if specs != [] {
      ParsedEntries(specs[1..]);
    }
  }

  // The host as the target names it, and the port, 0 for none.
  lemma EntryNames(t: string) returns (host: string, port: int)
    requires Text.Trimmed(t) && ParseEntry(t).Ok?
    ensures var e := ParseEntry(t).value; e.host == NormalizeHost(host) && e.port == port
    ensures forall l: List :: l != [] ==> (PermitsTarget(l, t) <==> Permits(l, host, port))
  {
    Text.TrimSpaceTrims(t);
    match SplitHostPort(t)
    case None => host, port := t, 0;
    case Some(hp) => host, port := hp.host, Text.Atoi(hp.port).value;
  }

  ghost predicate EntryWithin(e: Entry, l: List) {
    forall h, p :: e.Permits(h, p) ==> Permits(l, h, p)
  }

  /** A list permits a target exactly when it permits every host and port the target,
      read as an entry, permits. */
  lemma PermitsTargetIffWithin(l: List, t: string)
    requires l != [] && Text.Trimmed(t) && ParseEntry(t).Ok?
    ensures PermitsTarget(l, t) <==> EntryWithin(ParseEntry(t).value, l)
  {
    var e := ParseEntry(t).value;
    var host, port := EntryNames(t);
    assert e.Permits(host, port);
    if Permits(l, host, port) {
      var i :| 0 <= i < |l| && l[i].Permits(host, port);
      forall h, p | e.Permits(h, p) ensures Permits(l, h, p) {
        assert l[i].Permits(h, p);
      }
    }
  }

  lemma OwnTargetPermitted(specs: seq<string>, i: nat)
    requires Parse(specs).Ok? && i < |specs| && Text.Trimmed(specs[i])
    ensures PermitsTarget(Parse(specs).value, specs[i])
  {
    ParsedEntries(specs);
    var l := Parse(specs).value;
    forall h, p | l[i].Permits(h, p) ensures Permits(l, h, p) {}
    PermitsTargetIffWithin(l, specs[i]);
  }

  // ---- Hosts no list names ----

  function LetterA(n: nat): (s: string)
    ensures |s| == n && forall i :: 0 <= i < n ==> s[i] == 'a'
  {
    seq(n, i => 'a')
  }

  function LongestHost(l: List): (n: nat)
    ensures forall i :: 0 <= i < |l| ==> |l[i].host| <= n
  {
    if l == [] then 0
    else
      var n := LongestHost(l[1..]);
      assert forall i :: 0 < i < |l| ==> l[i] == l[1..][i - 1];
      if |l[0].host| > n then |l[0].host| else n
  }

  /** A list that restricts anything leaves some host out altogether. */
  lemma SomeHostUnreached(l: List) returns (h: string)
    requires l != []
    ensures forall p :: !Permits(l, h, p)
  {
    h := LetterA(LongestHost(l) + 1);
    Text.TrimSpaceTrims(h);
    assert |NormalizeHost(h)| == |h|;
  }
}

/**
 What a list permits, in terms of the entries as they are written: hosts, and
 ports in digits.
 */
module AllowlistReach {
  import opened Wrappers
  import opened Allowlist
  import Text

  // ---- Hosts ----

  // One final dot is left off.
  function Undotted(h: string): string { if h != "" && h[|h| - 1] == '.' then h[..|h| - 1] else h }

  // The same letter, or a capital and its small letter.
  predicate SameLetter(a: char, b: char) {
    a == b || ('A' <= a <= 'Z' && b as int == a as int + 32) || ('A' <= b <= 'Z' && a as int == b as int + 32)
  }

  predicate SameText(a: string, b: string) {
    |a| == |b| && forall i :: 0 <= i < |a| ==> SameLetter(a[i], b[i])
  }

  // Two spellings of one host.
  predicate SameHost(a: string, b: string) { SameText(Undotted(a), Undotted(b)) }

  // A host as it is named: trimmed, and without the brackets an address is written in.
  predicate HostName(h: string) { h != "" && Text.Trimmed(h) && '[' !in h && ']' !in h }

  lemma LowerAlike(a: string, b: string)
    ensures Text.ToLower(a) == Text.ToLower(b) <==> SameText(a, b)
  {
    var x, y := Text.ToLower(a), Text.ToLower(b);
    if x == y {
      forall i | 0 <= i < |a| ensures SameLetter(a[i], b[i]) { assert x[i] == y[i]; }
    }
    assert SameText(a, b) ==> forall i :: 0 <= i < |x| ==> SameLetter(a[i], b[i]);
    assert SameText(a, b) ==> forall i :: 0 <= i < |x| ==> x[i] == y[i];
  }

  lemma NothingStripped(s: string)
    requires '[' !in s && ']' !in s
    ensures StripBrackets(s) == s
  {
    if s != "" { assert s[0] in s && s[|s| - 1] in s; }
  }

  lemma NameNormalized(h: string)
    requires HostName(h)
    ensures NormalizeHost(h) == Text.ToLower(Undotted(h))
  {
    Text.TrimSpaceTrims(h);
    NothingStripped(h);
  }

  lemma BracketsStripped(h: string)
    requires HostName(h)
    ensures NormalizeHost("[" + h + "]") == NormalizeHost(h)
  {
    var s := "[" + h + "]";
    Text.TrimSpaceTrims(s);
    Text.TrimSpaceTrims(h);
    assert s[1..] == h + "]" && (h + "]")[..|h|] == h && h[0] in h;
    assert StripBrackets(s) == StripBrackets(h + "]") == StripBrackets(h);
    NothingStripped(h);
  }

  /** Two names are one host to a list exactly when they differ in case and a final dot at most. */
  lemma HostsAlike(a: string, b: string)
    requires HostName(a) && HostName(b)
    ensures NormalizeHost(a) == NormalizeHost(b) <==> SameHost(a, b)
  {
    NameNormalized(a);
    NameNormalized(b);
    LowerAlike(Undotted(a), Undotted(b));
  }

  // ---- Ports ----

  // Digits, for a number that fits 64 bits.
  predicate Numeral(s: string, n: nat) {
    s != "" && (forall i :: 0 <= i < |s| ==> Text.IsDigit(s[i])) && Text.DecimalValue(s) == n < 0x8000_0000_0000_0000
  }

  lemma NumeralRead(s: string, n: nat)
    requires Numeral(s, n)
    ensures Text.Atoi(s) == Some(n) && PlainText(s) && !Text.IsSpace(s[|s| - 1])
  {
    assert Text.IsDigit(s[0]) && Text.IsDigit(s[|s| - 1]);
    forall c | c in s ensures Text.IsDigit(c) {}
  }

  // ---- Targets as they are written ----

  // The port in digits, "" for none.
  datatype Target = Target(host: string, digits: string, port: nat)

  predicate Names(t: Target) { HostName(t.host) && (if t.digits == "" then t.port == 0 else Numeral(t.digits, t.port)) }

  // As an entry of a list: with a port it could be dialled at.
  predicate Lists(t: Target) { Names(t) && (t.digits != "" ==> 1 <= t.port <= 65535) }

  // An address with colons is bracketed.
  function Shown(host: string): string { if ':' in host then "[" + host + "]" else host }

  function Written(t: Target): string { Shown(t.host) + if t.digits == "" then "" else ":" + t.digits }

  lemma {:induction false} IndexOfFirst(a: string, b: string, c: char)
    requires c !in a
    ensures IndexOf(a + [c] + b, c) == |a|
    decreases |a|
  {
    if a == "" {
      assert a + [c] + b == [c] + b;
    } else {
      assert (a + [c] + b)[1..] == a[1..] + [c] + b;
      IndexOfFirst(a[1..], b, c);
    }
  }

  // A bracketed host with its port, taken apart around the colon and around the bracket.
  lemma BracketParts(h: string, digits: string)
    ensures var s := "[" + h + "]:" + digits;
      && s == ("[" + h + "]") + [':'] + digits && s == ("[" + h) + [']'] + (":" + digits)
      && s[1..] == h + "]:" + digits && s[1..|h| + 1] == h
      && s[|h| + 2..] == ":" + digits && s[|h| + 3..] == digits
  {
  }

  lemma BracketedSplit(h: string, digits: string)
    requires '[' !in h && ']' !in h && PlainText(digits)
    ensures SplitHostPort("[" + h + "]:" + digits) == Some(HostPort(h, digits))
  {
    var s := "[" + h + "]:" + digits;
    BracketParts(h, digits);
    LastIndexOfAfter("[" + h + "]", digits, ':');
    IndexOfFirst("[" + h, ":" + digits, ']');
    NoOpenBracket(h, digits);
    IndexOfNone(":" + digits, ']');
    assert s[0] == '[';
  }

  lemma NoOpenBracket(h: string, digits: string)
    requires '[' !in h && '[' !in digits
    ensures IndexOf(h + "]:" + digits, '[') == -1
  {
    IndexOfNone(h + "]:" + digits, '[');
  }

  lemma BracketedAlone(h: string)
    requires HostName(h) && ':' in h
    ensures SplitHostPort("[" + h + "]") == None
  {
    var s := "[" + h + "]";
    assert s == ("[" + h) + [']'] + "";
    IndexOfFirst("[" + h, "", ']');
  }

  lemma BracketedJoin(host: string, digits: string)
    ensures ("[" + host + "]") + ":" + digits == "[" + host + "]:" + digits
    ensures "" + ":" + digits == ":" + digits
  {
  }

  lemma ShownSplit(host: string, digits: string)
    requires HostName(host) && PlainText(digits)
    ensures SplitHostPort(Shown(host) + ":" + digits) == Some(HostPort(host, digits))
  {
    if ':' in host {
      BracketedSplit(host, digits);
      BracketedJoin(host, digits);
    } else {
      SplitHostPortInvertsJoin(host, digits);
    }
  }

  lemma Reassociate(a: string, b: string, c: string)
    ensures a + (b + c) == a + b + c
  {
  }

  lemma WithPort(t: Target)
    requires Names(t) && t.digits != ""
    ensures SplitHostPort(Written(t)) == Some(HostPort(t.host, t.digits)) && Text.Atoi(t.digits) == Some(t.port)
    ensures Written(t) != "" && Text.Trimmed(Written(t))
  {
    NumeralRead(t.digits, t.port);
    ShownSplit(t.host, t.digits);
    EndsTrimmed(Shown(t.host), t.digits);
    Reassociate(Shown(t.host), ":", t.digits);
  }

  lemma EndsTrimmed(host: string, digits: string)
    requires host != "" && !Text.IsSpace(host[0]) && digits != "" && !Text.IsSpace(digits[|digits| - 1])
    ensures Text.Trimmed(host + ":" + digits)
  {
    var w := host + ":" + digits;
    assert w[0] == host[0] && w[|w| - 1] == digits[|digits| - 1];
  }

  lemma WithoutPort(t: Target)
    requires Names(t) && t.digits == ""
    ensures SplitHostPort(Written(t)) == None && NormalizeHost(Written(t)) == NormalizeHost(t.host)
    ensures Written(t) != "" && Text.Trimmed(Written(t)) && (':' in Written(t) ==> Written(t)[0] == '[')
  {
    assert Written(t) == Shown(t.host);
    if ':' in t.host {
      BracketedAlone(t.host);
      BracketsStripped(t.host);
    } else {
      LastIndexOfNone(t.host, ':');
    }
  }

  /** An entry is read as its host and port, and only if a port it names is from 1 to 65535. */
  lemma EntryRead(t: Target)
    requires Names(t)
    ensures ParseEntry(Written(t)) == if Lists(t) then Ok(Entry(NormalizeHost(t.host), t.port)) else Err(BadPort)
  {
    if t.digits == "" { WithoutPort(t); } else { WithPort(t); }
    Text.TrimSpaceTrims(Written(t));
  }

  function AllWritten(ts: seq<Target>): seq<string> {
    if ts == [] then [] else [Written(ts[0])] + AllWritten(ts[1..])
  }

  function Entries(ts: seq<Target>): List {
    if ts == [] then [] else [Entry(NormalizeHost(ts[0].host), ts[0].port)] + Entries(ts[1..])
  }

  lemma ParseFirst(spec: string, rest: seq<string>)
    ensures Parse([spec] + rest) == if ParseEntry(spec).Err? then Err(ParseEntry(spec).error)
                                    else After([ParseEntry(spec).value], Parse(rest))
  {
    assert ([spec] + rest)[1..] == rest;
  }

  lemma {:induction false} EntriesAt(ts: seq<Target>)
    ensures |Entries(ts)| == |ts|
    ensures forall i :: 0 <= i < |ts| ==> Entries(ts)[i] == Entry(NormalizeHost(ts[i].host), ts[i].port)
  {
    if ts != [] { EntriesAt(ts[1..]); }
  }

  lemma {:induction false} ListRead(ts: seq<Target>)
    requires forall i :: 0 <= i < |ts| ==> Lists(ts[i])
    ensures Parse(AllWritten(ts)) == Ok(Entries(ts))
  {
    if ts != [] {
      EntryRead(ts[0]);
      ParseFirst(Written(ts[0]), AllWritten(ts[1..]));
      ListRead(ts[1..]);
    }
  }

  // The entry admits the target: the same host, and no port or the same one.
  predicate Admits(entry: Target, t: Target) {
    SameHost(entry.host, t.host) && (entry.digits == "" || (t.digits != "" && entry.port == t.port))
  }

  lemma PermitsEntry(l: List, ts: seq<Target>, t: Target)
    requires Names(t) && |l| == |ts| && (forall i :: 0 <= i < |ts| ==> Lists(ts[i]))
    requires forall i :: 0 <= i < |ts| ==> l[i] == Entry(NormalizeHost(ts[i].host), ts[i].port)
    ensures Permits(l, t.host, t.port) <==> ts == [] || exists i :: 0 <= i < |ts| && Admits(ts[i], t)
  {
    forall i | 0 <= i < |ts| ensures l[i].Permits(t.host, t.port) <==> Admits(ts[i], t) {
      HostsAlike(ts[i].host, t.host);
    }
  }

  /** A list permits a target exactly when it is empty, or one of its entries names the same host
      and either names no port or names the target's. */
  lemma PermittedIff(ts: seq<Target>, t: Target)
    requires Names(t) && forall i :: 0 <= i < |ts| ==> Lists(ts[i])
    ensures Parse(AllWritten(ts)).Ok?
    ensures PermitsTarget(Parse(AllWritten(ts)).value, Written(t)) <==>
              ts == [] || exists i :: 0 <= i < |ts| && Admits(ts[i], t)
  {
    ListRead(ts);
    EntriesAt(ts);
    PermitsEntry(Entries(ts), ts, t);
    if t.digits == "" {
      WithoutPort(t);
      SameSpelling(Entries(ts), Written(t), t.host);
    } else {
      WithPort(t);
    }
  }

  lemma SameSpelling(l: List, a: string, b: string)
    requires NormalizeHost(a) == NormalizeHost(b)
    ensures forall p :: Permits(l, a, p) <==> Permits(l, b, p)
  {
    forall p, i | 0 <= i < |l| ensures l[i].Permits(a, p) <==> l[i].Permits(b, p) {}
  }

  // ---- Ports no list names ----

  function Ports(l: List): set<int> { set i | 0 <= i < |l| :: l[i].port }

  lemma {:induction false} FewPorts(l: List)
    ensures |Ports(l)| <= |l|
  {
    if l != [] {
      var last := |l| - 1;
      FewPorts(l[..last]);
      assert Ports(l) == Ports(l[..last]) + {l[last].port};
    }
  }

  function UpTo(n: nat): (r: set<int>)
    ensures forall p :: p in r <==> 1 <= p <= n
    ensures |r| == n
  {
    if n == 0 then {} else UpTo(n - 1) + {n}
  }

  lemma SmallerSet(a: set<int>, b: set<int>)
    requires a <= b
    ensures |a| <= |b|
  {
    assert b == a + (b - a);
  }

  /** A list whose entries all name a port leaves out, on every host, some port it could be dialled
      at, and whatever names none. */
  lemma SomePortUnreached(l: List) returns (p: int)
    requires 0 < |l| < 65535 && forall i :: 0 <= i < |l| ==> l[i].port != 0
    ensures 1 <= p <= 65535 && forall h :: !Permits(l, h, p) && !Permits(l, h, 0)
  {
    FewPorts(l);
    if UpTo(65535) <= Ports(l) { SmallerSet(UpTo(65535), Ports(l)); }
    p :| p in UpTo(65535) && p !in Ports(l);
    forall i | 0 <= i < |l| ensures l[i].port != p { assert l[i].port in Ports(l); }
  }

  // ---- Entries that are refused ----

  lemma NotANumber(port: string)
    requires port != "" && !Text.IsDigit(port[|port| - 1])
    ensures Text.Atoi(port) == None
  {
    var digits := Text.Unsigned(port);
    if digits != "" {
      var last := |digits| - 1;
      assert digits[last] == port[|port| - 1];
    }
  }

  /** White space around an entry, or a host, is no part of it; and there must be something else. */
  lemma TrimmedFirst(text: string)
    ensures ParseEntry(text) == ParseEntry(Text.TrimSpace(text))
    ensures NormalizeHost(text) == NormalizeHost(Text.TrimSpace(text))
    ensures Text.AllSpace(text) ==> ParseEntry(text) == Err(EmptyTarget)
  {
    Text.TrimSpaceTrims(text);
    Text.TrimSpaceTrims(Text.TrimSpace(text));
    Text.BlankIff(text);
  }

  /** A target whose port is no number is permitted by no list that restricts anything. */
  lemma UnreadTargetRefused(l: List, host: string, port: string)
    requires l != [] && HostName(host) && PlainText(port) && port != "" && !Text.IsDigit(port[|port| - 1])
    ensures !PermitsTarget(l, Shown(host) + ":" + port)
  {
    ShownSplit(host, port);
    NotANumber(port);
  }

  /** And an empty list permits any target, read or not. */
  lemma EmptyPermitsAll(target: string, host: string, port: int)
    ensures PermitsTarget([], target) && Permits([], host, port)
  {
  }

  /** Brackets stand around the host and nowhere else. */
  lemma StrayBracketsRefused(a: string, b: string, port: string)
    requires PlainText(a) && PlainText(b) && PlainText(port)
    ensures SplitHostPort("[" + (a + "[" + b) + "]:" + port) == None
    ensures SplitHostPort("[" + a + "]:" + (port + "]" + b)) == None
  {
    StrayOpening(a, b, port);
    StrayClosing(a, b, port);
  }

  lemma StrayOpening(a: string, b: string, port: string)
    requires PlainText(a) && PlainText(b) && PlainText(port)
    ensures SplitHostPort("[" + (a + "[" + b) + "]:" + port) == None
  {
    var h := a + "[" + b;
    var s := "[" + h + "]:" + port;
    BracketParts(h, port);
    LastIndexOfAfter("[" + h + "]", port, ':');
    IndexOfFirst("[" + h, ":" + port, ']');
    IndexOfNone(s[1..], '[');
    assert s[1..][|a|] == '[';
  }

  lemma StrayClosing(a: string, b: string, port: string)
    requires PlainText(a) && PlainText(b) && PlainText(port)
    ensures SplitHostPort("[" + a + "]:" + (port + "]" + b)) == None
  {
    var digits := port + "]" + b;
    var s := "[" + a + "]:" + digits;
    BracketParts(a, digits);
    LastIndexOfAfter("[" + a + "]", digits, ':');
    IndexOfFirst("[" + a, ":" + digits, ']');
    IndexOfNone(s[|a| + 2..], ']');
    assert (":" + digits)[|port| + 1] == ']';
  }

  /** A port that is no number fails its entry, and so does a port with no host. */
  lemma BadPortRefused(host: string, port: string)
    requires HostName(host) && PlainText(port) && port != "" && !Text.IsSpace(port[|port| - 1])
    ensures !Text.IsDigit(port[|port| - 1]) ==> ParseEntry(Shown(host) + ":" + port) == Err(BadPort)
    ensures forall n :: Numeral(port, n) && 1 <= n <= 65535 ==> ParseEntry(":" + port) == Err(NoHost)
  {
    ShownSplit(host, port);
    EndsTrimmed(Shown(host), port);
    Text.TrimSpaceTrims(Shown(host) + ":" + port);
    if !Text.IsDigit(port[|port| - 1]) { NotANumber(port); }
    forall n | Numeral(port, n) && 1 <= n <= 65535 ensures ParseEntry(":" + port) == Err(NoHost) {
      NoHostRefused(port, n);
    }
  }

  lemma ColonFirst(port: string)
    requires port != "" && !Text.IsSpace(port[|port| - 1])
    ensures Text.Trimmed(":" + port)
  {
    assert (":" + port)[0] == ':' && (":" + port)[|port|] == port[|port| - 1];
  }

  lemma NoHostRefused(port: string, n: nat)
    requires Numeral(port, n) && 1 <= n <= 65535
    ensures ParseEntry(":" + port) == Err(NoHost)
  {
    var s := ":" + port;
    NumeralRead(port, n);
    ColonFirst(port);
    Text.TrimSpaceTrims(s);
    SplitHostPortInvertsJoin("", port);
    BracketedJoin("", port);
  }

  /** An address without brackets is not an entry. */
  lemma NeedsBracketsRefused(a: string, b: string, c: string)
    requires HostName(a) && PlainText(c) && c != "" && !Text.IsSpace(c[|c| - 1])
    ensures ParseEntry(a + ":" + b + ":" + c) == Err(NeedsBrackets)
  {
    var front := a + ":" + b;
    var s := front + ":" + c;
    EndsTrimmed(front, c);
    Text.TrimSpaceTrims(s);
    LastIndexOfAfter(front, c, ':');
    assert s == front + [':'] + c && s[..|front|] == front && s[|a|] == ':' && s[0] == a[0];
    IndexOfNone(front, ':');
    assert front[|a|] == ':' && a[0] in a;
  }

  lemma FirstAndRest(a: seq<string>, tail: seq<string>)
    requires a != []
    ensures a == [a[0]] + a[1..] && a + tail == [a[0]] + (a[1..] + tail)
  {
  }

  lemma {:induction false} FailsFromThere(a: seq<string>, tail: seq<string>)
    requires Parse(a).Ok? && Parse(tail).Err?
    ensures Parse(a + tail) == Parse(tail)
  {
    if a == [] {
      assert a + tail == tail;
    } else {
      FirstAndRest(a, tail);
      ParseFirst(a[0], a[1..]);
      FailsFromThere(a[1..], tail);
      ParseFirst(a[0], a[1..] + tail);
    }
  }

  /** The first bad entry fails its whole list. */
  lemma OneBadEntry(a: seq<string>, bad: string, b: seq<string>)
    requires ParseEntry(bad).Err? && Parse(a).Ok?
    ensures Parse(a + ([bad] + b)) == Err(ParseEntry(bad).error)
  {
    ParseFirst(bad, b);
    FailsFromThere(a, [bad] + b);
  }
}

/**
 Narrowing: what the holder of a link reaches on a listener. The listener's
 grant is the ceiling. The working directory, when it can be read, resolves
 relative paths.
 */
module GrantNarrow {
  import opened Wrappers
  import opened GrantFields
  import opened GrantSpec
  import opened GrantAlike
  import opened Allowlist
  import Text

  // ---- Paths ----

  type Path = seq<string>

  // filepath.Clean on the rooted path `base` followed by `parts`.
  function CleanFrom(base: Path, parts: seq<string>): Path
    decreases |parts|
  {
    if parts == [] then base
    else
      var next := if parts[0] == "" || parts[0] == "." then base
                  else if parts[0] == ".." then (if base == [] then [] else base[..|base| - 1])
                  else base + [parts[0]];
      CleanFrom(next, parts[1..])
  }

  // filepath.Abs: the components of the path once absolute and cleaned.
  function Abs(cwd: Option<Path>, path: string): Option<Path> {
    if path != "" && path[0] == '/' then Some(CleanFrom([], Text.SplitOn(path, '/')))
    else if cwd == None then None
    else Some(CleanFrom(cwd.value, Text.SplitOn(path, '/')))
  }

  /** A component that is empty or a dot adds nothing, two dots take the last away, any other is added. */
  lemma CleanOne(base: Path, part: string)
    ensures CleanFrom(base, [part]) ==
              if part in ["", "."] then base
              else if part == ".." then base[..if base == [] then 0 else |base| - 1]
              else base + [part]
  {
    assert [part][1..] == [];
  }

  /** And cleaning takes the components one by one. */
  lemma {:induction false} CleanParts(base: Path, a: seq<string>, b: seq<string>)
    ensures CleanFrom(base, a + b) == CleanFrom(CleanFrom(base, a), b)
    decreases |a|
  {
    if a == [] {
      assert a + b == b;
    } else {
      assert (a + b)[0] == a[0] && (a + b)[1..] == a[1..] + b;
      CleanOne(base, a[0]);
      CleanParts(CleanFrom(base, [a[0]]), a[1..], b);
    }
  }

  lemma {:induction false} CleanPlain(base: Path, parts: seq<string>)
    requires Cleaned(parts)
    ensures CleanFrom(base, parts) == base + parts
    decreases |parts|
  {
    if parts == [] {
      assert base + parts == base;
    } else {
      CleanPlain(base + [parts[0]], parts[1..]);
      assert base + [parts[0]] + parts[1..] == base + parts;
    }
  }

  /** A path of plain components is itself once rooted, and lies under the working directory when it is not. */
  lemma AbsPlain(cwd: Path, parts: seq<string>)
    requires Cleaned(parts) && parts != []
    ensures Abs(Some(cwd), Text.Join(parts, "/")) == Some(cwd + parts)
    ensures Abs(None, Text.Join(parts, "/")) == None
    ensures Abs(None, Text.Join([""] + parts, "/")) == Abs(Some(cwd), Text.Join([""] + parts, "/")) == Some(parts)
  {
    var relative, rooted := Text.Join(parts, "/"), Text.Join([""] + parts, "/");
    Text.SplitOnInvertsJoin(parts, '/');
    Text.SplitOnInvertsJoin([""] + parts, '/');
    assert ([""] + parts)[1..] == parts && rooted == "" + "/" + relative;
    assert rooted[0] == '/';
    JoinStarts(parts);
    CleanPlain(cwd, parts);
    CleanPlain([], parts);
    assert CleanFrom([], [""] + parts) == CleanFrom([], parts) == [] + parts == parts;
  }

  lemma JoinStarts(parts: seq<string>)
    requires parts != [] && parts[0] != ""
    ensures var joined := Text.Join(parts, "/"); joined != "" && joined[0] == parts[0][0]
  {
  }

  predicate Cleaned(p: Path) {
    forall i :: 0 <= i < |p| ==> p[i] != "" && p[i] != "." && p[i] != ".." && '/' !in p[i]
  }

  lemma {:induction false} CleanFromCleans(base: Path, parts: seq<string>)
    requires Cleaned(base) && forall i :: 0 <= i < |parts| ==> '/' !in parts[i]
    ensures Cleaned(CleanFrom(base, parts))
    decreases |parts|
  {
    if parts != [] {
      var next := if parts[0] == "" || parts[0] == "." then base
                  else if parts[0] == ".." then (if base == [] then [] else base[..|base| - 1])
                  else base + [parts[0]];
      CleanFromCleans(next, parts[1..]);
    }
  }

  lemma AbsCleans(cwd: Option<Path>, path: string)
    requires cwd.Some? ==> Cleaned(cwd.value)
    ensures Abs(cwd, path).Some? ==> Cleaned(Abs(cwd, path).value)
  {
    var parts := Text.SplitOn(path, '/');
    forall i | 0 <= i < |parts| ensures '/' !in parts[i] { Text.SplitOnParts(path, '/', i); }
    CleanFromCleans([], parts);
    if cwd.Some? { CleanFromCleans(cwd.value, parts); }
  }

  function CommonPrefix(a: Path, b: Path): (n: nat)
    ensures n <= |a| && n <= |b| && a[..n] == b[..n]
    ensures n < |a| && n < |b| ==> a[n] != b[n]
  {
    if a == [] || b == [] || a[0] != b[0] then 0
    else
      var n := CommonPrefix(a[1..], b[1..]);
      assert a[..n + 1] == [a[0]] + a[1..][..n] && b[..n + 1] == [b[0]] + b[1..][..n];
      n + 1
  }

  function Ups(n: nat): Path { if n == 0 then [] else [".."] + Ups(n - 1) }

  // filepath.Rel on cleaned absolute paths; [] is ".".
  function Rel(base: Path, target: Path): Path {
    var n := CommonPrefix(base, target);
    Ups(|base| - n) + target[n..]
  }

  predicate IsWithin(parent: Path, child: Path) {
    var rel := Rel(parent, child);
    rel == [] || rel[0] != ".."
  }

  /** A path is within another exactly when the other's components begin it. */
  lemma WithinIffPrefix(parent: Path, child: Path)
    requires Cleaned(child)
    ensures IsWithin(parent, child) <==> parent <= child
  {
    var n := CommonPrefix(parent, child);
    if n == |parent| {
      assert parent == parent[..n] && child == child[..n] + child[n..];
      assert Ups(0) + child[n..] == child[n..];
      if n < |child| { assert child[n..][0] == child[n]; }
    } else {
      assert Rel(parent, child)[0] == "..";
      if n < |child| { assert parent[n] != child[n]; }
    }
  }

  // ---- Narrow ----

  datatype NarrowError =
    | NotServed(scope: Scope)
    | OtherCommand
    | NoWorkingDirectory
    | OutsidePath
    | BadOffer(error: EntryError)
    | OutsideTarget(target: string)

  function CapsOf(s: Spec): set<Scope> { if s.caps == None then {} else s.caps.value }

  function NarrowCaps(order: seq<Scope>, offered: set<Scope>, asked: set<Scope>): Result<set<Scope>, NarrowError> {
    if order == [] then Ok({})
    else if order[0] !in asked then NarrowCaps(order[1..], offered, asked)
    else if order[0] !in offered then Err(NotServed(order[0]))
    else AddScopes({order[0]}, NarrowCaps(order[1..], offered, asked))
  }

  function AddScopes(caps: set<Scope>, r: Result<set<Scope>, NarrowError>): Result<set<Scope>, NarrowError> {
    match r
    case Err(e) => Err(e)
    case Ok(rest) => Ok(caps + rest)
  }

  lemma AddScopesTwice(a: set<Scope>, b: set<Scope>, r: Result<set<Scope>, NarrowError>)
    ensures AddScopes(a, AddScopes(b, r)) == AddScopes(a + b, r)
    ensures AddScopes({}, r) == r
  {
    if r.Ok? { assert a + (b + r.value) == a + b + r.value && {} + r.value == r.value; }
  }

  function NarrowCommand(offered: seq<string>, asked: seq<string>): Result<seq<string>, NarrowError> {
    if asked == [] then Ok(offered)
    else if offered == [] then Ok(asked)
    else if Text.Join(asked, " ") != Text.Join(offered, " ") then Err(OtherCommand)
    else Ok(offered)
  }

  function NarrowPath(cwd: Option<Path>, offered: string, asked: string): Result<string, NarrowError> {
    if asked == "" then Ok(offered)
    else if offered == "" then Ok(asked)
    else
      var p, c := Abs(cwd, offered), Abs(cwd, asked);
      if p == None || c == None then Err(NoWorkingDirectory)
      else if !IsWithin(p.value, c.value) then Err(OutsidePath)
      else Ok(asked)
  }

  function FirstOutside(l: List, asked: seq<string>): Option<string> {
    if asked == [] then None
    else if !PermitsTarget(l, asked[0]) then Some(asked[0])
    else FirstOutside(l, asked[1..])
  }

  function NarrowTargets(offered: seq<string>, asked: seq<string>): Result<seq<string>, NarrowError> {
    if asked == [] then Ok(offered)
    else if offered == [] then Ok(asked)
    else match Allowlist.Parse(offered)
      case Err(e) => Err(BadOffer(e))
      case Ok(l) =>
        match FirstOutside(l, asked)
        case Some(t) => Err(OutsideTarget(t))
        case None => Ok(asked)
  }

  function Narrow(cwd: Option<Path>, offered: Spec, link: Spec): Result<Spec, NarrowError> {
    match NarrowCaps(ORDER, CapsOf(offered), CapsOf(if link.caps == None then offered else link))
    case Err(e) => Err(e)
    case Ok(caps) =>
      match NarrowCommand(offered.shellArgv, link.shellArgv)
      case Err(e) => Err(e)
      case Ok(argv) =>
        match NarrowPath(cwd, offered.filesPath, link.filesPath)
        case Err(e) => Err(e)
        case Ok(path) =>
          match NarrowTargets(offered.proxyTargets, link.proxyTargets)
          case Err(e) => Err(e)
          case Ok(proxy) =>
            match NarrowTargets(offered.forwardTargets, link.forwardTargets)
            case Err(e) => Err(e)
            case Ok(forward) => Ok(Spec(Some(caps), argv, path, proxy, forward))
  }

  function Intersect(link: Spec, offered: Spec): Spec {
    if link.caps == None then link else link.(caps := Some(link.caps.value * CapsOf(offered)))
  }

  // ---- The loops ----

  method NarrowScopes(offered: set<Scope>, asked: set<Scope>) returns (r: Result<set<Scope>, NarrowError>)
    ensures r == NarrowCaps(ORDER, offered, asked)
  {
    var caps: set<Scope> := {};
    AddScopesTwice({}, {}, NarrowCaps(ORDER, offered, asked));
    for i := 0 to |ORDER|
      invariant NarrowCaps(ORDER, offered, asked) == AddScopes(caps, NarrowCaps(ORDER[i..], offered, asked))
    {
      var scope := ORDER[i];
      assert ORDER[i..][0] == scope && ORDER[i..][1..] == ORDER[i + 1..];
      if scope !in asked { continue; }
      if scope !in offered { return Err(NotServed(scope)); }
      AddScopesTwice(caps, {scope}, NarrowCaps(ORDER[i + 1..], offered, asked));
      caps := caps + {scope};
    }
    assert ORDER[|ORDER|..] == [] && caps + {} == caps;
    return Ok(caps);
  }

  method NarrowList(offered: seq<string>, asked: seq<string>) returns (r: Result<seq<string>, NarrowError>)
    ensures r == NarrowTargets(offered, asked)
  {
    if |asked| == 0 { return Ok(offered); }
    if |offered| == 0 { return Ok(asked); }
    var allowed := ParseList(offered);
    if allowed.Err? { return Err(BadOffer(allowed.error)); }
    for i := 0 to |asked|
      invariant FirstOutside(allowed.value, asked[i..]) == FirstOutside(allowed.value, asked)
    {
      assert asked[i..][0] == asked[i] && asked[i..][1..] == asked[i + 1..];
      if !PermitsTarget(allowed.value, asked[i]) { return Err(OutsideTarget(asked[i])); }
    }
    return Ok(asked);
  }

  // ---- Capabilities ----

  lemma {:induction false} NarrowCapsIff(order: seq<Scope>, offered: set<Scope>, asked: set<Scope>)
    ensures var r := NarrowCaps(order, offered, asked);
      && (r.Ok? <==> forall x :: x in order && x in asked ==> x in offered)
      && (r.Ok? ==> forall x :: x in r.value <==> x in order && x in asked)
  {
    if order != [] {
      assert forall x :: x in order <==> x == order[0] || x in order[1..];
      NarrowCapsIff(order[1..], offered, asked);
    }
  }

  lemma NarrowCapsWhole(order: seq<Scope>, offered: set<Scope>, asked: set<Scope>)
    requires forall x: Scope :: x in order
    ensures NarrowCaps(order, offered, asked).Ok? <==> asked <= offered
    ensures asked <= offered ==> NarrowCaps(order, offered, asked) == Ok(asked)
  {
    NarrowCapsIff(order, offered, asked);
    var r := NarrowCaps(order, offered, asked);
    if r.Ok? { assert r.value == asked; }
  }

  lemma NarrowCapsInOrder(offered: set<Scope>, asked: set<Scope>)
    ensures NarrowCaps(ORDER, offered, asked).Ok? <==> asked <= offered
    ensures asked <= offered ==> NarrowCaps(ORDER, offered, asked) == Ok(asked)
  {
    forall x: Scope ensures x in ORDER { InOrder(x); }
    NarrowCapsWhole(ORDER, offered, asked);
  }

  // ---- Targets ----

  // The list a session is built with: targets that do not all parse restrict nothing.
  function AllowOf(targets: seq<string>): List {
    match Allowlist.Parse(targets)
    case Err(_) => []
    case Ok(l) => l
  }

  predicate Parses(ts: seq<string>) { Allowlist.Parse(ts).Ok? }

  predicate AllTrimmed(ts: seq<string>) { forall i :: 0 <= i < |ts| ==> Text.Trimmed(ts[i]) }

  ghost predicate ListWithin(inner: List, outer: List) {
    forall h, p :: Permits(inner, h, p) ==> Permits(outer, h, p)
  }

  ghost predicate ReachWithin(inner: seq<string>, outer: seq<string>) {
    ListWithin(AllowOf(inner), AllowOf(outer))
  }

  lemma {:induction false} NoneOutside(l: List, asked: seq<string>)
    ensures FirstOutside(l, asked).None? <==> forall i :: 0 <= i < |asked| ==> PermitsTarget(l, asked[i])
  {
    if asked != [] {
      assert forall i :: 0 < i < |asked| ==> asked[i] == asked[1..][i - 1];
      NoneOutside(l, asked[1..]);
      if forall i :: 0 <= i < |asked| ==> PermitsTarget(l, asked[i]) {
        var rest := asked[1..];
        forall i | 0 <= i < |rest| ensures PermitsTarget(l, rest[i]) { assert rest[i] == asked[i + 1]; }
      }
    }
  }

  lemma WithinIffEachEntry(l: List, outer: List)
    requires l != []
    ensures ListWithin(l, outer) <==> forall i :: 0 <= i < |l| ==> EntryWithin(l[i], outer)
  {
    if ListWithin(l, outer) {
      forall i, h, p | 0 <= i < |l| && l[i].Permits(h, p) ensures Permits(outer, h, p) {
        assert Permits(l, h, p);
      }
    }
  }

  lemma NoneOutsideIffWithin(l: List, asked: seq<string>, inner: List)
    requires l != [] && inner != [] && AllTrimmed(asked) && |inner| == |asked|
    requires forall i :: 0 <= i < |asked| ==> ParseEntry(asked[i]) == Ok(inner[i])
    ensures FirstOutside(l, asked).None? <==> ListWithin(inner, l)
  {
    NoneOutside(l, asked);
    forall i | 0 <= i < |asked| ensures PermitsTarget(l, asked[i]) <==> EntryWithin(inner[i], l) {
      PermitsTargetIffWithin(l, asked[i]);
    }
    WithinIffEachEntry(inner, l);
  }

  /** An offer whose own targets do not parse accepts no target at all. */
  lemma BadOfferRefuses(offered: seq<string>, asked: seq<string>)
    requires !Parses(offered) && asked != []
    ensures NarrowTargets(offered, asked) == Err(BadOffer(Allowlist.Parse(offered).error))
  {
  }

  /** A list of targets is accepted under another exactly when everything it reaches is
      reached by the other. */
  lemma AcceptedIffWithin(offered: seq<string>, asked: seq<string>)
    requires Parses(offered) && Parses(asked) && AllTrimmed(asked) && asked != []
    ensures NarrowTargets(offered, asked).Ok? <==> ReachWithin(asked, offered)
  {
    if offered != [] {
      ParsedEntries(offered);
      ParsedEntries(asked);
      NoneOutsideIffWithin(Allowlist.Parse(offered).value, asked, Allowlist.Parse(asked).value);
    }
  }

  /** The targets a narrowed link reaches lie within those offered exactly when they all
      parse: a list that does not parse restricts nothing. */
  lemma TargetsCeiling(offered: seq<string>, asked: seq<string>)
    requires Parses(offered) && AllTrimmed(asked) && NarrowTargets(offered, asked).Ok?
    ensures offered != [] ==> NarrowTargets(offered, asked).value != []
    ensures ReachWithin(NarrowTargets(offered, asked).value, offered)
       <==> offered == [] || Parses(NarrowTargets(offered, asked).value)
  {
    if offered != [] && asked != [] {
      if Parses(asked) {
        AcceptedIffWithin(offered, asked);
      } else {
        ParsedEntries(offered);
        var h := SomeHostUnreached(AllowOf(offered));
        assert Permits(AllowOf(asked), h, 0);
      }
    }
  }

  /** Such targets exist: an entry without a port permits the host with port 0, which is no
      port a target can name. */
  lemma UnparsedTargetReachesAll(host: string)
    requires host != "" && PlainText(host) && Text.Trimmed(host)
    ensures NarrowTargets([host], [host + ":" + "0"]) == Ok([host + ":" + "0"])
    ensures !ReachWithin([host + ":" + "0"], [host])
  {
    PortZero(host);
    ParseSingle(host);
    ParseSingle(host + ":" + "0");
    PortZeroPermitted(host);
    TargetsCeiling([host], [host + ":" + "0"]);
  }

  lemma PortZeroPermitted(host: string)
    requires host != "" && PlainText(host) && Text.Trimmed(host)
    ensures FirstOutside([Entry(NormalizeHost(host), 0)], [host + ":" + "0"]) == None
  {
    PortZero(host);
    var e := Entry(NormalizeHost(host), 0);
    assert e.Permits(host, 0) && [e][0] == e;
    NoneOutside([e], [host + ":" + "0"]);
  }

  lemma PortZero(host: string)
    requires host != "" && PlainText(host) && Text.Trimmed(host)
    ensures ParseEntry(host) == Ok(Entry(NormalizeHost(host), 0))
    ensures ParseEntry(host + ":" + "0") == Err(BadPort) && Text.Trimmed(host + ":" + "0")
    ensures SplitHostPort(host + ":" + "0") == Some(HostPort(host, "0")) && Text.Atoi("0") == Some(0)
  {
    AtoiZero();
    SplitHostPortInvertsJoin(host, "0");
    NoPort(host);
    TrimmedPort(host, "0");
  }

  lemma NoPort(host: string)
    requires host != "" && PlainText(host) && Text.Trimmed(host)
    ensures ParseEntry(host) == Ok(Entry(NormalizeHost(host), 0))
  {
    LastIndexOfNone(host, ':');
    Text.TrimSpaceTrims(host);
  }

  lemma TrimmedPort(host: string, port: string)
    requires host != "" && Text.Trimmed(host) && port != "" && Text.Trimmed(port)
    ensures var t := host + ":" + port; Text.Trimmed(t) && Text.TrimSpace(t) == t && t != ""
  {
    var t := host + ":" + port;
    assert t[0] == host[0] && t[|t| - 1] == port[|port| - 1];
    Text.TrimSpaceTrims(t);
  }

  lemma AtoiZero()
    ensures Text.Atoi("0") == Some(0) && PlainText("0") && Text.Trimmed("0")
  {
    assert "0"[..0] == "" && Text.DecimalValue("") == 0;
    assert Text.DecimalValue("0") == 0;
  }

  lemma NarrowTargetsAgain(offered: seq<string>, asked: seq<string>)
    requires Parses(offered) && AllTrimmed(offered) && NarrowTargets(offered, asked).Ok?
    ensures var out := NarrowTargets(offered, asked).value; NarrowTargets(offered, out) == Ok(out)
  {
    if asked == [] && offered != [] {
      forall i | 0 <= i < |offered| ensures PermitsTarget(Allowlist.Parse(offered).value, offered[i]) {
        OwnTargetPermitted(offered, i);
      }
      NoneOutside(Allowlist.Parse(offered).value, offered);
    }
  }

  // ---- The ceiling ----

  // What a grant of files shares: its path, or the working directory.
  function SharedAt(cwd: Option<Path>, path: string): Option<Path> {
    if path == "" then cwd else Abs(cwd, path)
  }

  predicate PathWithin(cwd: Option<Path>, inner: string, outer: string) {
    var a, b := SharedAt(cwd, inner), SharedAt(cwd, outer);
    inner == outer || (a.Some? && b.Some? && b.value <= a.value)
  }

  ghost predicate Within(cwd: Option<Path>, inner: Spec, outer: Spec) {
    && CapsOf(inner) <= CapsOf(outer)
    && (outer.shellArgv != [] ==> inner.shellArgv == outer.shellArgv)
    && (inner.Has(Files) ==> PathWithin(cwd, inner.filesPath, outer.filesPath))
    && ReachWithin(inner.proxyTargets, outer.proxyTargets)
    && ReachWithin(inner.forwardTargets, outer.forwardTargets)
  }

  predicate TargetsParse(s: Spec) { Parses(s.proxyTargets) && Parses(s.forwardTargets) }

  predicate TargetsTrimmed(s: Spec) { AllTrimmed(s.proxyTargets) && AllTrimmed(s.forwardTargets) }

  // The link's path is checked, or stays in the working directory by itself.
  predicate PathChecked(cwd: Option<Path>, offered: string, asked: string) {
    asked == "" || offered != "" || (cwd.Some? && cwd.value <= Abs(cwd, asked).value)
  }

  /** The files of an accepted path lie within what the listener shares exactly when the link names
      no path, or the offer names one, or the link's path lies in the working directory. */
  lemma PathCeiling(cwd: Option<Path>, offered: string, asked: string)
    requires (cwd.Some? ==> Cleaned(cwd.value)) && NarrowPath(cwd, offered, asked).Ok?
    ensures PathWithin(cwd, NarrowPath(cwd, offered, asked).value, offered) <==> PathChecked(cwd, offered, asked)
  {
    if asked != "" && offered != "" {
      AbsCleans(cwd, asked);
      WithinIffPrefix(Abs(cwd, offered).value, Abs(cwd, asked).value);
    }
  }

  // Each part of the link is checked against the offer, or harmless unchecked.
  predicate Checked(cwd: Option<Path>, offered: Spec, link: Spec, out: Spec) {
    && (out.Has(Files) ==> PathChecked(cwd, offered.filesPath, link.filesPath))
    && (offered.proxyTargets == [] || Parses(out.proxyTargets))
    && (offered.forwardTargets == [] || Parses(out.forwardTargets))
  }

  /** Whatever a link resolves to lies within the listener's grant, its capabilities, a command the
      listener pinned, the files it shares, and every host and port it reaches, exactly when the
      targets parse where the offer lists any, and files are not granted on a path of the link's
      own outside the working directory by an offer that names none. */
  lemma NarrowIsCeiling(cwd: Option<Path>, offered: Spec, link: Spec)
    requires cwd.Some? ==> Cleaned(cwd.value)
    requires TargetsParse(offered) && TargetsTrimmed(link) && Narrow(cwd, offered, link).Ok?
    ensures var out := Narrow(cwd, offered, link).value;
      out.caps.Some? && (Within(cwd, out, offered) <==> Checked(cwd, offered, link, out))
  {
    NarrowCapsInOrder(CapsOf(offered), CapsOf(if link.caps == None then offered else link));
    PathCeiling(cwd, offered.filesPath, link.filesPath);
    TargetsCeiling(offered.proxyTargets, link.proxyTargets);
    TargetsCeiling(offered.forwardTargets, link.forwardTargets);
  }

  /** The same for a link written in the grammar, whose targets are trimmed by it. */
  lemma WrittenLinkCeiling(cwd: Option<Path>, offered: Spec, line: string)
    requires (cwd.Some? ==> Cleaned(cwd.value)) && TargetsParse(offered) && ParseString(line).Ok?
    requires Effective(cwd, offered, ParseString(line).value).Ok?
    ensures var link := ParseString(line).value;
      var out := Effective(cwd, offered, link).value;
      Within(cwd, out, offered) <==> Checked(cwd, offered, link, out)
  {
    ParseStringYields(line);
    NarrowIsCeiling(cwd, offered, Intersect(ParseString(line).value, offered));
  }

  /** An offer of files without a path shares the working directory, but takes any path from a
      link: one outside it is accepted, and is not within what is shared. */
  lemma PathLeavesWorkingDirectory(cwd: Path, path: string)
    requires Cleaned(cwd) && path != "" && !(cwd <= Abs(Some(cwd), path).value)
    ensures var offered, link := FILES, FILES.(filesPath := path);
      Narrow(Some(cwd), offered, link) == Ok(link) && !Within(Some(cwd), link, offered)
  {
    NarrowCapsInOrder({Files}, {Files});
    PathCeiling(Some(cwd), "", path);
  }

  const FILES := Spec(Some({Files}), [], "", [], [])

  lemma EtcIsAccepted()
    ensures Narrow(Some(["srv"]), FILES, FILES.(filesPath := "/etc")) == Ok(FILES.(filesPath := "/etc"))
    ensures !Within(Some(["srv"]), FILES.(filesPath := "/etc"), FILES)
  {
    EtcComponents();
    assert Abs(Some(["srv"]), "/etc").value[0] == "etc";
    PathLeavesWorkingDirectory(["srv"], "/etc");
  }

  lemma EtcComponents()
    ensures Abs(Some(["srv"]), "/etc") == Some(["etc"])
  {
    Text.SplitOnInvertsJoin(["", "etc"], '/');
    assert ["", "etc"][1..] == ["etc"] && "" + "/" + "etc" == "/etc";
    assert Text.Join(["etc"], "/") == "etc" && Text.Join(["", "etc"], "/") == "/etc";
    assert ["etc"][1..] == [] && [] + ["etc"] == ["etc"];
    assert CleanFrom(["etc"], []) == ["etc"];
    assert CleanFrom([], ["etc"]) == ["etc"];
    assert CleanFrom([], ["", "etc"]) == CleanFrom([], ["etc"]);
  }

  /** Lying within is transitive, so a chain of narrowings stays under the first ceiling. */
  lemma WithinTrans(cwd: Option<Path>, a: Spec, b: Spec, c: Spec)
    requires Within(cwd, a, b) && Within(cwd, b, c)
    ensures Within(cwd, a, c)
  {
  }

  /** Nothing that asks for more than is offered narrows to anything: with targets that parse,
      a link is accepted exactly when each part of it lies within the offer. */
  lemma AcceptedIff(cwd: Option<Path>, offered: Spec, link: Spec)
    requires cwd.Some? && Cleaned(cwd.value)
    requires TargetsParse(offered) && TargetsParse(link) && TargetsTrimmed(link)
    ensures Narrow(cwd, offered, link).Ok? <==>
              && CapsOf(link) <= CapsOf(offered)
              && (link.shellArgv != [] && offered.shellArgv != [] ==>
                    Text.Join(link.shellArgv, " ") == Text.Join(offered.shellArgv, " "))
              && (link.filesPath != "" && offered.filesPath != "" ==>
                    Abs(cwd, offered.filesPath).value <= Abs(cwd, link.filesPath).value)
              && (link.proxyTargets != [] ==> ReachWithin(link.proxyTargets, offered.proxyTargets))
              && (link.forwardTargets != [] ==> ReachWithin(link.forwardTargets, offered.forwardTargets))
  {
    NarrowCapsInOrder(CapsOf(offered), CapsOf(if link.caps == None then offered else link));
    PathAccepted(cwd, offered.filesPath, link.filesPath);
    if link.proxyTargets != [] { AcceptedIffWithin(offered.proxyTargets, link.proxyTargets); }
    if link.forwardTargets != [] { AcceptedIffWithin(offered.forwardTargets, link.forwardTargets); }
    NarrowOkIff(cwd, offered, link);
  }

  lemma PathAccepted(cwd: Option<Path>, offered: string, asked: string)
    requires cwd.Some? && Cleaned(cwd.value)
    ensures NarrowPath(cwd, offered, asked).Ok? <==>
              (asked != "" && offered != "" ==> Abs(cwd, offered).value <= Abs(cwd, asked).value)
  {
    AbsCleans(cwd, asked);
    WithinIffPrefix(Abs(cwd, offered).value, Abs(cwd, asked).value);
  }

  lemma NarrowOkIff(cwd: Option<Path>, offered: Spec, link: Spec)
    ensures Narrow(cwd, offered, link).Ok? <==>
              && NarrowCaps(ORDER, CapsOf(offered), CapsOf(if link.caps == None then offered else link)).Ok?
              && NarrowCommand(offered.shellArgv, link.shellArgv).Ok?
              && NarrowPath(cwd, offered.filesPath, link.filesPath).Ok?
              && NarrowTargets(offered.proxyTargets, link.proxyTargets).Ok?
              && NarrowTargets(offered.forwardTargets, link.forwardTargets).Ok?
  {
  }

  // What a link leaves of one argument: its own where it names one, else the offer's.
  function Chosen<T(==)>(own: seq<T>, offered: seq<T>): seq<T> { if own == [] then offered else own }

  // The arguments are the link's own where it names any; a command the listener pinned stays, and
  // is the link's to the comparison of the two lines.
  predicate TakesOnly(out: Spec, link: Spec, offered: Spec) {
    && out.filesPath == Chosen(link.filesPath, offered.filesPath)
    && out.proxyTargets == Chosen(link.proxyTargets, offered.proxyTargets)
    && out.forwardTargets == Chosen(link.forwardTargets, offered.forwardTargets)
    && out.shellArgv == Chosen(offered.shellArgv, link.shellArgv)
    && (link.shellArgv != [] ==> Text.Join(out.shellArgv, " ") == Text.Join(link.shellArgv, " "))
  }

  /** A link may only take away: what it resolves to holds the capabilities and the arguments it
      names, and the listener's only where it names none. */
  lemma NarrowTakesAway(cwd: Option<Path>, offered: Spec, link: Spec)
    requires Narrow(cwd, offered, link).Ok?
    ensures var out := Narrow(cwd, offered, link).value;
      && out.caps == Some(if link.caps == None then CapsOf(offered) else link.caps.value)
      && TakesOnly(out, link, offered)
  {
    NarrowCapsInOrder(CapsOf(offered), CapsOf(if link.caps == None then offered else link));
  }

  // The files a resolved link shares lie under its own path, and what it reaches under its own targets.
  ghost predicate UnderLink(cwd: Option<Path>, out: Spec, link: Spec) {
    && (link.caps.Some? ==> CapsOf(out) <= link.caps.value)
    && (link.filesPath != "" ==> PathWithin(cwd, out.filesPath, link.filesPath))
    && (link.proxyTargets != [] ==> ReachWithin(out.proxyTargets, link.proxyTargets))
    && (link.forwardTargets != [] ==> ReachWithin(out.forwardTargets, link.forwardTargets))
  }

  /** So is what a link of the file resolves to, with the capabilities it shares with the listener. */
  lemma EffectiveTakesAway(cwd: Option<Path>, offered: Spec, link: Spec)
    requires Effective(cwd, offered, link).Ok?
    ensures var out := Effective(cwd, offered, link).value;
      && out.caps == Some(if link.caps == None then CapsOf(offered) else link.caps.value * CapsOf(offered))
      && TakesOnly(out, link, offered) && UnderLink(cwd, out, link)
  {
    EffectiveCaps(cwd, offered, link);
    NarrowTakesAway(cwd, offered, Intersect(link, offered));
  }

  /** Narrowing what a link resolved to changes nothing more. */
  lemma NarrowTwice(cwd: Option<Path>, offered: Spec, link: Spec)
    requires cwd.Some? && Cleaned(cwd.value)
    requires TargetsParse(offered) && TargetsTrimmed(offered) && Narrow(cwd, offered, link).Ok?
    ensures Narrow(cwd, offered, Narrow(cwd, offered, link).value) == Narrow(cwd, offered, link)
  {
    var out := Narrow(cwd, offered, link).value;
    NarrowCapsInOrder(CapsOf(offered), CapsOf(if link.caps == None then offered else link));
    NarrowCapsInOrder(CapsOf(offered), CapsOf(out));
    NarrowPathAgain(cwd, offered.filesPath, link.filesPath);
    NarrowTargetsAgain(offered.proxyTargets, link.proxyTargets);
    NarrowTargetsAgain(offered.forwardTargets, link.forwardTargets);
  }

  lemma NarrowPathAgain(cwd: Option<Path>, offered: string, asked: string)
    requires cwd.Some? && Cleaned(cwd.value) && NarrowPath(cwd, offered, asked).Ok?
    ensures var out := NarrowPath(cwd, offered, asked).value; NarrowPath(cwd, offered, out) == Ok(out)
  {
    AbsCleans(cwd, offered);
    WithinIffPrefix(Abs(cwd, offered).value, Abs(cwd, offered).value);
  }

  // ---- Links ----

  function Effective(cwd: Option<Path>, offered: Spec, link: Spec): Result<Spec, NarrowError> {
    Narrow(cwd, offered, Intersect(link, offered))
  }

  /** Capabilities the listener does not serve never refuse a link: it keeps those that overlap,
      which may be none. Only an unspecified link takes everything. */
  lemma EffectiveCaps(cwd: Option<Path>, offered: Spec, link: Spec)
    requires Effective(cwd, offered, link).Ok?
    ensures Effective(cwd, offered, link).value.caps
         == Some(if link.caps == None then CapsOf(offered) else link.caps.value * CapsOf(offered))
  {
    var asked := Intersect(link, offered);
    NarrowCapsInOrder(CapsOf(offered), CapsOf(if asked.caps == None then offered else asked));
  }

  /** A link that names nothing else is never refused, whatever its capabilities. */
  lemma WordsAloneResolve(cwd: Option<Path>, offered: Spec, caps: Option<set<Scope>>)
    ensures Effective(cwd, offered, UNSPECIFIED.(caps := caps))
         == Ok(offered.(caps := Some(if caps == None then CapsOf(offered) else caps.value * CapsOf(offered))))
  {
    var asked := Intersect(UNSPECIFIED.(caps := caps), offered);
    NarrowCapsInOrder(CapsOf(offered), CapsOf(if asked.caps == None then offered else asked));
  }

  // links.SameGrants, on what the two grants resolve to.
  predicate SameReach(a: Result<Spec, NarrowError>, b: Result<Spec, NarrowError>) {
    a.Ok? && b.Ok? && Render(a.value) == Render(b.value)
  }

  // A link resolves to arguments of its own or of the offer's.
  lemma ResolvedDelimited(cwd: Option<Path>, offered: Spec, link: Spec)
    requires FromParser(link) && AllDelimited(offered) && AllDelimited(link) && Effective(cwd, offered, link).Ok?
    ensures AllDelimited(Effective(cwd, offered, link).value)
  {
    EffectiveCaps(cwd, offered, link);
    var out := Effective(cwd, offered, link).value;
    forall scope | out.Has(scope) ensures Delimited(out, scope) {
      assert offered.Has(scope) && (link.caps == None || link.Has(scope));
    }
  }

  /** Two written links that resolve count as the same exactly when they resolve to the same
      capabilities with the same arguments as written, if in both lines and in the offer no target
      holds a blank or is a later capability's word, and neither the path nor an argument of the
      command holds both kinds of quote. */
  lemma SameReachIff(cwd: Option<Path>, offered: Spec, a: string, b: string)
    requires ParseString(a).Ok? && ParseString(b).Ok?
    requires AllDelimited(offered) && AllDelimited(ParseString(a).value) && AllDelimited(ParseString(b).value)
    ensures var x, y := Effective(cwd, offered, ParseString(a).value), Effective(cwd, offered, ParseString(b).value);
      SameReach(x, y) <==> x.Ok? && y.Ok? && OnlyGranted(x.value) == OnlyGranted(y.value)
  {
    ParseStringYields(a);
    ParseStringYields(b);
    var x, y := Effective(cwd, offered, ParseString(a).value), Effective(cwd, offered, ParseString(b).value);
    if x.Ok? && y.Ok? {
      EffectiveCaps(cwd, offered, ParseString(a).value);
      EffectiveCaps(cwd, offered, ParseString(b).value);
      ResolvedDelimited(cwd, offered, ParseString(a).value);
      ResolvedDelimited(cwd, offered, ParseString(b).value);
      PrintedAlike(x.value, y.value);
    }
  }

  // What a listener serves when no words were typed.
  const EVERYTHING := Spec(Some({Files, Proxy, Forward, Shell}), [], "", [], [])

  /** Under an offer that leaves targets open a link resolves to itself. */
  lemma OpenOffer(cwd: Option<Path>, link: Spec)
    requires link.caps.Some?
    ensures Effective(cwd, EVERYTHING, link) == Ok(link)
  {
    forall scope: Scope ensures scope in CapsOf(EVERYTHING) {
      match scope case Files => case Proxy => case Forward => case Shell =>
    }
    assert link.caps.value * CapsOf(EVERYTHING) == link.caps.value;
    NarrowCapsInOrder(CapsOf(EVERYTHING), link.caps.value);
  }

  /** Without that, a link line can lose a capability and count as the same: one proxy target that
      holds a blank, against a proxy target and a forward target. */
  lemma LostCapabilityCountsAsSame(cwd: Option<Path>, t: string, u: string)
    requires PlainTarget(t) && PlainTarget(u) && !IsWord(t) && !IsWord(u)
    ensures var less := ParseString(JoinFields(["proxy", t + " forward " + u]));
      var more := ParseString(Render(Targets({Proxy, Forward}, [t], [u])));
      && less.Ok? && more.Ok?
      && SameReach(Effective(cwd, EVERYTHING, less.value), Effective(cwd, EVERYTHING, more.value))
      && Effective(cwd, EVERYTHING, less.value).value.caps == Some({Proxy})
      && Effective(cwd, EVERYTHING, more.value).value.caps == Some({Proxy, Forward})
  {
    CollidingLines(t, u);
    BlankCollides(t, u);
    OpenOffer(cwd, Targets({Proxy}, [t + " forward " + u], []));
    OpenOffer(cwd, Targets({Proxy, Forward}, [t], [u]));
  }

  /** And the other way, two orders of the same targets reach the same and count as different. */
  lemma ReorderedCountsAsDifferent(t: string, u: string)
    requires PlainTarget(t) && PlainTarget(u) && t != u && ParseEntry(t).Ok? && ParseEntry(u).Ok?
    ensures ReachWithin([t, u], [u, t]) && ReachWithin([u, t], [t, u])
    ensures Render(Targets({Forward}, [], [t, u])) != Render(Targets({Forward}, [], [u, t]))
  {
    TwoOrdersReach(t, u);
    TwoOrdersReach(u, t);
    TwoDelimited(t, u);
    TwoDelimited(u, t);
    PrintedAlike(Targets({Forward}, [], [t, u]), Targets({Forward}, [], [u, t]));
    assert [t, u][0] != [u, t][0];
  }

  lemma TwoOrdersReach(t: string, u: string)
    requires ParseEntry(t).Ok? && ParseEntry(u).Ok?
    ensures ReachWithin([t, u], [u, t])
  {
    ReachOfTwo(t, u);
    ReachOfTwo(u, t);
    forall h, p ensures Permits(AllowOf([t, u]), h, p) ==> Permits(AllowOf([u, t]), h, p) {
      PermitsTwo(ParseEntry(t).value, ParseEntry(u).value, h, p);
      PermitsTwo(ParseEntry(u).value, ParseEntry(t).value, h, p);
    }
  }

  lemma PermitsTwo(a: Entry, b: Entry, h: string, p: int)
    ensures Permits([a, b], h, p) <==> a.Permits(h, p) || b.Permits(h, p)
  {
    assert [a, b][0] == a && [a, b][1] == b;
  }

  lemma ReachOfTwo(t: string, u: string)
    requires ParseEntry(t).Ok? && ParseEntry(u).Ok?
    ensures AllowOf([t, u]) == [ParseEntry(t).value, ParseEntry(u).value]
  {
    ParseSingle(u);
    assert [t, u][1..] == [u];
    assert [ParseEntry(t).value] + [ParseEntry(u).value] == [ParseEntry(t).value, ParseEntry(u).value];
  }

  lemma TwoDelimited(t: string, u: string)
    requires PlainTarget(t) && PlainTarget(u)
    ensures AllDelimited(Targets({Forward}, [], [t, u]))
  {
    assert [t, u][1..] == [u] && Text.Join([t, u], ",") == t + "," + u;
    assert forall c :: c in t || c in u ==> !IsSpecial(c);
    assert (t + "," + u)[|t|] == ',' && ',' !in "shell";
  }
}

/**
 Grants: the parser of the grammar and the printer, and what reading back what
 was printed gives.
 */
module GrantSpec {
  import opened Wrappers
  import opened GrantFields
  import Text

  datatype Scope = Files | Proxy | Forward | Shell

  // How capabilities are listed, least powerful first.
  const ORDER: seq<Scope> := [Files, Proxy, Forward, Shell]

  function Word(scope: Scope): string {
    match scope
    case Files => "files"
    case Proxy => "proxy"
    case Forward => "forward"
    case Shell => "shell"
  }

  function ScopeOf(word: string): Option<Scope> {
    if word == "files" then Some(Files)
    else if word == "proxy" then Some(Proxy)
    else if word == "forward" then Some(Forward)
    else if word == "shell" then Some(Shell)
    else None
  }

  predicate IsWord(s: string) { ScopeOf(s).Some? }

  // caps None is "unspecified", which is not the same as granting nothing.
  datatype Spec = Spec(
    caps: Option<set<Scope>>, shellArgv: seq<string>, filesPath: string,
    proxyTargets: seq<string>, forwardTargets: seq<string>)
  {
    predicate Has(scope: Scope) { caps.Some? && scope in caps.value }
  }

  const UNSPECIFIED := Spec(None, [], "", [], [])
  const NOTHING := Spec(Some({}), [], "", [], [])

  datatype Error = NotAWord(word: string) | NamedTwice(scope: Scope) | BadQuotes(quote: char)

  // ---- The grammar ----

  function KeepTrimmed(parts: seq<string>): seq<string> {
    if parts == [] then []
    else
      var p := Text.TrimSpace(parts[0]);
      (if p != "" then [p] else []) + KeepTrimmed(parts[1..])
  }

  function SplitList(arg: string): seq<string> {
    if arg == "" then [] else KeepTrimmed(Text.SplitOn(arg, ','))
  }

  function Assign(spec: Spec, scope: Scope, arg: string): Result<Spec, Error> {
    match scope
    case Shell =>
      if arg == "" then Ok(spec)
      else (match SplitFields(arg)
        case Unbalanced(q) => Err(BadQuotes(q))
        case Split(argv) => Ok(spec.(shellArgv := argv)))
    case Files => Ok(spec.(filesPath := arg))
    case Proxy => Ok(spec.(proxyTargets := SplitList(arg)))
    case Forward => Ok(spec.(forwardTargets := SplitList(arg)))
  }

  predicate TakesNext(args: seq<string>) { |args| > 1 && !IsWord(args[1]) }

  // The grammar from some word on, with the words before it in `spec`.
  function ParseFrom(args: seq<string>, spec: Spec): Result<Spec, Error>
    requires spec.caps.Some?
    decreases |args|
  {
    if args == [] then Ok(spec)
    else match ScopeOf(args[0])
      case None => Err(NotAWord(args[0]))
      case Some(scope) =>
        if scope in spec.caps.value then Err(NamedTwice(scope))
        else
          var arg := if TakesNext(args) then args[1] else "";
          match Assign(spec.(caps := Some(spec.caps.value + {scope})), scope, arg)
          case Err(e) => Err(e)
          case Ok(next) => ParseFrom(args[if TakesNext(args) then 2 else 1..], next)
  }

  function Parse(args: seq<string>): Result<Spec, Error> {
    if args == [] then Ok(UNSPECIFIED) else ParseFrom(args, NOTHING)
  }

  function ParseString(line: string): Result<Spec, Error> {
    match SplitFields(line)
    case Unbalanced(q) => Err(BadQuotes(q))
    case Split(fields) => Parse(fields)
  }

  lemma {:induction false} KeepTrimmedAppend(parts: seq<string>, part: string)
    ensures KeepTrimmed(parts + [part])
         == KeepTrimmed(parts) + (if Text.TrimSpace(part) != "" then [Text.TrimSpace(part)] else [])
  {
    if parts == [] {
      assert parts + [part] == [part] && [part][1..] == [];
    } else {
      assert (parts + [part])[1..] == parts[1..] + [part];
      KeepTrimmedAppend(parts[1..], part);
    }
  }

  method SplitTargets(arg: string) returns (out: seq<string>)
    ensures out == SplitList(arg)
  {
    out := [];
    if arg == "" { return; }
    var parts := Text.SplitOn(arg, ',');
    for i := 0 to |parts|
      invariant out == KeepTrimmed(parts[..i])
    {
      var p := Text.TrimSpace(parts[i]);
      KeepTrimmedAppend(parts[..i], parts[i]);
      assert parts[..i] + [parts[i]] == parts[..i + 1];
      if p != "" {
        out := out + [p];
      }
    }
    assert parts[..|parts|] == parts;
  }

  method AssignArg(spec: Spec, scope: Scope, arg: string) returns (r: Result<Spec, Error>)
    ensures r == Assign(spec, scope, arg)
  {
    match scope
    case Shell =>
      if arg == "" { return Ok(spec); }
      var argv := SplitLine(arg);
      if argv.Unbalanced? { return Err(BadQuotes(argv.quote)); }
      return Ok(spec.(shellArgv := argv.fields));
    case Files => return Ok(spec.(filesPath := arg));
    case Proxy =>
      var targets := SplitTargets(arg);
      return Ok(spec.(proxyTargets := targets));
    case Forward =>
      var targets := SplitTargets(arg);
      return Ok(spec.(forwardTargets := targets));
  }

  lemma ScopeOfWord(word: string)
    ensures forall scope :: ScopeOf(word) == Some(scope) <==> Word(scope) == word
  {
  }

  lemma AssignKeepsCaps(spec: Spec, scope: Scope, arg: string)
    requires Assign(spec, scope, arg).Ok?
    ensures Assign(spec, scope, arg).value.caps == spec.caps
  {
  }

  lemma WordSeen(seen: set<string>, caps: set<Scope>, word: string, scope: Scope)
    requires forall s :: Word(s) in seen <==> s in caps
    requires ScopeOf(word) == Some(scope)
    ensures word in seen <==> scope in caps
    ensures forall s :: Word(s) in seen + {word} <==> s in caps + {scope}
  {
    ScopeOfWord(word);
    assert Word(scope) == word;
  }

  // The words already seen, kept as strings, are the capabilities so far.
  method ParseWords(args: seq<string>) returns (r: Result<Spec, Error>)
    ensures r == Parse(args)
  {
    if args == [] { return Ok(UNSPECIFIED); }
    var spec := NOTHING;
    var seen: set<string> := {};
    var i := 0;
    while i < |args|
      invariant i <= |args| && spec.caps.Some?
      invariant forall scope :: Word(scope) in seen <==> scope in spec.caps.value
      invariant ParseFrom(args[i..], spec) == Parse(args)
    {
      ghost var rest := args[i..];
      assert rest[0] == args[i] && (|rest| > 1 ==> rest[1] == args[i + 1]);
      var word := args[i];
      var scope := ScopeOf(word);
      if scope.None? { return Err(NotAWord(word)); }
      WordSeen(seen, spec.caps.value, word, scope.value);
      if word in seen { return Err(NamedTwice(scope.value)); }
      seen := seen + {word};
      spec := spec.(caps := Some(spec.caps.value + {scope.value}));
      var arg := "";
      if i + 1 < |args| && !IsWord(args[i + 1]) {
        arg := args[i + 1];
        i := i + 1;
      }
      i := i + 1;
      assert args[i..] == rest[if TakesNext(rest) then 2 else 1..];
      var next := AssignArg(spec, scope.value, arg);
      if next.Err? { return Err(next.error); }
      AssignKeepsCaps(spec, scope.value, arg);
      spec := next.value;
    }
    return Ok(spec);
  }

  predicate SameArg(a: Spec, b: Spec, scope: Scope) {
    match scope
    case Shell => a.shellArgv == b.shellArgv
    case Files => a.filesPath == b.filesPath
    case Proxy => a.proxyTargets == b.proxyTargets
    case Forward => a.forwardTargets == b.forwardTargets
  }

  // ---- Printing ----

  // What is printed after a capability's word; nothing when empty.
  function ArgText(s: Spec, scope: Scope): string {
    match scope
    case Shell => if s.shellArgv == [] then "" else QuoteCommand(s.shellArgv)
    case Files => if s.filesPath == "" then "" else QuoteField(s.filesPath)
    case Proxy => Text.Join(s.proxyTargets, ",")
    case Forward => Text.Join(s.forwardTargets, ",")
  }

  predicate Prints(s: Spec, scope: Scope) {
    match scope
    case Shell => s.shellArgv != []
    case Files => s.filesPath != ""
    case Proxy => s.proxyTargets != []
    case Forward => s.forwardTargets != []
  }

  // The line for the capabilities in `order`, appended to `b`.
  function RenderFrom(s: Spec, order: seq<Scope>, b: string): string
    decreases |order|
  {
    if order == [] then b
    else if !s.Has(order[0]) then RenderFrom(s, order[1..], b)
    else
      var named := (if b == "" then "" else b + " ") + Word(order[0]);
      RenderFrom(s, order[1..], if Prints(s, order[0]) then named + " " + ArgText(s, order[0]) else named)
  }

  function Render(s: Spec): string { RenderFrom(s, ORDER, "") }

  method RenderSpec(s: Spec) returns (b: string)
    ensures b == Render(s)
  {
    b := "";
    for i := 0 to |ORDER|
      invariant RenderFrom(s, ORDER[i..], b) == Render(s)
    {
      var scope := ORDER[i];
      assert ORDER[i..][0] == scope && ORDER[i..][1..] == ORDER[i + 1..];
      if s.Has(scope) {
        if |b| > 0 { b := b + " "; }
        b := b + Word(scope);
        if Prints(s, scope) { b := b + " " + ArgText(s, scope); }
      }
    }
  }

  // ---- Reading back what was printed ----

  predicate PlainTarget(t: string) { t != "" && NoSpecial(t) && ',' !in t && Text.Trimmed(t) }

  predicate PlainTargets(ts: seq<string>) { forall i :: 0 <= i < |ts| ==> PlainTarget(ts[i]) }

  // The field printed for an argument.
  function ArgField(s: Spec, scope: Scope): string {
    match scope
    case Shell => JoinFields(s.shellArgv)
    case Files => s.filesPath
    case Proxy => Text.Join(s.proxyTargets, ",")
    case Forward => Text.Join(s.forwardTargets, ",")
  }

  // The argument of a capability is printed as one field, and read back from it.
  predicate Quotable(s: Spec, scope: Scope) {
    match scope
    case Shell => NoQuotes(s.shellArgv)
    case Files => !HoldsBothQuotes(s.filesPath)
    case Proxy => PlainTargets(s.proxyTargets)
    case Forward => PlainTargets(s.forwardTargets)
  }

  predicate AllQuotable(s: Spec) { forall scope :: s.Has(scope) ==> Quotable(s, scope) }

  // And is not taken for the next capability.
  predicate AllPrintable(s: Spec) {
    AllQuotable(s) && forall scope :: s.Has(scope) ==> !IsWord(ArgField(s, scope))
  }

  function Fielded(s: Spec, scope: Scope): seq<string> {
    if Prints(s, scope) then [Word(scope), ArgField(s, scope)] else [Word(scope)]
  }

  function FieldsOf(s: Spec, order: seq<Scope>): seq<string> {
    if order == [] then []
    else (if s.Has(order[0]) then Fielded(s, order[0]) else []) + FieldsOf(s, order[1..])
  }

  // Sets one capability and its argument as in `s`.
  function Granting(spec: Spec, s: Spec, scope: Scope): Spec
    requires spec.caps.Some?
  {
    var named := spec.(caps := Some(spec.caps.value + {scope}));
    match scope
    case Shell => named.(shellArgv := s.shellArgv)
    case Files => named.(filesPath := s.filesPath)
    case Proxy => named.(proxyTargets := s.proxyTargets)
    case Forward => named.(forwardTargets := s.forwardTargets)
  }

  // A grant without the arguments of capabilities it does not hold.
  function OnlyGranted(s: Spec): Spec {
    Spec(s.caps, if s.Has(Shell) then s.shellArgv else [], if s.Has(Files) then s.filesPath else "",
         if s.Has(Proxy) then s.proxyTargets else [], if s.Has(Forward) then s.forwardTargets else [])
  }

  lemma {:induction false} JoinedTargets(ts: seq<string>)
    requires PlainTargets(ts)
    ensures NoSpecial(Text.Join(ts, ",")) && (ts != [] ==> Text.Join(ts, ",") != "")
  {
    if |ts| > 1 {
      JoinedTargets(ts[1..]);
    }
  }

  lemma {:induction false} TrimmedKept(ts: seq<string>)
    requires forall i :: 0 <= i < |ts| ==> ts[i] != "" && Text.Trimmed(ts[i])
    ensures KeepTrimmed(ts) == ts
  {
    if ts != [] {
      Text.TrimSpaceTrims(ts[0]);
      TrimmedKept(ts[1..]);
    }
  }

  lemma TargetsReadBack(ts: seq<string>)
    requires PlainTargets(ts)
    ensures SplitList(Text.Join(ts, ",")) == ts
  {
    JoinedTargets(ts);
    if ts != [] {
      Text.SplitOnInvertsJoin(ts, ',');
      TrimmedKept(ts);
    }
  }

  lemma CommandReadsBack(argv: seq<string>)
    requires NoQuotes(argv)
    ensures SplitFields(JoinFields(argv)) == Split(argv) && (argv != [] ==> JoinFields(argv) != "")
    ensures !HoldsBothQuotes(JoinFields(argv))
  {
    assert forall i :: 0 <= i < |argv| ==> NoQuote(argv[i]) && '"' !in argv[i];
    SplitInvertsJoin(argv);
    JoinedQuotes(argv);
    if argv != [] { QuoteFieldQuotes(argv[0]); }
  }

  lemma ArgIsField(s: Spec, scope: Scope)
    requires Quotable(s, scope)
    ensures !HoldsBothQuotes(ArgField(s, scope))
    ensures Prints(s, scope) ==> ArgText(s, scope) == QuoteField(ArgField(s, scope))
  {
    match scope
    case Shell => CommandReadsBack(s.shellArgv);
    case Files =>
    case Proxy => TargetsAreField(s.proxyTargets);
    case Forward => TargetsAreField(s.forwardTargets);
  }

  lemma TargetsAreField(ts: seq<string>)
    requires PlainTargets(ts)
    ensures !HoldsBothQuotes(Text.Join(ts, ","))
    ensures ts != [] ==> QuoteField(Text.Join(ts, ",")) == Text.Join(ts, ",")
  {
    JoinedTargets(ts);
    assert forall c :: c in Text.Join(ts, ",") ==> !IsSpecial(c);
  }

  lemma AssignReadsBack(spec: Spec, s: Spec, scope: Scope)
    requires spec.caps.Some? && Quotable(s, scope)
    requires spec.shellArgv == [] || scope != Shell
    ensures Assign(spec.(caps := Some(spec.caps.value + {scope})), scope,
                   if Prints(s, scope) then ArgField(s, scope) else "")
         == Ok(Granting(spec, s, scope))
  {
    match scope
    case Shell => CommandReadsBack(s.shellArgv);
    case Files =>
    case Proxy => TargetsReadBack(s.proxyTargets);
    case Forward => TargetsReadBack(s.forwardTargets);
  }

  lemma ParseOne(spec: Spec, s: Spec, scope: Scope, rest: seq<string>)
    requires spec.caps.Some? && scope !in spec.caps.value && (scope == Shell ==> spec.shellArgv == [])
    requires Quotable(s, scope) && !IsWord(ArgField(s, scope)) && (rest == [] || IsWord(rest[0]))
    ensures ParseFrom(Fielded(s, scope) + rest, spec) == ParseFrom(rest, Granting(spec, s, scope))
  {
    var args := Fielded(s, scope) + rest;
    ArgIsField(s, scope);
    AssignReadsBack(spec, s, scope);
    assert ScopeOf(args[0]) == Some(scope);
    assert args[if TakesNext(args) then 2 else 1..] == rest;
  }

  // The capabilities of `order` are granted one by one.
  function GrantAll(spec: Spec, s: Spec, order: seq<Scope>): Spec
    requires spec.caps.Some?
    decreases |order|
  {
    if order == [] then spec
    else GrantAll(if s.Has(order[0]) then Granting(spec, s, order[0]) else spec, s, order[1..])
  }

  predicate Distinct(order: seq<Scope>) { forall i, j :: 0 <= i < j < |order| ==> order[i] != order[j] }

  lemma {:induction false} FieldsStartWithWord(s: Spec, order: seq<Scope>)
    ensures FieldsOf(s, order) == [] || IsWord(FieldsOf(s, order)[0])
  {
    if order != [] {
      FieldsStartWithWord(s, order[1..]);
    }
  }

  lemma {:induction false} ParseFields(spec: Spec, s: Spec, order: seq<Scope>)
    requires spec.caps.Some? && Distinct(order) && AllPrintable(s)
    requires forall i :: 0 <= i < |order| ==> order[i] !in spec.caps.value
    requires Shell in order ==> spec.shellArgv == []
    ensures ParseFrom(FieldsOf(s, order), spec) == Ok(GrantAll(spec, s, order))
    decreases |order|
  {
    if order != [] {
      var rest := order[1..];
      assert forall i :: 0 <= i < |rest| ==> rest[i] == order[i + 1];
      if s.Has(order[0]) {
        var next := Granting(spec, s, order[0]);
        assert next.caps.value == spec.caps.value + {order[0]};
        FieldsStartWithWord(s, rest);
        ParseOne(spec, s, order[0], FieldsOf(s, rest));
        ParseFields(next, s, rest);
      } else {
        assert [] + FieldsOf(s, rest) == FieldsOf(s, rest);
        ParseFields(spec, s, rest);
      }
    }
  }

  lemma {:induction false} FieldsQuotable(s: Spec, order: seq<Scope>)
    requires AllQuotable(s)
    ensures forall i :: 0 <= i < |FieldsOf(s, order)| ==> !HoldsBothQuotes(FieldsOf(s, order)[i])
  {
    if order != [] {
      FieldsQuotable(s, order[1..]);
      if s.Has(order[0]) {
        ArgIsField(s, order[0]);
      }
    }
  }

  lemma {:induction false} JoinFieldsAppend(a: seq<string>, f: string)
    requires a != []
    ensures JoinFields(a + [f]) == JoinFields(a) + " " + QuoteField(f)
  {
    if |a| == 1 {
      assert (a + [f])[1..] == [f];
    } else {
      assert (a + [f])[1..] == a[1..] + [f];
      JoinFieldsAppend(a[1..], f);
      var q := QuoteField(a[0]) + " ";
      assert q + (JoinFields(a[1..]) + " " + QuoteField(f)) == q + JoinFields(a[1..]) + " " + QuoteField(f);
    }
  }

  lemma JoinedNotEmpty(a: seq<string>)
    ensures JoinFields(a) == "" <==> a == []
  {
    if a != [] { QuoteFieldQuotes(a[0]); }
  }

  lemma WordQuoted(scope: Scope)
    ensures QuoteField(Word(scope)) == Word(scope)
  {
  }

  lemma RenderOne(s: Spec, scope: Scope, fields: seq<string>)
    requires Quotable(s, scope)
    ensures var b := JoinFields(fields);
      var named := (if b == "" then "" else b + " ") + Word(scope);
      JoinFields(fields + Fielded(s, scope)) == if Prints(s, scope) then named + " " + ArgText(s, scope) else named
  {
    JoinedNotEmpty(fields);
    WordQuoted(scope);
    ArgIsField(s, scope);
    var named := fields + [Word(scope)];
    if fields == [] {
      assert named == [Word(scope)];
    } else {
      JoinFieldsAppend(fields, Word(scope));
    }
    if Prints(s, scope) {
      JoinFieldsAppend(named, ArgField(s, scope));
      assert fields + Fielded(s, scope) == named + [ArgField(s, scope)];
    }
  }

  lemma Assoc(a: seq<string>, b: seq<string>, c: seq<string>)
    ensures (a + b) + c == a + (b + c)
  {
  }

  lemma {:induction false} RenderIsJoin(s: Spec, order: seq<Scope>, fields: seq<string>)
    requires AllQuotable(s)
    ensures RenderFrom(s, order, JoinFields(fields)) == JoinFields(fields + FieldsOf(s, order))
    decreases |order|
  {
    if order == [] {
      assert fields + [] == fields;
    } else {
      var one, rest := if s.Has(order[0]) then Fielded(s, order[0]) else [], FieldsOf(s, order[1..]);
      Assoc(fields, one, rest);
      if s.Has(order[0]) {
        RenderOne(s, order[0], fields);
        RenderIsJoin(s, order[1..], fields + one);
      } else {
        assert fields + one == fields;
        RenderIsJoin(s, order[1..], fields);
      }
    }
  }

  lemma {:induction false} GrantAllGrants(spec: Spec, s: Spec, order: seq<Scope>)
    requires spec.caps.Some?
    ensures var r := GrantAll(spec, s, order);
      && r.caps.Some?
      && (forall x :: x in r.caps.value <==> x in spec.caps.value || (x in order && s.Has(x)))
      && r.shellArgv == (if Shell in order && s.Has(Shell) then s.shellArgv else spec.shellArgv)
      && r.filesPath == (if Files in order && s.Has(Files) then s.filesPath else spec.filesPath)
      && r.proxyTargets == (if Proxy in order && s.Has(Proxy) then s.proxyTargets else spec.proxyTargets)
      && r.forwardTargets == (if Forward in order && s.Has(Forward) then s.forwardTargets else spec.forwardTargets)
    decreases |order|
  {
    if order != [] {
      assert forall x :: x in order <==> x == order[0] || x in order[1..];
      GrantAllGrants(if s.Has(order[0]) then Granting(spec, s, order[0]) else spec, s, order[1..]);
    }
  }

  lemma InOrder(scope: Scope)
    ensures scope in ORDER
  {
    assert ORDER[0] == Files && ORDER[1] == Proxy && ORDER[2] == Forward && ORDER[3] == Shell;
  }

  lemma GrantAllInOrder(s: Spec, order: seq<Scope>)
    requires s.caps.Some? && forall x: Scope :: x in order
    ensures GrantAll(NOTHING, s, order) == OnlyGranted(s)
  {
    GrantAllGrants(NOTHING, s, order);
    assert GrantAll(NOTHING, s, order).caps.value == s.caps.value;
  }

  lemma FieldsNotEmpty(s: Spec)
    requires s.caps.Some? && s.caps.value != {}
    ensures FieldsOf(s, ORDER) != []
  {
    var scope :| scope in s.caps.value;
    InOrder(scope);
    var i :| 0 <= i < |ORDER| && ORDER[i] == scope;
    FieldsHave(s, ORDER, i);
  }

  lemma {:induction false} FieldsHave(s: Spec, order: seq<Scope>, i: nat)
    requires i < |order| && s.Has(order[i])
    ensures FieldsOf(s, order) != []
  {
    if i > 0 {
      FieldsHave(s, order[1..], i - 1);
    }
  }

  // A line whose arguments can be quoted splits into the fields it was printed from.
  lemma SplitRendered(s: Spec)
    requires AllQuotable(s)
    ensures SplitFields(Render(s)) == Split(FieldsOf(s, ORDER))
  {
    RenderIsJoin(s, ORDER, []);
    assert [] + FieldsOf(s, ORDER) == FieldsOf(s, ORDER);
    FieldsQuotable(s, ORDER);
    SplitInvertsJoin(FieldsOf(s, ORDER));
  }

  /** Reading back a printed grant gives the grant, with the arguments of words it does not grant
      forgotten. A grant of nothing prints as the empty line, which reads as "whatever is offered". */
  lemma GrantRoundTrip(s: Spec)
    requires s.caps.Some? && AllPrintable(s)
    ensures ParseString(Render(s)) == Ok(if s.caps.value == {} then UNSPECIFIED else OnlyGranted(s))
  {
    SplitRendered(s);
    if s.caps.value != {} {
      FieldsNotEmpty(s);
      ParseFields(NOTHING, s, ORDER);
      forall x: Scope ensures x in ORDER { InOrder(x); }
      GrantAllInOrder(s, ORDER);
    } else {
      NoFields(s, ORDER);
    }
  }

  lemma {:induction false} NoFields(s: Spec, order: seq<Scope>)
    requires s.caps == Some({})
    ensures FieldsOf(s, order) == []
  {
    if order != [] { NoFields(s, order[1..]); }
  }

  lemma {:induction false} RenderGranted(s: Spec, order: seq<Scope>, b: string)
    ensures RenderFrom(s, order, b) == RenderFrom(OnlyGranted(s), order, b)
    decreases |order|
  {
    if order != [] {
      var named := (if b == "" then "" else b + " ") + Word(order[0]);
      var next := if !s.Has(order[0]) then b
        else if Prints(s, order[0]) then named + " " + ArgText(s, order[0]) else named;
      RenderGranted(s, order[1..], next);
    }
  }

  // ---- What the parser yields ----

  // True of the targets of every parsed grant.
  predicate ListedTargets(ts: seq<string>) {
    forall i :: 0 <= i < |ts| ==> ts[i] != "" && Text.Trimmed(ts[i]) && ',' !in ts[i]
  }

  ghost predicate FromParser(s: Spec) {
    && OnlyGranted(s) == s && !IsWord(s.filesPath)
    && ListedTargets(s.proxyTargets) && ListedTargets(s.forwardTargets)
  }

  lemma {:induction false} KeptAreListed(parts: seq<string>)
    requires forall i :: 0 <= i < |parts| ==> ',' !in parts[i]
    ensures ListedTargets(KeepTrimmed(parts))
  {
    if parts != [] {
      Text.TrimSpaceTrims(parts[0]);
      Text.TrimChars(parts[0]);
      KeptAreListed(parts[1..]);
    }
  }

  lemma SplitListListed(arg: string)
    ensures ListedTargets(SplitList(arg))
  {
    if arg != "" {
      forall i | 0 <= i < |Text.SplitOn(arg, ',')| ensures ',' !in Text.SplitOn(arg, ',')[i] {
        Text.SplitOnParts(arg, ',', i);
      }
      KeptAreListed(Text.SplitOn(arg, ','));
    }
  }

  lemma {:induction false} ParseFromYields(args: seq<string>, spec: Spec)
    requires spec.caps.Some? && FromParser(spec) && ParseFrom(args, spec).Ok?
    ensures FromParser(ParseFrom(args, spec).value)
    ensures ParseFrom(args, spec).value.caps.Some?
    ensures args != [] ==> ParseFrom(args, spec).value.caps.value != {}
    ensures spec.caps.value <= ParseFrom(args, spec).value.caps.value
    decreases |args|
  {
    if args != [] {
      var scope := ScopeOf(args[0]).value;
      var arg := if TakesNext(args) then args[1] else "";
      SplitListListed(arg);
      var named := spec.(caps := Some(spec.caps.value + {scope}));
      var next := Assign(named, scope, arg).value;
      assert next.caps.value == spec.caps.value + {scope};
      AssignYields(spec, scope, arg);
      ParseFromYields(args[if TakesNext(args) then 2 else 1..], next);
    }
  }

  lemma AssignYields(spec: Spec, scope: Scope, arg: string)
    requires spec.caps.Some? && FromParser(spec) && !IsWord(arg)
    requires Assign(spec.(caps := Some(spec.caps.value + {scope})), scope, arg).Ok?
    ensures FromParser(Assign(spec.(caps := Some(spec.caps.value + {scope})), scope, arg).value)
  {
    SplitListListed(arg);
  }

  /** Every grant the parser returns names something or is unspecified, carries no argument of a word
      it does not grant, and lists only trimmed, non-empty targets without commas. */
  lemma ParseStringYields(line: string)
    requires ParseString(line).Ok?
    ensures FromParser(ParseString(line).value) && ParseString(line).value.caps != Some({})
    ensures ParseString(line).value.caps == None <==> ParseString(line).value == UNSPECIFIED
  {
    var fields := SplitFields(line).fields;
    if fields != [] {
      ParseFromYields(fields, NOTHING);
    }
  }

  /** A parsed grant survives being printed and read again when its arguments are printable. */
  lemma ParsedReadsBack(line: string)
    requires ParseString(line).Ok? && AllPrintable(ParseString(line).value)
    ensures ParseString(Render(ParseString(line).value)) == ParseString(line)
  {
    ParseStringYields(line);
    var s := ParseString(line).value;
    if s.caps == None {
      RenderNothing(s, ORDER);
    } else {
      GrantRoundTrip(s);
    }
  }

  lemma {:induction false} RenderNothing(s: Spec, order: seq<Scope>)
    requires s.caps == None
    ensures RenderFrom(s, order, "") == ""
    decreases |order|
  {
    if order != [] { RenderNothing(s, order[1..]); }
  }
}

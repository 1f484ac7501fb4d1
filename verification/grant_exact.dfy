/**
 Exactly which grants survive being printed and read back. The necessary half
 weighs lines: a line is never shorter than the fields it splits into require,
 and a printed line is as short as that only when each argument is quotable.
 */
module GrantExact {
  import opened Wrappers
  import opened GrantFields
  import opened GrantSpec
  import Text

  // ---- What reading a grant costs ----

  // What the word of a capability and its argument cost on any line.
  function ScopeCost(s: Spec, scope: Scope): nat {
    |Word(scope)| + 1 + if Prints(s, scope) then FieldCost(ArgField(s, scope)) + 1 else 0
  }

  // What they take on the printed line.
  function ScopeWidth(s: Spec, scope: Scope): nat {
    |Word(scope)| + 1 + if Prints(s, scope) then |ArgText(s, scope)| + 1 else 0
  }

  function CostOf(s: Spec, order: seq<Scope>): nat {
    if order == [] then 0
    else (if s.Has(order[0]) then ScopeCost(s, order[0]) else 0) + CostOf(s, order[1..])
  }

  lemma CommandCost(arg: string)
    requires arg != "" && SplitFields(arg).Split?
    ensures FieldCost(JoinFields(SplitFields(arg).fields)) <= FieldCost(arg) || SplitFields(arg).fields == []
  {
    var argv := SplitFields(arg).fields;
    SplitSpends(arg);
    JoinFieldsCost(argv);
    JoinedQuotes(argv);
    if !NoQuotes(argv) {
      QuotesNeedBoth(arg);
    } else if NoSpecial(arg) {
      ScanInside(START, arg);
      assert "" + arg == arg && [] + [arg] == [arg];
      assert argv == [arg] && JoinFields(argv) == QuoteField(arg);
    }
  }

  lemma {:induction false} TrimShortens(s: string)
    ensures |Text.TrimSpace(s)| <= |s|
  {
    TrimLeftShortens(s);
    TrimRightShortens(Text.TrimLeft(s));
  }

  lemma {:induction false} TrimLeftShortens(s: string)
    ensures |Text.TrimLeft(s)| <= |s|
  {
    if s != "" && Text.IsSpace(s[0]) { TrimLeftShortens(s[1..]); }
  }

  lemma {:induction false} TrimRightShortens(s: string)
    ensures |Text.TrimRight(s)| <= |s|
  {
    if s != "" && Text.IsSpace(s[|s| - 1]) { TrimRightShortens(s[..|s| - 1]); }
  }

  function Width(parts: seq<string>): nat {
    if parts == [] then 0 else |parts[0]| + 1 + Width(parts[1..])
  }

  lemma {:induction false} JoinWidth(parts: seq<string>)
    ensures |Text.Join(parts, ",")| == if parts == [] then 0 else Width(parts) - 1
  {
    if parts != [] { JoinWidth(parts[1..]); }
  }

  lemma {:induction false} SplitWidth(s: string)
    ensures Width(Text.SplitOn(s, ',')) == |s| + 1
  {
    if s != "" { SplitWidth(s[1..]); }
  }

  lemma {:induction false} KeptWidth(parts: seq<string>)
    ensures Width(KeepTrimmed(parts)) <= Width(parts)
  {
    if parts != [] {
      var p, rest := Text.TrimSpace(parts[0]), KeepTrimmed(parts[1..]);
      TrimShortens(parts[0]);
      KeptWidth(parts[1..]);
      assert [p][0] == p && ([p] + rest)[1..] == rest && [] + rest == rest;
    }
  }

  lemma {:induction false} KeptChars(parts: seq<string>, c: char)
    requires exists i :: 0 <= i < |KeepTrimmed(parts)| && c in KeepTrimmed(parts)[i]
    ensures exists i :: 0 <= i < |parts| && c in parts[i]
  {
    Text.TrimChars(parts[0]);
    if c !in parts[0] {
      var kept := KeepTrimmed(parts);
      var i :| 0 <= i < |kept| && c in kept[i];
      var rest := KeepTrimmed(parts[1..]);
      assert kept[i] == rest[i - (|kept| - |rest|)];
      KeptChars(parts[1..], c);
      var j :| 0 <= j < |parts[1..]| && c in parts[1..][j];
      assert c in parts[j + 1];
    }
  }

  lemma {:induction false} PartChars(s: string, i: nat, c: char)
    requires i < |Text.SplitOn(s, ',')| && c in Text.SplitOn(s, ',')[i]
    ensures c in s
  {
    if s != "" {
      var rest := Text.SplitOn(s[1..], ',');
      if s[0] == ',' {
        if i > 0 { PartChars(s[1..], i - 1, c); }
      } else if c != s[0] {
        PartChars(s[1..], i, c);
      }
    }
  }

  // Every character of a relisted argument but the commas was in it.
  lemma ListChars(arg: string, c: char)
    requires c in Text.Join(SplitList(arg), ",") && c != ','
    ensures c in arg
  {
    Text.JoinChars(SplitList(arg), ",", c);
    KeptChars(Text.SplitOn(arg, ','), c);
    var i :| 0 <= i < |Text.SplitOn(arg, ',')| && c in Text.SplitOn(arg, ',')[i];
    PartChars(arg, i, c);
  }

  lemma ListCost(arg: string)
    requires SplitList(arg) != []
    ensures FieldCost(Text.Join(SplitList(arg), ",")) <= FieldCost(arg)
  {
    var joined := Text.Join(SplitList(arg), ",");
    forall c | c in joined && c != ',' ensures c in arg { ListChars(arg, c); }
    JoinWidth(SplitList(arg));
    KeptWidth(Text.SplitOn(arg, ','));
    SplitWidth(arg);
    SplitListListed(arg);
    JoinNotEmpty(SplitList(arg));
    if !NoSpecial(joined) {
      var i :| 0 <= i < |joined| && IsSpecial(joined[i]);
      assert joined[i] in arg;
    }
  }

  lemma JoinNotEmpty(ts: seq<string>)
    requires ts != [] && ts[0] != ""
    ensures Text.Join(ts, ",") != ""
  {
  }

  // An argument costs at least what the value read from it does.
  lemma ArgCost(spec: Spec, scope: Scope, arg: string)
    requires Assign(spec, scope, arg).Ok?
    requires scope == Shell ==> spec.shellArgv == []
    ensures var s := Assign(spec, scope, arg).value;
      Prints(s, scope) ==> arg != "" && FieldCost(ArgField(s, scope)) <= FieldCost(arg)
  {
    match scope
    case Shell => if arg != "" { CommandCost(arg); }
    case Files =>
    case Proxy => if SplitList(arg) != [] { ListCost(arg); }
    case Forward => if SplitList(arg) != [] { ListCost(arg); }
  }

  lemma SameArgSameCost(a: Spec, b: Spec, scope: Scope)
    requires SameArg(a, b, scope)
    ensures ScopeCost(a, scope) == ScopeCost(b, scope)
  {
  }

  lemma {:induction false} OneMoreCost(a: Spec, b: Spec, scope: Scope, order: seq<Scope>)
    requires Distinct(order) && !a.Has(scope) && b.Has(scope)
    requires forall x :: x != scope ==> (a.Has(x) <==> b.Has(x)) && SameArg(a, b, x)
    ensures CostOf(b, order) == CostOf(a, order) + if scope in order then ScopeCost(b, scope) else 0
  {
    if order != [] {
      assert forall i :: 0 <= i < |order[1..]| ==> order[1..][i] == order[i + 1];
      assert scope in order <==> scope == order[0] || scope in order[1..];
      OneMoreCost(a, b, scope, order[1..]);
      if order[0] != scope {
        SameArgSameCost(a, b, order[0]);
      }
    }
  }

  lemma AssignTouchesOne(spec: Spec, scope: Scope, arg: string)
    requires spec.caps.Some?
    requires Assign(spec.(caps := Some(spec.caps.value + {scope})), scope, arg).Ok?
    ensures var s := Assign(spec.(caps := Some(spec.caps.value + {scope})), scope, arg).value;
      && s.caps == Some(spec.caps.value + {scope})
      && forall x :: x != scope ==> SameArg(spec, s, x)
  {
  }

  lemma AssignCost(spec: Spec, scope: Scope, arg: string, order: seq<Scope>)
    requires Distinct(order) && spec.caps.Some? && scope !in spec.caps.value
        && (scope == Shell ==> spec.shellArgv == [])
    requires Assign(spec.(caps := Some(spec.caps.value + {scope})), scope, arg).Ok?
    ensures var s := Assign(spec.(caps := Some(spec.caps.value + {scope})), scope, arg).value;
      CostOf(s, order) <= CostOf(spec, order) + |Word(scope)| + 1 + (if arg == "" then 0 else FieldCost(arg) + 1)
  {
    ArgCost(spec.(caps := Some(spec.caps.value + {scope})), scope, arg);
    AssignTouchesOne(spec, scope, arg);
    OneMoreCost(spec, Assign(spec.(caps := Some(spec.caps.value + {scope})), scope, arg).value, scope, order);
  }

  lemma WordCost(scope: Scope)
    ensures FieldCost(Word(scope)) == |Word(scope)|
  {
  }

  lemma {:induction false} ParseCost(args: seq<string>, spec: Spec, order: seq<Scope>)
    requires Distinct(order) && spec.caps.Some? && (Shell !in spec.caps.value ==> spec.shellArgv == [])
        && ParseFrom(args, spec).Ok?
    ensures CostOf(ParseFrom(args, spec).value, order) <= CostOf(spec, order) + LineCost(args)
    decreases |args|
  {
    if args != [] {
      var scope, takes := ScopeOf(args[0]).value, TakesNext(args);
      var arg, rest := if takes then args[1] else "", args[if takes then 2 else 1..];
      var next := Assign(spec.(caps := Some(spec.caps.value + {scope})), scope, arg).value;
      WordCost(scope);
      AssignCost(spec, scope, arg, order);
      AssignTouchesOne(spec, scope, arg);
      assert SameArg(spec, next, Shell) || scope == Shell;
      LineCostSplit(args, takes);
      ParseCost(rest, next, order);
    }
  }

  lemma LineCostSplit(args: seq<string>, two: bool)
    requires |args| > if two then 1 else 0
    ensures LineCost(args)
         == FieldCost(args[0]) + 1 + (if two then FieldCost(args[1]) + 1 else 0) + LineCost(args[if two then 2
             else 1..])
  {
    if two { assert args[1..][1..] == args[2..]; }
  }

  // ---- What printing one takes ----

  function WidthOf(s: Spec, order: seq<Scope>): nat {
    if order == [] then 0
    else (if s.Has(order[0]) then ScopeWidth(s, order[0]) else 0) + WidthOf(s, order[1..])
  }

  lemma {:induction false} RenderWidth(s: Spec, order: seq<Scope>, b: string)
    ensures |RenderFrom(s, order, b)| + 1
         == (if b == "" && WidthOf(s, order) > 0 then 0 else |b| + 1) + WidthOf(s, order)
    decreases |order|
  {
    if order != [] {
      if s.Has(order[0]) {
        var named := (if b == "" then "" else b + " ") + Word(order[0]);
        RenderWidth(s, order[1..], if Prints(s, order[0]) then named + " " + ArgText(s, order[0]) else named);
      } else {
        RenderWidth(s, order[1..], b);
      }
    }
  }

  // Quotable, as far as the width of one argument can tell.
  predicate Tight(s: Spec, scope: Scope) {
    match scope
    case Shell => NoQuotes(s.shellArgv)
    case Files => !HoldsBothQuotes(s.filesPath)
    case Proxy => NoSpecial(Text.Join(s.proxyTargets, ","))
    case Forward => NoSpecial(Text.Join(s.forwardTargets, ","))
  }

  lemma WidthUnderCost(s: Spec, scope: Scope)
    ensures ScopeWidth(s, scope) <= ScopeCost(s, scope)
    ensures ScopeWidth(s, scope) == ScopeCost(s, scope) ==> Tight(s, scope)
  {
    match scope
    case Shell =>
      QuoteFieldQuotes(JoinFields(s.shellArgv));
      JoinedQuotes(s.shellArgv);
    case Files => QuoteFieldQuotes(s.filesPath);
    case Proxy =>
    case Forward =>
  }

  lemma {:induction false} WidthBelowCostUnlessTight(s: Spec, order: seq<Scope>)
    ensures WidthOf(s, order) <= CostOf(s, order)
    ensures WidthOf(s, order) == CostOf(s, order) ==>
              forall i :: 0 <= i < |order| && s.Has(order[i]) ==> Tight(s, order[i])
  {
    if order != [] {
      WidthUnderCost(s, order[0]);
      WidthBelowCostUnlessTight(s, order[1..]);
      assert forall i :: 0 < i < |order| ==> order[i] == order[1..][i - 1];
    }
  }

  lemma NothingCosts(order: seq<Scope>)
    ensures CostOf(NOTHING, order) == 0
  {
  }

  // A grant that reads back was printed as tightly as it can be.
  lemma ReadsBackTight(s: Spec)
    requires s.caps.Some? && ParseString(Render(s)) == Ok(s)
    ensures forall scope :: s.Has(scope) ==> Tight(s, scope)
  {
    var args := SplitFields(Render(s)).fields;
    SplitSpends(Render(s));
    ParseCost(args, NOTHING, ORDER);
    NothingCosts(ORDER);
    RenderWidth(s, ORDER, "");
    WidthBelowCostUnlessTight(s, ORDER);
    forall scope | s.Has(scope) ensures Tight(s, scope) {
      InOrder(scope);
      var i :| 0 <= i < |ORDER| && ORDER[i] == scope;
    }
  }

  lemma {:induction false} TargetsFromJoin(ts: seq<string>, i: nat)
    requires NoSpecial(Text.Join(ts, ",")) && i < |ts|
    ensures NoSpecial(ts[i])
  {
    var joined := Text.Join(ts, ",");
    if |ts| > 1 {
      var tail := Text.Join(ts[1..], ",");
      assert joined == ts[0] + "," + tail;
      assert forall j :: 0 <= j < |ts[0]| ==> joined[j] == ts[0][j];
      assert forall j :: 0 <= j < |tail| ==> joined[|ts[0]| + 1 + j] == tail[j];
      if i > 0 { TargetsFromJoin(ts[1..], i - 1); }
    }
  }

  lemma TargetsArePlain(ts: seq<string>)
    requires NoSpecial(Text.Join(ts, ",")) && ListedTargets(ts)
    ensures PlainTargets(ts)
  {
    forall i | 0 <= i < |ts| ensures PlainTarget(ts[i]) { TargetsFromJoin(ts, i); }
  }

  lemma TightIsQuotable(s: Spec, scope: Scope)
    requires Tight(s, scope) && ListedTargets(s.proxyTargets) && ListedTargets(s.forwardTargets)
    ensures Quotable(s, scope)
  {
    match scope
    case Proxy => TargetsArePlain(s.proxyTargets);
    case Forward => TargetsArePlain(s.forwardTargets);
    case _ =>
  }

  // ---- Arguments taken for words ----

  // The grammar never revisits a capability.
  lemma {:induction false} ParseKeepsArg(args: seq<string>, spec: Spec, scope: Scope)
    requires spec.caps.Some? && scope in spec.caps.value && ParseFrom(args, spec).Ok?
    ensures SameArg(ParseFrom(args, spec).value, spec, scope)
    decreases |args|
  {
    if args != [] {
      var named := ScopeOf(args[0]).value;
      var arg := if TakesNext(args) then args[1] else "";
      var next := Assign(spec.(caps := Some(spec.caps.value + {named})), named, arg).value;
      assert scope in next.caps.value && SameArg(next, spec, scope);
      ParseKeepsArg(args[if TakesNext(args) then 2 else 1..], next, scope);
    }
  }

  lemma EmptyArgPrintsNothing(spec: Spec, scope: Scope)
    requires scope == Shell ==> spec.shellArgv == []
    ensures Assign(spec, scope, "").Ok? && Assign(spec, scope, "").value.caps == spec.caps
    ensures !Prints(Assign(spec, scope, "").value, scope)
  {
  }

  // A capability whose argument is a word is read without it.
  lemma WordTakesOver(s: Spec, spec: Spec, scope: Scope, rest: seq<string>)
    requires spec.caps.Some? && scope !in spec.caps.value && (scope == Shell ==> spec.shellArgv == [])
    requires Prints(s, scope) && IsWord(ArgField(s, scope))
    ensures var r := ParseFrom(Fielded(s, scope) + rest, spec); r.Ok? ==> !SameArg(r.value, s, scope)
  {
    var args := Fielded(s, scope) + rest;
    assert ScopeOf(args[0]) == Some(scope) && args[1] == ArgField(s, scope) && !TakesNext(args);
    EmptyArgPrintsNothing(spec.(caps := Some(spec.caps.value + {scope})), scope);
    if ParseFrom(args, spec).Ok? {
      ParseKeepsArg(args[1..], Assign(spec.(caps := Some(spec.caps.value + {scope})), scope, "").value, scope);
    }
  }

  lemma FirstArgNoWord(spec: Spec, s: Spec, scope: Scope, rest: seq<string>)
    requires spec.caps.Some? && scope !in spec.caps.value && (scope == Shell ==> spec.shellArgv == [])
    requires ParseFrom(Fielded(s, scope) + rest, spec).Ok?
        && SameArg(ParseFrom(Fielded(s, scope) + rest, spec).value, s, scope)
    ensures !IsWord(ArgField(s, scope))
  {
    if !Prints(s, scope) {
      UnprintedIsNoWord(s, scope);
    } else if IsWord(ArgField(s, scope)) {
      WordTakesOver(s, spec, scope, rest);
    }
  }

  lemma {:induction false} NoArgIsWord(spec: Spec, s: Spec, order: seq<Scope>)
    requires spec.caps.Some? && Distinct(order) && AllQuotable(s)
    requires forall i :: 0 <= i < |order| ==> order[i] !in spec.caps.value
    requires Shell in order ==> spec.shellArgv == []
    requires ParseFrom(FieldsOf(s, order), spec).Ok?
    requires forall scope :: s.Has(scope) ==> SameArg(ParseFrom(FieldsOf(s, order), spec).value, s, scope)
    ensures forall i :: 0 <= i < |order| && s.Has(order[i]) ==> !Prints(s, order[i]) || !IsWord(ArgField(s, order[i]))
    decreases |order|
  {
    if order != [] {
      var rest := order[1..];
      assert forall i :: 0 <= i < |rest| ==> rest[i] == order[i + 1];
      if s.Has(order[0]) {
        var next := Granting(spec, s, order[0]);
        assert next.caps.value == spec.caps.value + {order[0]};
        FirstArgNoWord(spec, s, order[0], FieldsOf(s, rest));
        FieldsStartWithWord(s, rest);
        ParseOne(spec, s, order[0], FieldsOf(s, rest));
        NoArgIsWord(next, s, rest);
      } else {
        assert [] + FieldsOf(s, rest) == FieldsOf(s, rest);
        NoArgIsWord(spec, s, rest);
      }
    }
  }

  lemma UnprintedIsNoWord(s: Spec, scope: Scope)
    requires !Prints(s, scope)
    ensures !IsWord(ArgField(s, scope))
  {
  }

  // ---- The characterization ----

  lemma PrintableIfReadsBack(s: Spec)
    requires s.caps.Some? && ParseString(Render(s)) == Ok(s)
    ensures s.caps.value != {} && OnlyGranted(s) == s && AllPrintable(s)
  {
    ParseStringYields(Render(s));
    ReadsBackTight(s);
    forall scope | s.Has(scope) ensures Quotable(s, scope) { TightIsQuotable(s, scope); }
    SplitRendered(s);
    NoArgIsWord(NOTHING, s, ORDER);
    forall scope | s.Has(scope) ensures !IsWord(ArgField(s, scope)) {
      InOrder(scope);
      var i :| 0 <= i < |ORDER| && ORDER[i] == scope;
      if !Prints(s, scope) { UnprintedIsNoWord(s, scope); }
    }
  }

  /** A grant reads back as itself exactly when it is the unspecified one; or it grants something,
      carries arguments only of what it grants, and each is quotable and not itself a capability
      word: no argument of the command holds a quote, the path holds at most one kind of quote,
      and the targets are trimmed, non-empty and hold no blank, quote or comma. */
  lemma ReadsBackIff(s: Spec)
    ensures ParseString(Render(s)) == Ok(s) <==>
              s == UNSPECIFIED || (s.caps.Some? && s.caps.value != {} && OnlyGranted(s) == s && AllPrintable(s))
  {
    if s.caps == None {
      RenderNothing(s, ORDER);
    } else {
      if ParseString(Render(s)) == Ok(s) { PrintableIfReadsBack(s); }
      if AllPrintable(s) { GrantRoundTrip(s); }
    }
  }
}

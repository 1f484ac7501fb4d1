/**
 When two grants print alike. A printed line is read from the left: the words
 come in a fixed order, so it shows where each argument ends as long as no
 argument can pass for what follows it.
 */
module GrantAlike {
  import opened Wrappers
  import opened GrantFields
  import opened GrantSpec
  import Text

  // ---- Arguments that show where they end ----

  // The words that may follow a capability's own on a line.
  predicate LaterWord(scope: Scope, text: string) {
    match scope
    case Files => text == "proxy" || text == "forward" || text == "shell"
    case Proxy => text == "forward" || text == "shell"
    case Forward => text == "shell"
    case Shell => false
  }

  // As every parsed list is, without blanks, and not one of the words that may follow.
  predicate DelimitedTargets(scope: Scope, ts: seq<string>) {
    ListedTargets(ts) && ' ' !in Text.Join(ts, ",") && !LaterWord(scope, Text.Join(ts, ","))
  }

  predicate Delimited(s: Spec, scope: Scope) {
    match scope
    case Files => !HoldsBothQuotes(s.filesPath) && !LaterWord(Files, s.filesPath)
    case Proxy => DelimitedTargets(Proxy, s.proxyTargets)
    case Forward => DelimitedTargets(Forward, s.forwardTargets)
    case Shell => forall i :: 0 <= i < |s.shellArgv| ==> !HoldsBothQuotes(s.shellArgv[i])
  }

  predicate AllDelimited(s: Spec) { forall scope :: s.Has(scope) ==> Delimited(s, scope) }

  // ---- Reading up to a character ----

  function Until(s: string, c: char): string {
    if s == "" || s[0] == c then "" else [s[0]] + Until(s[1..], c)
  }

  lemma {:induction false} UntilPrefix(a: string, tail: string, c: char)
    requires c !in a && (tail == "" || tail[0] == c)
    ensures Until(a + tail, c) == a
  {
    if a == "" {
      assert a + tail == tail;
    } else {
      assert (a + tail)[1..] == a[1..] + tail;
      UntilPrefix(a[1..], tail, c);
    }
  }

  lemma SameUntil(a: string, b: string, ta: string, tb: string, c: char)
    requires c !in a && (ta == "" || ta[0] == c) && c !in b && (tb == "" || tb[0] == c)
    requires a + ta == b + tb
    ensures a == b && ta == tb
  {
    UntilPrefix(a, ta, c);
    UntilPrefix(b, tb, c);
    assert (a + ta)[|a|..] == ta && (b + tb)[|b|..] == tb;
  }

  // ---- A line, capability by capability ----

  function Shown(s: Spec, scope: Scope): string {
    if Prints(s, scope) then " " + ArgText(s, scope) else ""
  }

  function Suffix(s: Spec, order: seq<Scope>): string {
    if order == [] then ""
    else if s.Has(order[0]) then " " + Word(order[0]) + (Shown(s, order[0]) + Suffix(s, order[1..]))
    else Suffix(s, order[1..])
  }

  lemma Reassociate(b: string, word: string, shown: string, tail: string)
    ensures (b + " " + word + shown) + tail == b + (" " + word + (shown + tail))
    ensures (word + shown) + tail == (" " + word + (shown + tail))[1..]
  {
  }

  lemma NamedShown(s: Spec, scope: Scope, named: string)
    ensures (if Prints(s, scope) then named + " " + ArgText(s, scope) else named) == named + Shown(s, scope)
  {
    if !Prints(s, scope) { assert named + "" == named; }
  }

  lemma {:induction false} RenderIsSuffix(s: Spec, order: seq<Scope>, b: string)
    ensures RenderFrom(s, order, b) ==
              if b != "" then b + Suffix(s, order) else if Suffix(s, order) == "" then "" else Suffix(s, order)[1..]
    decreases |order|
  {
    if order == [] {
      assert b + "" == b;
    } else if s.Has(order[0]) {
      var word, shown, tail := Word(order[0]), Shown(s, order[0]), Suffix(s, order[1..]);
      var named := (if b == "" then "" else b + " ") + word;
      WordPlain(order[0]);
      NamedShown(s, order[0], named);
      RenderIsSuffix(s, order[1..], named + shown);
      Reassociate(b, word, shown, tail);
      assert b == "" ==> named == word;
    } else {
      RenderIsSuffix(s, order[1..], b);
    }
  }

  // Every word that follows the first of `order` may follow it.
  predicate Ordered(order: seq<Scope>) {
    forall i, j :: 0 <= i < j < |order| ==> LaterWord(order[i], Word(order[j]))
  }

  lemma WordPlain(scope: Scope)
    ensures Word(scope) != "" && ' ' !in Word(scope) && !IsQuote(Word(scope)[0]) && !LaterWord(scope, Word(scope))
  {
  }

  // What follows an argument is nothing, or a blank and one of the words left.
  ghost predicate StartsWithWord(tail: string, order: seq<Scope>) {
    tail != "" ==> tail[0] == ' ' && exists i :: 0 <= i < |order| && Until(tail[1..], ' ') == Word(order[i])
  }

  lemma WordFirst(word: string, shown: string, tail: string)
    requires ' ' !in word && (shown == "" || shown[0] == ' ') && (tail == "" || tail[0] == ' ')
    ensures var line := " " + word + (shown + tail);
      line != "" && line[0] == ' ' && Until(line[1..], ' ') == word && line[1..] == word + (shown + tail)
  {
    var line := " " + word + (shown + tail);
    assert line[1..] == word + (shown + tail);
    assert shown == "" ==> shown + tail == tail;
    UntilPrefix(word, shown + tail, ' ');
  }

  lemma {:induction false} SuffixStarts(s: Spec, order: seq<Scope>)
    ensures StartsWithWord(Suffix(s, order), order)
  {
    if order != [] {
      var rest := order[1..];
      SuffixStarts(s, rest);
      if s.Has(order[0]) {
        WordPlain(order[0]);
        WordFirst(Word(order[0]), Shown(s, order[0]), Suffix(s, rest));
      } else if Suffix(s, rest) != "" {
        var i :| 0 <= i < |rest| && Until(Suffix(s, rest)[1..], ' ') == Word(rest[i]);
        assert order[i + 1] == rest[i];
      }
    }
  }

  // ---- Quoted fields ----

  lemma QuoteForms(s: string)
    ensures var q := QuoteField(s);
      if s != "" && NoSpecial(s) then q == s && !IsSpecial(q[0])
      else q == [q[0]] + s + [q[0]] && IsQuote(q[0]) && (!HoldsBothQuotes(s) ==> q[0] !in s)
  {
  }

  /** quoteField never gives two fields one form. */
  lemma QuoteInjective(s: string, t: string)
    requires QuoteField(s) == QuoteField(t)
    ensures s == t
  {
    QuoteForms(s);
    QuoteForms(t);
    var q := QuoteField(s);
    if !(s != "" && NoSpecial(s)) && !(t != "" && NoSpecial(t)) {
      assert s == q[1..|q| - 1] && t == q[1..|q| - 1];
    }
  }

  lemma QuoteDelimits(s: string, t: string, ts: string, tt: string)
    requires !HoldsBothQuotes(s) && !HoldsBothQuotes(t)
    requires (ts == "" || ts[0] == ' ') && (tt == "" || tt[0] == ' ')
    requires QuoteField(s) + ts == QuoteField(t) + tt
    ensures s == t && ts == tt
  {
    QuoteForms(s);
    QuoteForms(t);
    var qs, qt := QuoteField(s), QuoteField(t);
    assert (qs + ts)[0] == qs[0] && (qt + tt)[0] == qt[0];
    if s != "" && NoSpecial(s) {
      assert forall c :: c in s ==> !IsSpecial(c);
      assert forall c :: c in t ==> !IsSpecial(c);
      SameUntil(s, t, ts, tt, ' ');
    } else {
      var q := qs[0];
      assert (qs + ts)[1..] == s + ([q] + ts) && (qt + tt)[1..] == t + ([q] + tt);
      SameUntil(s, t, [q] + ts, [q] + tt, q);
      assert ([q] + ts)[1..] == ts && ([q] + tt)[1..] == tt;
    }
  }

  // ---- One capability ----

  lemma CommandsSame(a: seq<string>, b: seq<string>)
    requires forall i :: 0 <= i < |a| ==> !HoldsBothQuotes(a[i])
    requires forall i :: 0 <= i < |b| ==> !HoldsBothQuotes(b[i])
    requires QuoteCommand(a) == QuoteCommand(b)
    ensures a == b
  {
    QuoteInjective(JoinFields(a), JoinFields(b));
    SplitInvertsJoin(a);
    SplitInvertsJoin(b);
  }

  lemma TargetsSame(a: seq<string>, b: seq<string>)
    requires ListedTargets(a) && ListedTargets(b) && a != [] && b != [] && Text.Join(a, ",") == Text.Join(b, ",")
    ensures a == b
  {
    Text.SplitOnInvertsJoin(a, ',');
    Text.SplitOnInvertsJoin(b, ',');
  }

  // Two printed arguments of one capability, with what follows them.
  lemma SameArgText(a: Spec, b: Spec, scope: Scope, ta: string, tb: string)
    requires Prints(a, scope) && Prints(b, scope) && Delimited(a, scope) && Delimited(b, scope)
    requires (ta == "" || ta[0] == ' ') && (tb == "" || tb[0] == ' ') && (scope == Shell ==> ta == tb == "")
    requires ArgText(a, scope) + ta == ArgText(b, scope) + tb
    ensures SameArg(a, b, scope) && ta == tb
  {
    match scope
    case Files => QuoteDelimits(a.filesPath, b.filesPath, ta, tb);
    case Proxy =>
      SameUntil(ArgText(a, scope), ArgText(b, scope), ta, tb, ' ');
      TargetsSame(a.proxyTargets, b.proxyTargets);
    case Forward =>
      SameUntil(ArgText(a, scope), ArgText(b, scope), ta, tb, ' ');
      TargetsSame(a.forwardTargets, b.forwardTargets);
    case Shell =>
      assert ArgText(a, scope) + "" == ArgText(a, scope) && ArgText(b, scope) + "" == ArgText(b, scope);
      CommandsSame(a.shellArgv, b.shellArgv);
  }

  // An argument is not mistaken for a word that may follow its own.
  lemma ArgIsNoLaterWord(s: Spec, scope: Scope, tail: string, word: Scope)
    requires Prints(s, scope) && Delimited(s, scope) && LaterWord(scope, Word(word)) && (tail == "" || tail[0] == ' ')
    ensures Until(ArgText(s, scope) + tail, ' ') != Word(word)
  {
    WordPlain(word);
    var arg := ArgText(s, scope);
    match scope
    case Files =>
      QuoteForms(s.filesPath);
      assert (arg + tail)[0] == arg[0];
      if NoSpecial(s.filesPath) {
        assert forall c :: c in s.filesPath ==> !IsSpecial(c);
        UntilPrefix(arg, tail, ' ');
      }
    case Proxy => UntilPrefix(arg, tail, ' ');
    case Forward => UntilPrefix(arg, tail, ' ');
    case Shell =>
  }

  lemma AfterBlank(text: string, tail: string)
    ensures var line := " " + text + tail; line != "" && line[0] == ' ' && line[1..] == text + tail
  {
  }

  lemma ArgAgainstNone(s: Spec, scope: Scope, tail: string, other: string, rest: seq<Scope>)
    requires Prints(s, scope) && Delimited(s, scope) && (tail == "" || tail[0] == ' ')
    requires forall i :: 0 <= i < |rest| ==> LaterWord(scope, Word(rest[i]))
    requires StartsWithWord(other, rest)
    ensures " " + ArgText(s, scope) + tail != other
  {
    var arg := ArgText(s, scope);
    AfterBlank(arg, tail);
    forall i | 0 <= i < |rest| ensures Until(arg + tail, ' ') != Word(rest[i]) {
      ArgIsNoLaterWord(s, scope, tail, rest[i]);
    }
  }

  // ---- Whole lines ----

  predicate SameGrant(a: Spec, b: Spec, scope: Scope) {
    (a.Has(scope) <==> b.Has(scope)) && (a.Has(scope) ==> SameArg(a, b, scope))
  }

  lemma UnprintedSame(a: Spec, b: Spec, scope: Scope)
    requires !Prints(a, scope) && !Prints(b, scope)
    ensures SameArg(a, b, scope)
  {
  }

  lemma SameAfterWord(word: string, a: string, b: string)
    requires " " + word + a == " " + word + b
    ensures a == b
  {
    var n := |word| + 1;
    assert (" " + word + a)[n..] == a && (" " + word + b)[n..] == b;
  }

  // What follows one word on both lines.
  lemma SameBody(a: Spec, b: Spec, scope: Scope, ta: string, tb: string, rest: seq<Scope>)
    requires Delimited(a, scope) && Delimited(b, scope) && Shown(a, scope) + ta == Shown(b, scope) + tb
    requires forall i :: 0 <= i < |rest| ==> LaterWord(scope, Word(rest[i]))
    requires StartsWithWord(ta, rest) && StartsWithWord(tb, rest)
    ensures SameArg(a, b, scope) && ta == tb
  {
    if Prints(a, scope) && Prints(b, scope) {
      AfterBlank(ArgText(a, scope), ta);
      AfterBlank(ArgText(b, scope), tb);
      SameArgText(a, b, scope, ta, tb);
    } else if Prints(a, scope) {
      assert "" + tb == tb;
      ArgAgainstNone(a, scope, ta, tb, rest);
    } else if Prints(b, scope) {
      assert "" + ta == ta;
      ArgAgainstNone(b, scope, tb, ta, rest);
    } else {
      assert "" + ta == ta && "" + tb == tb;
      UnprintedSame(a, b, scope);
    }
  }

  // Both hold the first capability: its argument is the same, and so is the rest.
  lemma SameHead(a: Spec, b: Spec, order: seq<Scope>)
    requires order != [] && Ordered(order) && AllDelimited(a) && AllDelimited(b)
    requires a.Has(order[0]) && b.Has(order[0]) && Suffix(a, order) == Suffix(b, order)
    ensures SameArg(a, b, order[0]) && Suffix(a, order[1..]) == Suffix(b, order[1..])
  {
    var scope, rest := order[0], order[1..];
    var ta, tb := Suffix(a, rest), Suffix(b, rest);
    SuffixStarts(a, rest);
    SuffixStarts(b, rest);
    SameAfterWord(Word(scope), Shown(a, scope) + ta, Shown(b, scope) + tb);
    forall i | 0 <= i < |rest| ensures LaterWord(scope, Word(rest[i])) { assert rest[i] == order[i + 1]; }
    SameBody(a, b, scope, ta, tb, rest);
  }

  // A line that names the capability is not one that goes on to a later word.
  lemma OneNamesIt(a: Spec, b: Spec, order: seq<Scope>)
    requires order != [] && Ordered(order) && a.Has(order[0]) && !b.Has(order[0])
    ensures Suffix(a, order) != Suffix(b, order)
  {
    var scope, rest := order[0], order[1..];
    SuffixStarts(a, rest);
    SuffixStarts(b, rest);
    WordPlain(scope);
    WordFirst(Word(scope), Shown(a, scope), Suffix(a, rest));
    forall i | 0 <= i < |rest| ensures Word(rest[i]) != Word(scope) { assert rest[i] == order[i + 1]; }
  }

  lemma {:induction false} SameSuffix(a: Spec, b: Spec, order: seq<Scope>)
    requires Ordered(order) && AllDelimited(a) && AllDelimited(b) && Suffix(a, order) == Suffix(b, order)
    ensures forall i :: 0 <= i < |order| ==> SameGrant(a, b, order[i])
    decreases |order|
  {
    if order != [] {
      var rest := order[1..];
      assert forall i :: 0 <= i < |rest| ==> rest[i] == order[i + 1];
      if a.Has(order[0]) && b.Has(order[0]) {
        SameHead(a, b, order);
      } else if a.Has(order[0]) {
        OneNamesIt(a, b, order);
      } else if b.Has(order[0]) {
        OneNamesIt(b, a, order);
      }
      SameSuffix(a, b, rest);
    }
  }

  lemma GrantsSame(a: Spec, b: Spec)
    requires a.caps.Some? && b.caps.Some? && forall scope :: SameGrant(a, b, scope)
    ensures OnlyGranted(a) == OnlyGranted(b)
  {
    assert forall scope :: scope in a.caps.value <==> a.Has(scope);
    assert forall scope :: scope in b.caps.value <==> b.Has(scope);
    assert forall scope :: SameGrant(a, b, scope) ==> (scope in a.caps.value <==> scope in b.caps.value);
    assert a.caps.value == b.caps.value;
    assert SameGrant(a, b, Files) && SameGrant(a, b, Proxy) && SameGrant(a, b, Forward) && SameGrant(a, b, Shell);
  }

  lemma SameFromRender(a: Spec, b: Spec, order: seq<Scope>)
    requires Ordered(order) && AllDelimited(a) && AllDelimited(b)
    requires RenderFrom(a, order, "") == RenderFrom(b, order, "")
    ensures forall i :: 0 <= i < |order| ==> SameGrant(a, b, order[i])
  {
    RenderIsSuffix(a, order, "");
    RenderIsSuffix(b, order, "");
    SuffixStarts(a, order);
    SuffixStarts(b, order);
    SuffixFromRender(Suffix(a, order), Suffix(b, order), order);
    SameSuffix(a, b, order);
  }

  /** Grants whose arguments show where they end print alike exactly when they hold the same
      capabilities with the same arguments. */
  lemma PrintedAlike(a: Spec, b: Spec)
    requires a.caps.Some? && b.caps.Some? && AllDelimited(a) && AllDelimited(b)
    ensures Render(a) == Render(b) <==> OnlyGranted(a) == OnlyGranted(b)
  {
    if OnlyGranted(a) == OnlyGranted(b) {
      RenderGranted(a, ORDER, "");
      RenderGranted(b, ORDER, "");
    } else if Render(a) == Render(b) {
      SameFromRender(a, b, ORDER);
      forall scope ensures SameGrant(a, b, scope) {
        InOrder(scope);
        var i :| 0 <= i < |ORDER| && ORDER[i] == scope;
      }
      GrantsSame(a, b);
    }
  }

  lemma SuffixFromRender(a: string, b: string, order: seq<Scope>)
    requires StartsWithWord(a, order) && StartsWithWord(b, order)
    requires (if a == "" then "" else a[1..]) == (if b == "" then "" else b[1..])
    ensures a == b
  {
    if a != "" && b != "" {
      assert a == [' '] + a[1..] && b == [' '] + b[1..];
    } else if a != "" || b != "" {
      var one := if a != "" then a else b;
      var i :| 0 <= i < |order| && Until(one[1..], ' ') == Word(order[i]);
      WordPlain(order[i]);
    }
  }

  // ---- Lines that print alike and grant differently ----

  function Part(s: Spec, scope: Scope): string {
    if s.Has(scope) then " " + Word(scope) + Shown(s, scope) else ""
  }

  lemma SuffixStep(s: Spec, order: seq<Scope>)
    requires order != []
    ensures Suffix(s, order) == Part(s, order[0]) + Suffix(s, order[1..])
  {
    var word, shown, tail := " " + Word(order[0]), Shown(s, order[0]), Suffix(s, order[1..]);
    assert word + (shown + tail) == word + shown + tail && "" + tail == tail;
  }

  lemma SuffixParts(s: Spec)
    ensures Suffix(s, ORDER) == Part(s, Files) + (Part(s, Proxy) + (Part(s, Forward) + Part(s, Shell)))
  {
    SuffixStep(s, ORDER);
    assert ORDER[1..] == [Proxy, Forward, Shell];
    SuffixStep(s, [Proxy, Forward, Shell]);
    assert [Proxy, Forward, Shell][1..] == [Forward, Shell];
    SuffixStep(s, [Forward, Shell]);
    assert [Forward, Shell][1..] == [Shell];
    SuffixStep(s, [Shell]);
    assert [Shell][1..] == [] && Part(s, Shell) + "" == Part(s, Shell);
  }

  lemma PartsPrintAlike(a: Spec, b: Spec)
    requires Part(a, Files) + (Part(a, Proxy) + (Part(a, Forward) + Part(a, Shell)))
          == Part(b, Files) + (Part(b, Proxy) + (Part(b, Forward) + Part(b, Shell)))
    ensures Render(a) == Render(b)
  {
    SuffixParts(a);
    SuffixParts(b);
    RenderIsSuffix(a, ORDER, "");
    RenderIsSuffix(b, ORDER, "");
  }

  function Targets(caps: set<Scope>, proxy: seq<string>, forward: seq<string>): Spec {
    Spec(Some(caps), [], "", proxy, forward)
  }

  lemma TargetsParts(caps: set<Scope>, proxy: string, forward: string)
    requires Proxy in caps && Files !in caps && Shell !in caps
    ensures var s := Targets(caps, [proxy], if Forward in caps then [forward] else []);
      && Part(s, Proxy) == " proxy" + (" " + proxy) && Part(s, Files) == Part(s, Shell) == ""
      && Part(s, Forward) == if Forward in caps then " forward" + (" " + forward) else ""
  {
  }

  lemma Glue(t: string, u: string)
    ensures "" + ((" proxy" + (" " + (t + " forward " + u))) + ("" + ""))
         == "" + ((" proxy" + (" " + t)) + ((" forward" + (" " + u)) + ""))
  {
  }

  /** One target with blanks prints as a target and another capability with its own. */
  lemma BlankCollides(t: string, u: string)
    ensures Render(Targets({Proxy}, [t + " forward " + u], [])) == Render(Targets({Proxy, Forward}, [t], [u]))
  {
    TargetsParts({Proxy}, t + " forward " + u, "");
    TargetsParts({Proxy, Forward}, t, u);
    Glue(t, u);
    PartsPrintAlike(Targets({Proxy}, [t + " forward " + u], []), Targets({Proxy, Forward}, [t], [u]));
  }

  lemma GlueWord(word: string)
    ensures "" + ((" proxy" + (" " + word)) + ("" + "")) == "" + ((" proxy" + "") + ((" " + word + "") + ""))
  {
  }

  lemma WordsParts()
    ensures var s := Targets({Proxy, Forward}, [], []);
      && Part(s, Proxy) == " proxy" + "" && Part(s, Forward) == " " + Word(Forward) + ""
      && Part(s, Files) == Part(s, Shell) == ""
  {
  }

  /** So does a target that is a later capability's word. */
  lemma WordCollides()
    ensures Render(Targets({Proxy}, [Word(Forward)], [])) == Render(Targets({Proxy, Forward}, [], []))
  {
    TargetsParts({Proxy}, Word(Forward), "");
    WordsParts();
    GlueWord(Word(Forward));
    PartsPrintAlike(Targets({Proxy}, [Word(Forward)], []), Targets({Proxy, Forward}, [], []));
  }

  lemma SingleQuoted(s: string)
    requires '"' in s
    ensures QuoteField(s) == "'" + s + "'"
  {
    QuoteForms(s);
    var i :| 0 <= i < |s| && s[i] == '"';
    assert IsSpecial(s[i]);
  }

  function FilesAnd(path: string, argv: seq<string>): Spec {
    Spec(Some(if argv == [] then {Files} else {Files, Shell}), argv, path, [], [])
  }

  lemma GluePath(x: string, y: string)
    ensures "'" + (x + "' shell '" + y) + "'" == ("'" + x + "'") + (" shell" + (" " + ("'" + y + "'")))
  {
  }

  /** A path with both kinds of quote prints as a path and a command. */
  lemma PathCollides(path: string, argv: seq<string>)
    requires argv != [] && '"' in path && '"' in JoinFields(argv)
    ensures Render(FilesAnd(path + "' shell '" + JoinFields(argv), [])) == Render(FilesAnd(path, argv))
  {
    var joined := JoinFields(argv);
    var long := path + "' shell '" + joined;
    SingleQuoted(path);
    SingleQuoted(joined);
    SingleQuoted(long);
    GluePath(path, joined);
    FilesParts(long, []);
    FilesParts(path, argv);
    AfterFiles(QuoteField(path), " shell" + (" " + QuoteField(joined)));
    PartsPrintAlike(FilesAnd(long, []), FilesAnd(path, argv));
  }

  lemma FilesParts(path: string, argv: seq<string>)
    requires path != ""
    ensures var s := FilesAnd(path, argv);
      && Part(s, Files) == " files" + (" " + QuoteField(path)) && Part(s, Proxy) == Part(s, Forward) == ""
      && Part(s, Shell) == if argv == [] then "" else " shell" + (" " + QuoteCommand(argv))
  {
    var s := FilesAnd(path, argv);
    assert s.Has(Files) && !s.Has(Proxy) && !s.Has(Forward) && (s.Has(Shell) <==> argv != []);
  }

  lemma AfterFiles(a: string, b: string)
    ensures (" files" + (" " + (a + b))) + ("" + ("" + "")) == (" files" + (" " + a)) + ("" + ("" + b))
  {
  }

  lemma GlueArguments(s: string, t: string)
    ensures "'" + (s + "' '" + t) + "'" == ("'" + s + "'") + " " + ("'" + t + "'")
  {
  }

  lemma JoinedAlike(s: string, t: string)
    requires '"' in s && '"' in t
    ensures JoinFields([s + "' '" + t]) == JoinFields([s, t])
  {
    SingleQuoted(s);
    SingleQuoted(t);
    SingleQuoted(s + "' '" + t);
    GlueArguments(s, t);
    assert [s, t][1..] == [t];
    assert JoinFields([s, t]) == QuoteField(s) + " " + JoinFields([t]);
  }

  /** And an argument with both prints as two arguments. */
  lemma ArgumentsCollide(s: string, t: string, path: string)
    requires '"' in s && '"' in t && path != ""
    ensures Render(FilesAnd(path, [s + "' '" + t])) == Render(FilesAnd(path, [s, t]))
  {
    JoinedAlike(s, t);
    FilesParts(path, [s + "' '" + t]);
    FilesParts(path, [s, t]);
    PartsPrintAlike(FilesAnd(path, [s + "' '" + t]), FilesAnd(path, [s, t]));
  }

  /** Both colliding grants are what lines of a link file read as. */
  lemma CollidingLines(t: string, u: string)
    requires PlainTarget(t) && PlainTarget(u) && !IsWord(t) && !IsWord(u)
    ensures ParseString(JoinFields(["proxy", t + " forward " + u])) == Ok(Targets({Proxy}, [t + " forward " + u], []))
    ensures ParseString(Render(Targets({Proxy, Forward}, [t], [u]))) == Ok(Targets({Proxy, Forward}, [t], [u]))
  {
    OneTarget(t, u);
    ProxyLine(t + " forward " + u);
    PlainTargetsRead(t, u);
  }

  lemma ProxyLine(arg: string)
    requires !IsWord(arg) && SplitList(arg) == [arg] && !HoldsBothQuotes(arg)
    ensures ParseString(JoinFields(["proxy", arg])) == Ok(Targets({Proxy}, [arg], []))
  {
    ReadsFields(["proxy", arg]);
    ProxyRead(arg);
  }

  lemma PlainTargetsRead(t: string, u: string)
    requires PlainTarget(t) && PlainTarget(u) && !IsWord(t) && !IsWord(u)
    ensures ParseString(Render(Targets({Proxy, Forward}, [t], [u]))) == Ok(Targets({Proxy, Forward}, [t], [u]))
  {
    assert Text.Join([t], ",") == t && Text.Join([u], ",") == u;
    GrantRoundTrip(Targets({Proxy, Forward}, [t], [u]));
  }

  lemma ProxyRead(arg: string)
    requires !IsWord(arg) && SplitList(arg) == [arg]
    ensures ParseFrom(["proxy", arg], NOTHING) == Ok(Targets({Proxy}, [arg], []))
  {
    var fields := ["proxy", arg];
    assert fields[2..] == [] && {} + {Proxy} == {Proxy};
    assert ScopeOf(fields[0]) == Some(Proxy) && TakesNext(fields);
    var named := NOTHING.(caps := Some({Proxy}));
    assert Assign(named, Proxy, arg) == Ok(Targets({Proxy}, [arg], []));
    assert ParseFrom([], Targets({Proxy}, [arg], [])) == Ok(Targets({Proxy}, [arg], []));
  }

  lemma OneTarget(t: string, u: string)
    requires PlainTarget(t) && PlainTarget(u)
    ensures var arg := t + " forward " + u;
      SplitList(arg) == [arg] && !IsWord(arg) && !HoldsBothQuotes(arg) && arg != ""
  {
    var arg := t + " forward " + u;
    assert forall c :: c in t || c in u ==> !IsSpecial(c) && c != ',';
    assert forall c :: c in arg ==> c != ',' && !IsQuote(c);
    assert arg[|t|] == ' ' && arg[0] == t[0] && arg[|arg| - 1] == u[|u| - 1];
    assert ' ' !in "files" && ' ' !in "proxy" && ' ' !in "forward" && ' ' !in "shell";
    Text.SplitOnInvertsJoin([arg], ',');
    TrimmedKept([arg]);
  }

  lemma ReadsFields(fields: seq<string>)
    requires fields != [] && forall i :: 0 <= i < |fields| ==> !HoldsBothQuotes(fields[i])
    ensures ParseString(JoinFields(fields)) == ParseFrom(fields, NOTHING)
  {
    SplitInvertsJoin(fields);
  }
}

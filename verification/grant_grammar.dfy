/**
 The grammar of a grant line, read twice over: a line as marks, and its fields
 as clauses. Every line is one or the other thing, and this is what it means.
 */
module GrantGrammar {
  import opened Wrappers
  import opened GrantFields
  import opened GrantSpec

  // ---- A line as marks ----

  // A blank, a character by itself, or a stretch between two quotes of one kind.
  datatype Mark = Blank(c: char) | Plain(c: char) | Quoted(q: char, text: string)

  predicate ValidMark(m: Mark) {
    match m
    case Blank(c) => IsBlank(c)
    case Plain(c) => !IsSpecial(c)
    case Quoted(q, text) => IsQuote(q) && q !in text
  }

  predicate ValidMarks(marks: seq<Mark>) { forall i :: 0 <= i < |marks| ==> ValidMark(marks[i]) }

  function MarkText(m: Mark): string {
    match m
    case Blank(c) => [c]
    case Plain(c) => [c]
    case Quoted(q, text) => [q] + text + [q]
  }

  function LineOf(marks: seq<Mark>): string {
    if marks == [] then "" else MarkText(marks[0]) + LineOf(marks[1..])
  }

  function Listed(token: Option<string>): seq<string> { if token == None then [] else [token.value] }

  // The token with more text in it, begun if need be.
  function Longer(token: Option<string>, more: string): Option<string> {
    Some((if token == None then "" else token.value) + more)
  }

  // Blanks end a token; everything else adds its text to one, even none at all between quotes.
  function FieldsFrom(token: Option<string>, marks: seq<Mark>): seq<string>
    decreases |marks|
  {
    if marks == [] then Listed(token)
    else match marks[0]
      case Blank(_) => Listed(token) + FieldsFrom(None, marks[1..])
      case Plain(c) => FieldsFrom(Longer(token, [c]), marks[1..])
      case Quoted(_, text) => FieldsFrom(Longer(token, text), marks[1..])
  }

  function TokenOf(c: Scanner): Option<string> { if c.open then Some(c.cur) else None }

  predicate Resting(c: Scanner) { c.quote == None && (!c.open ==> c.cur == "") }

  // A mark read: a blank ends the token, any other adds its text.
  predicate MarkRead(c: Scanner, m: Mark, end: Scanner) {
    match m
    case Blank(_) => end.out == c.out + Listed(TokenOf(c)) && TokenOf(end) == None
    case Plain(x) => end.out == c.out && TokenOf(end) == Longer(TokenOf(c), [x])
    case Quoted(_, text) => end.out == c.out && TokenOf(end) == Longer(TokenOf(c), text)
  }

  lemma ScanMark(c: Scanner, m: Mark)
    requires Resting(c) && ValidMark(m)
    ensures Resting(Scan(c, MarkText(m))) && MarkRead(c, m, Scan(c, MarkText(m)))
  {
    match m
    case Blank(x) => ScanOne(c, x); assert c.out + [] == c.out;
    case Plain(x) => ScanOne(c, x);
    case Quoted(q, text) => ScanWrapped(c, q, text);
  }

  lemma ScanOne(c: Scanner, x: char)
    ensures Scan(c, [x]) == c.Step(x)
  {
    assert [x][1..] == "" && Scan(c.Step(x), "") == c.Step(x);
  }

  lemma Reassociate(a: seq<string>, b: seq<string>, c: seq<string>)
    ensures (a + b) + c == a + (b + c)
  {
  }

  lemma {:induction false} ScanMarks(c: Scanner, marks: seq<Mark>)
    requires Resting(c) && ValidMarks(marks)
    ensures var end := Scan(c, LineOf(marks));
      Resting(end) && end.Finish() == Split(c.out + FieldsFrom(TokenOf(c), marks))
    decreases |marks|
  {
    if marks == [] {
      assert c.out + [] == c.out;
    } else {
      var m, rest := marks[0], marks[1..];
      ScanMark(c, m);
      ScanAppend(c, MarkText(m), LineOf(rest));
      var next := Scan(c, MarkText(m));
      ScanMarks(next, rest);
      Reassociate(c.out, Listed(TokenOf(c)), FieldsFrom(None, rest));
    }
  }

  // What may be left of a line: nothing, or a quote that is never closed.
  predicate OpenTail(tail: string) { tail == "" || (IsQuote(tail[0]) && tail[0] !in tail[1..]) }

  /** A line of marks splits into the fields they spell, and one with a quote left open after them is
      refused for that quote. */
  lemma SplitMarks(marks: seq<Mark>, tail: string)
    requires ValidMarks(marks) && OpenTail(tail)
    ensures SplitFields(LineOf(marks) + tail)
         == if tail == "" then Split(FieldsFrom(None, marks)) else Unbalanced(tail[0])
  {
    ScanMarks(START, marks);
    ScanAppend(START, LineOf(marks), tail);
    if tail == "" {
      assert LineOf(marks) + tail == LineOf(marks) && [] + FieldsFrom(None, marks) == FieldsFrom(None, marks);
    } else {
      var end := Scan(START, LineOf(marks));
      ScanInside(end.Step(tail[0]), tail[1..]);
    }
  }

  lemma {:induction false} FirstOf(s: string, q: char) returns (k: nat)
    requires q in s
    ensures k < |s| && s[k] == q && q !in s[..k]
  {
    if s[0] == q {
      k := 0;
    } else {
      k := FirstOf(s[1..], q);
      assert s[..k + 1] == [s[0]] + s[1..][..k];
      k := k + 1;
    }
  }

  lemma LineWith(m: Mark, marks: seq<Mark>)
    ensures LineOf([m] + marks) == MarkText(m) + LineOf(marks)
    ensures ValidMark(m) && ValidMarks(marks) ==> ValidMarks([m] + marks)
  {
    assert ([m] + marks)[1..] == marks;
  }

  lemma TextReassociate(a: string, b: string, c: string)
    ensures a + (b + c) == (a + b) + c
  {
  }

  // The first mark of a line, unless it begins with a quote that is never closed.
  lemma FirstMark(s: string) returns (m: Mark, rest: string)
    requires s != "" && !(IsQuote(s[0]) && s[0] !in s[1..])
    ensures ValidMark(m) && s == MarkText(m) + rest && |rest| < |s|
  {
    if IsQuote(s[0]) {
      var k := FirstOf(s[1..], s[0]);
      m, rest := Quoted(s[0], s[1..][..k]), s[k + 2..];
    } else {
      m, rest := if IsBlank(s[0]) then Blank(s[0]) else Plain(s[0]), s[1..];
    }
  }

  /** Every line is marks, with a quote left open after them or not. */
  lemma {:induction false} EveryLine(s: string) returns (marks: seq<Mark>, tail: string)
    ensures ValidMarks(marks) && OpenTail(tail) && s == LineOf(marks) + tail
    decreases |s|
  {
    if OpenTail(s) {
      marks, tail := [], s;
      assert s == "" + s;
    } else {
      var m, rest := FirstMark(s);
      marks, tail := EveryLine(rest);
      TextReassociate(MarkText(m), LineOf(marks), tail);
      LineWith(m, marks);
      marks := [m] + marks;
    }
  }

  ghost predicate LeftOpen(s: string, marks: seq<Mark>, tail: string) {
    ValidMarks(marks) && OpenTail(tail) && tail != "" && s == LineOf(marks) + tail
  }

  ghost predicate LeavesOpen(s: string, q: char) {
    exists marks, tail :: LeftOpen(s, marks, tail) && tail[0] == q
  }

  /** A line is refused exactly when it leaves a quote open, and for that quote. */
  lemma RefusedIffLeftOpen(s: string, q: char)
    ensures SplitFields(s) == Unbalanced(q) <==> LeavesOpen(s, q)
  {
    if SplitFields(s) == Unbalanced(q) {
      var marks, tail := EveryLine(s);
      SplitMarks(marks, tail);
      assert LeftOpen(s, marks, tail);
    } else if LeavesOpen(s, q) {
      var marks, tail :| LeftOpen(s, marks, tail) && tail[0] == q;
      SplitMarks(marks, tail);
    }
  }

  // A character that stands for itself wherever it is.
  predicate Ordinary(c: char) { c != ' ' && c != '\t' && c != '\n' && c != '\r' && c != '\'' && c != '"' }

  predicate AllOrdinary(s: string) { s != "" && forall i :: 0 <= i < |s| ==> Ordinary(s[i]) }

  /** A blank, a tab or either line end between two words separates them. */
  lemma AnyBlankSeparates(a: string, b: string, blank: char)
    requires AllOrdinary(a) && AllOrdinary(b) && (blank == ' ' || blank == '\t' || blank == '\n' || blank == '\r')
    ensures SplitFields(a + ([blank] + b)) == Split([a, b])
  {
    ScanWord([], a);
    ScanAppend(START, a, [blank] + b);
    var c := Scanner([], a, None, true);
    ScanAppend(c, [blank], b);
    ScanOne(c, blank);
    assert [] + [a] == [a];
    ScanWord([a], b);
    assert [a] + [b] == [a, b];
  }

  lemma ScanWord(out: seq<string>, word: string)
    requires AllOrdinary(word)
    ensures Scan(Scanner(out, "", None, false), word) == Scanner(out, word, None, true)
  {
    ScanInside(Scanner(out, "", None, false), word);
    assert "" + word == word;
  }

  // ---- Fields as clauses ----

  // A capability's word, and the argument after it if one is given.
  datatype Clause = Clause(scope: Scope, arg: Option<string>)

  predicate ValidClauses(clauses: seq<Clause>) {
    forall i :: 0 <= i < |clauses| && clauses[i].arg.Some? ==> !IsWord(clauses[i].arg.value)
  }

  function ClauseFields(c: Clause): seq<string> { [Word(c.scope)] + Listed(c.arg) }

  function ArgsOf(clauses: seq<Clause>): seq<string> {
    if clauses == [] then [] else ClauseFields(clauses[0]) + ArgsOf(clauses[1..])
  }

  // What may be left of the fields: nothing, or a field that is neither a word nor an argument.
  predicate StrayTail(clauses: seq<Clause>, rest: seq<string>) {
    rest == [] || (!IsWord(rest[0]) && (clauses == [] || clauses[|clauses| - 1].arg.Some?))
  }

  predicate Once(clauses: seq<Clause>) {
    forall i, j :: 0 <= i < j < |clauses| ==> clauses[i].scope != clauses[j].scope
  }

  function Given(c: Clause): string { if c.arg == None then "" else c.arg.value }

  // A shell's command can itself be split.
  predicate CommandsSplit(clauses: seq<Clause>) {
    forall i :: 0 <= i < |clauses| && clauses[i].scope == Shell ==> SplitFields(Given(clauses[i])).Split?
  }

  predicate Unnamed(clauses: seq<Clause>, caps: set<Scope>) {
    forall i :: 0 <= i < |clauses| ==> clauses[i].scope !in caps
  }

  function Scopes(clauses: seq<Clause>): set<Scope> { set i | 0 <= i < |clauses| :: clauses[i].scope }

  // The one argument each capability was given is the one it has.
  ghost predicate ArgHeld(spec: Spec, c: Clause) {
    match c.scope
    case Shell => SplitFields(Given(c)) == Split(spec.shellArgv)
    case Files => spec.filesPath == Given(c)
    case Proxy => spec.proxyTargets == SplitList(Given(c))
    case Forward => spec.forwardTargets == SplitList(Given(c))
  }

  ghost predicate Means(spec: Spec, before: Spec, clauses: seq<Clause>) {
    && spec.caps.Some? && before.caps.Some? && spec.caps.value == before.caps.value + Scopes(clauses)
    && (forall i :: 0 <= i < |clauses| ==> ArgHeld(spec, clauses[i]))
    && (forall scope :: scope !in Scopes(clauses) ==> SameArg(spec, before, scope))
  }

  lemma EmptySplits()
    ensures SplitFields("") == Split([])
  {
  }

  // What one clause makes of the grant so far.
  ghost predicate Reads(spec: Spec, c: Clause, next: Spec)
    requires spec.caps.Some?
  {
    && next.caps == Some(spec.caps.value + {c.scope}) && ArgHeld(next, c)
    && forall scope :: scope != c.scope ==> SameArg(next, spec, scope)
  }

  predicate Fails(spec: Spec, c: Clause)
    requires spec.caps.Some?
  {
    c.scope in spec.caps.value || (c.scope == Shell && SplitFields(Given(c)).Unbalanced?)
  }

  lemma ArgAssigned(spec: Spec, c: Clause)
    requires spec.caps.Some? && !Fails(spec, c) && (c.scope == Shell ==> spec.shellArgv == [])
    ensures var r := Assign(spec.(caps := Some(spec.caps.value + {c.scope})), c.scope, Given(c));
      r.Ok? && Reads(spec, c, r.value)
  {
    EmptySplits();
  }

  lemma TakesItsArg(c: Clause, rest: seq<string>)
    requires c.arg.Some? ==> !IsWord(c.arg.value)
    requires c.arg == None ==> rest == [] || IsWord(rest[0])
    ensures var args := ClauseFields(c) + rest;
      && ScopeOf(args[0]) == Some(c.scope) && (if TakesNext(args) then args[1] else "") == Given(c)
      && args[if TakesNext(args) then 2 else 1..] == rest
  {
  }

  // No command is held before the shell is named.
  predicate Ready(spec: Spec) { spec.caps.Some? && (Shell !in spec.caps.value ==> spec.shellArgv == []) }

  // One clause read: the word, and its argument if it can be held.
  lemma ClauseRead(spec: Spec, c: Clause, rest: seq<string>) returns (next: Spec)
    requires Ready(spec) && (c.arg.Some? ==> !IsWord(c.arg.value))
    requires c.arg == None ==> rest == [] || IsWord(rest[0])
    ensures if Fails(spec, c) then ParseFrom(ClauseFields(c) + rest, spec).Err?
            else Reads(spec, c, next) && Ready(next) && ParseFrom(ClauseFields(c) + rest, spec) == ParseFrom(rest, next)
  {
    TakesItsArg(c, rest);
    next := spec;
    if !Fails(spec, c) {
      ArgAssigned(spec, c);
      next := Assign(spec.(caps := Some(spec.caps.value + {c.scope})), c.scope, Given(c)).value;
      assert c.scope != Shell ==> SameArg(next, spec, Shell);
    }
  }

  predicate Fit(clauses: seq<Clause>, caps: set<Scope>) {
    Once(clauses) && Unnamed(clauses, caps) && CommandsSplit(clauses)
  }

  lemma FitFirst(clauses: seq<Clause>, spec: Spec)
    requires clauses != [] && spec.caps.Some?
    ensures Fit(clauses, spec.caps.value) <==>
              !Fails(spec, clauses[0]) && Fit(clauses[1..], spec.caps.value + {clauses[0].scope})
  {
    var c, rest := clauses[0], clauses[1..];
    assert forall i :: 0 <= i < |rest| ==> rest[i] == clauses[i + 1];
    if !Fails(spec, c) && Fit(rest, spec.caps.value + {c.scope}) {
      forall i, j | 0 <= i < j < |clauses| ensures clauses[i].scope != clauses[j].scope {
        assert rest[j - 1] == clauses[j];
        if i > 0 { assert rest[i - 1] == clauses[i]; }
      }
      forall i | 0 <= i < |clauses| ensures clauses[i].scope !in spec.caps.value {
        if i > 0 { assert rest[i - 1] == clauses[i]; }
      }
      forall i | 0 <= i < |clauses| && clauses[i].scope == Shell ensures SplitFields(Given(clauses[i])).Split? {
        if i > 0 { assert rest[i - 1] == clauses[i]; }
      }
    }
  }

  lemma ScopesFirst(clauses: seq<Clause>)
    requires clauses != []
    ensures Scopes(clauses) == {clauses[0].scope} + Scopes(clauses[1..])
  {
    var rest := clauses[1..];
    forall scope ensures scope in Scopes(clauses) <==> scope in {clauses[0].scope} + Scopes(rest) {
      if i :| 0 <= i < |rest| && rest[i].scope == scope { assert clauses[i + 1].scope == scope; }
      if i :| 0 < i < |clauses| && clauses[i].scope == scope { assert rest[i - 1].scope == scope; }
    }
  }

  lemma SameTwice(a: Spec, b: Spec, c: Spec, scope: Scope)
    requires SameArg(a, b, scope) && SameArg(b, c, scope)
    ensures SameArg(a, c, scope)
  {
  }

  lemma HeldSame(a: Spec, b: Spec, c: Clause)
    requires ArgHeld(a, c) && SameArg(b, a, c.scope)
    ensures ArgHeld(b, c)
  {
  }

  lemma MeansFirst(spec: Spec, next: Spec, end: Spec, clauses: seq<Clause>)
    requires clauses != [] && Once(clauses) && spec.caps.Some?
    requires Reads(spec, clauses[0], next) && Means(end, next, clauses[1..])
    ensures Means(end, spec, clauses)
  {
    var c, rest := clauses[0], clauses[1..];
    ScopesFirst(clauses);
    forall i | 0 <= i < |rest| ensures rest[i].scope != c.scope { assert rest[i] == clauses[i + 1]; }
    forall scope | scope !in Scopes(clauses) ensures SameArg(end, spec, scope) {
      assert scope !in Scopes(rest) && scope != c.scope;
      SameTwice(end, next, spec, scope);
    }
    HeldSame(next, end, c);
    forall i | 0 <= i < |clauses| ensures ArgHeld(end, clauses[i]) {
      if i > 0 { assert rest[i - 1] == clauses[i]; }
    }
  }

  lemma TailBegins(clauses: seq<Clause>, rest: seq<string>)
    requires clauses != [] && StrayTail(clauses, rest)
    ensures StrayTail(clauses[1..], rest)
    ensures var after := ArgsOf(clauses[1..]) + rest; clauses[0].arg == None ==> after == [] || IsWord(after[0])
    ensures ArgsOf(clauses) + rest == ClauseFields(clauses[0]) + (ArgsOf(clauses[1..]) + rest)
  {
    if |clauses| > 1 { assert ArgsOf(clauses[1..])[0] == Word(clauses[1].scope); }
  }

  ghost predicate ReadAsDue(r: Result<Spec, Error>, spec: Spec, clauses: seq<Clause>, rest: seq<string>)
    requires spec.caps.Some?
  {
    && (r.Ok? <==> rest == [] && Fit(clauses, spec.caps.value))
    && (r.Ok? ==> Means(r.value, spec, clauses))
  }

  lemma NoClauses(spec: Spec, rest: seq<string>)
    requires spec.caps.Some? && StrayTail([], rest)
    ensures ReadAsDue(ParseFrom(ArgsOf([]) + rest, spec), spec, [], rest)
  {
    assert ArgsOf([]) + rest == rest && Scopes([]) == {};
  }

  lemma OneMore(spec: Spec, next: Spec, r: Result<Spec, Error>, clauses: seq<Clause>, rest: seq<string>)
    requires clauses != [] && spec.caps.Some? && !Fails(spec, clauses[0]) && Reads(spec, clauses[0], next)
    requires ReadAsDue(r, next, clauses[1..], rest)
    ensures ReadAsDue(r, spec, clauses, rest)
  {
    FitFirst(clauses, spec);
    if r.Ok? { MeansFirst(spec, next, r.value, clauses); }
  }

  lemma {:induction false} ClausesReadFrom(spec: Spec, clauses: seq<Clause>, rest: seq<string>, args: seq<string>)
    requires Ready(spec) && ValidClauses(clauses) && StrayTail(clauses, rest) && args == ArgsOf(clauses) + rest
    ensures ReadAsDue(ParseFrom(args, spec), spec, clauses, rest)
    decreases |clauses|
  {
    if clauses == [] {
      NoClauses(spec, rest);
    } else {
      TailBegins(clauses, rest);
      var after := ArgsOf(clauses[1..]) + rest;
      var next := ClauseRead(spec, clauses[0], after);
      if Fails(spec, clauses[0]) {
        FailsFirst(spec, clauses, ParseFrom(args, spec), rest);
      } else {
        ClausesReadFrom(next, clauses[1..], rest, after);
        OneMore(spec, next, ParseFrom(after, next), clauses, rest);
      }
    }
  }

  lemma FailsFirst(spec: Spec, clauses: seq<Clause>, r: Result<Spec, Error>, rest: seq<string>)
    requires clauses != [] && spec.caps.Some? && Fails(spec, clauses[0]) && r.Err?
    ensures ReadAsDue(r, spec, clauses, rest)
  {
    FitFirst(clauses, spec);
  }

  /** The fields of a grant are read exactly when they are clauses and nothing else, no capability is
      named twice, and a command can be split; and then each capability named is granted with the
      argument it was given, and nothing else is. */
  lemma ClausesRead(clauses: seq<Clause>, rest: seq<string>)
    requires ValidClauses(clauses) && StrayTail(clauses, rest) && ArgsOf(clauses) + rest != []
    ensures var r := Parse(ArgsOf(clauses) + rest);
      && (r.Ok? <==> rest == [] && Once(clauses) && CommandsSplit(clauses))
      && (r.Ok? ==> Means(r.value, NOTHING, clauses))
  {
    ClausesReadFrom(NOTHING, clauses, rest, ArgsOf(clauses) + rest);
  }

  /** All fields are clauses, and perhaps a field that cannot be part of one. */
  lemma {:induction false} EveryFields(args: seq<string>) returns (clauses: seq<Clause>, rest: seq<string>)
    ensures ValidClauses(clauses) && StrayTail(clauses, rest) && args == ArgsOf(clauses) + rest
    decreases |args|
  {
    if args == [] || !IsWord(args[0]) {
      clauses, rest := [], args;
      assert args == [] + args;
    } else {
      ScopeOfWord(args[0]);
      var takes := TakesNext(args);
      var c := Clause(ScopeOf(args[0]).value, if takes then Some(args[1]) else None);
      var tail := args[if takes then 2 else 1..];
      clauses, rest := EveryFields(tail);
      assert args == ClauseFields(c) + tail;
      Prepended(c, clauses, rest);
      clauses := [c] + clauses;
    }
  }

  lemma Prepended(c: Clause, clauses: seq<Clause>, rest: seq<string>)
    requires ValidClauses(clauses) && StrayTail(clauses, rest) && (c.arg.Some? ==> !IsWord(c.arg.value))
    requires c.arg == None && clauses == [] ==> rest == [] || IsWord(rest[0])
    ensures ValidClauses([c] + clauses) && StrayTail([c] + clauses, rest)
    ensures ArgsOf([c] + clauses) + rest == ClauseFields(c) + (ArgsOf(clauses) + rest)
  {
    assert ([c] + clauses)[1..] == clauses;
  }
}

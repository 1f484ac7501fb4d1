/**
 The quoting layer of a grant line: splitting a line into fields, and quoting
 a field, or a whole command, so that splitting gives it back.
 */
module GrantFields {
  import opened Wrappers

  predicate IsBlank(r: char) { r == ' ' || r == '\t' || r == '\n' || r == '\r' }

  predicate IsQuote(r: char) { r == '\'' || r == '"' }

  // Characters a field cannot hold unquoted.
  predicate IsSpecial(r: char) { IsBlank(r) || IsQuote(r) }

  predicate NoSpecial(s: string) { forall i :: 0 <= i < |s| ==> !IsSpecial(s[i]) }

  predicate HoldsBothQuotes(s: string) { '\'' in s && '"' in s }

  // ---- splitFields ----

  datatype Fields = Split(fields: seq<string>) | Unbalanced(quote: char)

  // open: cur holds a token, even if it is empty.
  datatype Scanner = Scanner(out: seq<string>, cur: string, quote: Option<char>, open: bool) {
    function Step(r: char): Scanner {
      if quote == Some(r) then this.(quote := None)
      else if quote == None && IsQuote(r) then this.(quote := Some(r), open := true)
      else if quote == None && IsBlank(r) then
        if open then Scanner(out + [cur], "", None, false) else this
      else this.(cur := cur + [r], open := true)
    }

    function Finish(): Fields {
      if quote.Some? then Unbalanced(quote.value)
      else if open then Split(out + [cur])
      else Split(out)
    }
  }

  const START := Scanner([], "", None, false)

  function Scan(c: Scanner, s: string): Scanner
    decreases |s|
  {
    if s == "" then c else Scan(c.Step(s[0]), s[1..])
  }

  function SplitFields(s: string): Fields { Scan(START, s).Finish() }

  method SplitLine(s: string) returns (r: Fields)
    ensures r == SplitFields(s)
  {
    var out: seq<string>, cur: string, quote: Option<char>, open := [], "", None, false;
    for i := 0 to |s|
      invariant Scan(Scanner(out, cur, quote, open), s[i..]) == Scan(START, s)
    {
      var r := s[i];
      assert s[i..][0] == r && s[i..][1..] == s[i + 1..];
      if quote == Some(r) {
        quote := None;
      } else if quote == None && IsQuote(r) {
        quote, open := Some(r), true;
      } else if quote == None && IsBlank(r) {
        if open {
          out, cur, open := out + [cur], "", false;
        }
      } else {
        cur, open := cur + [r], true;
      }
    }
    if quote.Some? { return Unbalanced(quote.value); }
    if open { out := out + [cur]; }
    return Split(out);
  }

  // ---- quoteField and quoteCommand ----

  function QuoteField(s: string): string {
    if s == "" then "\"\""
    else if NoSpecial(s) then s
    else if '"' !in s then "\"" + s + "\""
    else "'" + s + "'"
  }

  // The fields quoted and joined with single spaces.
  function JoinFields(fields: seq<string>): string {
    if fields == [] then ""
    else if |fields| == 1 then QuoteField(fields[0])
    else QuoteField(fields[0]) + " " + JoinFields(fields[1..])
  }

  function QuoteCommand(argv: seq<string>): string { QuoteField(JoinFields(argv)) }

  // ---- Splitting undoes quoting ----

  lemma {:induction false} ScanAppend(c: Scanner, a: string, b: string)
    ensures Scan(c, a + b) == Scan(Scan(c, a), b)
    decreases |a|
  {
    if a == "" {
      assert a + b == b;
    } else {
      assert (a + b)[1..] == a[1..] + b;
      ScanAppend(c.Step(a[0]), a[1..], b);
    }
  }

  // Text that cannot end the token it is in is added to it whole.
  lemma {:induction false} ScanInside(c: Scanner, s: string)
    requires c.quote == None ==> NoSpecial(s)
    requires c.quote.Some? ==> c.quote.value !in s && c.open
    ensures Scan(c, s) == c.(cur := c.cur + s, open := c.open || s != "")
    decreases |s|
  {
    if s == "" {
      assert c.cur + s == c.cur;
    } else {
      assert c.cur + [s[0]] + s[1..] == c.cur + s;
      ScanInside(c.Step(s[0]), s[1..]);
    }
  }

  lemma ScanWrapped(c: Scanner, q: char, s: string)
    requires c.quote == None && IsQuote(q) && q !in s
    ensures Scan(c, [q] + s + [q]) == c.(cur := c.cur + s, open := true)
  {
    var inside := c.(quote := Some(q), open := true);
    ScanAppend(c, [q] + s, [q]);
    ScanAppend(c, [q], s);
    assert Scan(c, [q]) == inside;
    ScanInside(inside, s);
    var full := inside.(cur := c.cur + s);
    assert Scan(full, [q]) == Scan(full.Step(q), []);
  }

  lemma ScanField(c: Scanner, s: string)
    requires c.quote == None && !HoldsBothQuotes(s)
    ensures Scan(c, QuoteField(s)) == c.(cur := c.cur + s, open := true)
  {
    if s == "" {
      ScanWrapped(c, '"', s);
      assert "\"\"" == ['"'] + s + ['"'];
    } else if NoSpecial(s) {
      ScanInside(c, s);
    } else if '"' !in s {
      ScanWrapped(c, '"', s);
    } else {
      ScanWrapped(c, '\'', s);
    }
  }

  // Between two tokens.
  function Between(out: seq<string>): Scanner { Scanner(out, "", None, false) }

  lemma ScanBlank(c: Scanner, rest: string)
    requires c.quote == None && c.open
    ensures Scan(c, " " + rest) == Scan(Between(c.out + [c.cur]), rest)
  {
    assert (" " + rest)[1..] == rest;
  }

  lemma ScanFieldThenBlank(out: seq<string>, f: string, rest: string)
    requires !HoldsBothQuotes(f)
    ensures Scan(Between(out), QuoteField(f) + " " + rest) == Scan(Between(out + [f]), rest)
  {
    var q, c := QuoteField(f), Between(out);
    calc {
      Scan(c, q + " " + rest);
    == { assert q + " " + rest == q + (" " + rest); }
      Scan(c, q + (" " + rest));
    == { ScanAppend(c, q, " " + rest); }
      Scan(Scan(c, q), " " + rest);
    == { ScanField(c, f); assert c.cur + f == f; }
      Scan(c.(cur := f, open := true), " " + rest);
    == { ScanBlank(c.(cur := f, open := true), rest); }
      Scan(Between(out + [f]), rest);
    }
  }

  lemma ScanLastField(out: seq<string>, f: string)
    requires !HoldsBothQuotes(f)
    ensures Scan(Between(out), QuoteField(f)).Finish() == Split(out + [f])
  {
    ScanField(Between(out), f);
    assert "" + f == f;
  }

  lemma {:induction false} ScanJoined(out: seq<string>, fields: seq<string>)
    requires forall i :: 0 <= i < |fields| ==> !HoldsBothQuotes(fields[i])
    ensures Scan(Between(out), JoinFields(fields)).Finish() == Split(out + fields)
    decreases |fields|
  {
    if fields == [] {
      assert out + fields == out;
    } else if |fields| == 1 {
      ScanLastField(out, fields[0]);
      assert fields == [fields[0]];
    } else {
      var f, rest := fields[0], fields[1..];
      calc {
        Scan(Between(out), JoinFields(fields)).Finish();
        Scan(Between(out), QuoteField(f) + " " + JoinFields(rest)).Finish();
      == { ScanFieldThenBlank(out, f, JoinFields(rest)); }
        Scan(Between(out + [f]), JoinFields(rest)).Finish();
      == { ScanJoined(out + [f], rest); }
        Split(out + [f] + rest);
      == { assert out + [f] + rest == out + fields; }
        Split(out + fields);
      }
    }
  }

  /** Joining quoted fields and splitting gives the fields back, unless one of them
      holds both kinds of quote. */
  lemma SplitInvertsJoin(fields: seq<string>)
    requires forall i :: 0 <= i < |fields| ==> !HoldsBothQuotes(fields[i])
    ensures SplitFields(JoinFields(fields)) == Split(fields)
  {
    ScanJoined([], fields);
    assert [] + fields == fields;
  }

  // ---- Which quotes a line holds ----

  predicate NoQuote(s: string) { forall i :: 0 <= i < |s| ==> !IsQuote(s[i]) }

  predicate NoQuotes(argv: seq<string>) { forall i :: 0 <= i < |argv| ==> NoQuote(argv[i]) }

  lemma QuoteFieldQuotes(s: string)
    ensures NoQuote(s) ==> '\'' !in QuoteField(s)
    ensures !NoQuote(s) ==> HoldsBothQuotes(QuoteField(s))
    ensures |QuoteField(s)| == |s| + (if s == "" || !NoSpecial(s) then 2 else 0)
  {
    if !NoQuote(s) {
      var i :| 0 <= i < |s| && IsQuote(s[i]);
      assert IsSpecial(s[i]);
      var q := QuoteField(s);
      assert q[i + 1] == s[i] && q[0] != '\0' && q[0] in q && s[i] in q;
      if '"' in s {
        var j :| 0 <= j < |s| && s[j] == '"';
        assert q[j + 1] == '"';
      }
    }
  }

  lemma {:induction false} JoinedQuotes(argv: seq<string>)
    ensures NoQuotes(argv) ==> '\'' !in JoinFields(argv)
    ensures !NoQuotes(argv) ==> HoldsBothQuotes(JoinFields(argv))
    decreases |argv|
  {
    if argv != [] {
      QuoteFieldQuotes(argv[0]);
      JoinedQuotes(argv[1..]);
      if |argv| > 1 && NoQuotes(argv[1..]) && NoQuote(argv[0]) {
        assert forall i :: 0 <= i < |argv| ==> argv[i] == if i == 0 then argv[0] else argv[1..][i - 1];
      }
    }
  }

  // ---- And undoes it for nothing else ----

  // The fewest characters a line spends on a field: a field holding both quotes
  // takes two pairs of them.
  function FieldCost(f: string): nat {
    |f| + (if HoldsBothQuotes(f) then 4 else if f == "" || !NoSpecial(f) then 2 else 0)
  }

  // And on several, each followed by a blank.
  function LineCost(fields: seq<string>): nat {
    if fields == [] then 0 else FieldCost(fields[0]) + 1 + LineCost(fields[1..])
  }

  lemma {:induction false} LineCostAppend(fields: seq<string>, f: string)
    ensures LineCost(fields + [f]) == LineCost(fields) + FieldCost(f) + 1
  {
    if fields == [] {
      assert fields + [f] == [f];
    } else {
      assert (fields + [f])[1..] == fields[1..] + [f];
      LineCostAppend(fields[1..], f);
    }
  }

  lemma {:induction false} JoinFieldsCost(fields: seq<string>)
    ensures |JoinFields(fields)| <= LineCost(fields) - (if fields == [] then 0 else 1)
  {
    if fields != [] {
      QuoteFieldQuotes(fields[0]);
      JoinFieldsCost(fields[1..]);
    }
  }

  // What the scanner must have spent on what it holds.
  function Spent(c: Scanner): int {
    LineCost(c.out)
    + (if !c.open then 0
       else if c.quote.Some? then |c.cur| + (if c.quote.value in c.cur then 3 else 1)
       else FieldCost(c.cur))
  }

  ghost predicate Sound(c: Scanner) {
    && (c.quote.Some? ==> c.open && IsQuote(c.quote.value))
    && (!c.open ==> c.cur == "")
  }

  lemma StepSpends(c: Scanner, r: char)
    requires Sound(c)
    ensures Sound(c.Step(r)) && Spent(c.Step(r)) <= Spent(c) + 1
  {
    LineCostAppend(c.out, c.cur);
    var longer := c.cur + [r];
    assert forall x :: x in longer <==> x in c.cur || x == r;
    if c.quote == None && !IsSpecial(r) && NoSpecial(c.cur) {
      assert NoSpecial(longer);
    }
    if c.quote == None && IsQuote(r) && r in c.cur {
      var i :| 0 <= i < |c.cur| && c.cur[i] == r;
      assert IsSpecial(c.cur[i]);
    }
  }

  lemma {:induction false} ScanSpends(c: Scanner, s: string)
    requires Sound(c)
    ensures Sound(Scan(c, s)) && Spent(Scan(c, s)) <= Spent(c) + |s|
    decreases |s|
  {
    if s != "" {
      StepSpends(c, s[0]);
      ScanSpends(c.Step(s[0]), s[1..]);
    }
  }

  /** No line is shorter than the fields it splits into require. */
  lemma SplitSpends(s: string)
    requires SplitFields(s).Split?
    ensures LineCost(SplitFields(s).fields) <= |s| + 1
  {
    ScanSpends(START, s);
    var end := Scan(START, s);
    LineCostAppend(end.out, end.cur);
  }

  // A quote inside a field needs quotes of the other kind around it.
  ghost predicate FreeOf(c: Scanner, q: char) {
    c.quote != Some(q) && (c.quote.Some? ==> IsQuote(c.quote.value)) && NoQuote(c.cur) && NoQuotes(c.out)
  }

  lemma {:induction false} ScanFreeOf(c: Scanner, s: string, q: char)
    requires IsQuote(q) && q !in s && FreeOf(c, q)
    ensures FreeOf(Scan(c, s), q)
    decreases |s|
  {
    if s != "" {
      ScanFreeOf(c.Step(s[0]), s[1..], q);
    }
  }

  lemma QuotesNeedBoth(s: string)
    requires SplitFields(s).Split? && !NoQuotes(SplitFields(s).fields)
    ensures HoldsBothQuotes(s)
  {
    if '"' !in s {
      ScanFreeOf(START, s, '"');
    } else if '\'' !in s {
      ScanFreeOf(START, s, '\'');
    }
  }

  /** quoteField is undone by splitting exactly for fields that lack one kind of quote. */
  lemma FieldRoundTrip(s: string)
    ensures SplitFields(QuoteField(s)) == Split([s]) <==> !HoldsBothQuotes(s)
  {
    if HoldsBothQuotes(s) {
      if SplitFields(QuoteField(s)) == Split([s]) {
        QuoteFieldQuotes(s);
        assert LineCost([s]) == FieldCost(s) + 1;
        SplitSpends(QuoteField(s));
        assert false;
      }
    } else {
      SplitInvertsJoin([s]);
    }
  }

  // ---- Commands, which are split twice ----

  // The command as the grammar reads it: one field of the line, split again.
  predicate CommandSurvives(argv: seq<string>) {
    var line := SplitFields(QuoteCommand(argv));
    line.Split? && |line.fields| == 1 && SplitFields(line.fields[0]) == Split(argv)
  }

  /** A command survives both splits exactly when no argument holds a quote of either kind. */
  lemma CommandRoundTrip(argv: seq<string>)
    ensures CommandSurvives(argv) <==> NoQuotes(argv)
  {
    JoinedQuotes(argv);
    var joined := JoinFields(argv);
    if NoQuotes(argv) {
      FieldRoundTrip(joined);
      assert forall i :: 0 <= i < |argv| ==> NoQuote(argv[i]) && '"' !in argv[i];
      SplitInvertsJoin(argv);
    } else if CommandSurvives(argv) {
      var inner := SplitFields(QuoteCommand(argv)).fields[0];
      assert SplitFields(QuoteCommand(argv)).fields == [inner];
      QuotesNeedBoth(inner);
      QuoteFieldQuotes(joined);
      assert LineCost([inner]) == FieldCost(inner) + 1;
      SplitSpends(QuoteCommand(argv));
      SplitSpends(inner);
      JoinFieldsCost(argv);
      assert false;
    }
  }
}

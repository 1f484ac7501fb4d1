/**
 Strings: trimming, splitting at a separator and joining, case, and decimal numbers.
 */
module Text {
  import opened Wrappers

  // White space as strings.TrimSpace sees it.
  predicate IsSpace(c: char) {
    '\t' <= c <= '\r' || c == ' ' || c == '\U{85}' || c == '\U{A0}' || c == '\U{1680}'
    || '\U{2000}' <= c <= '\U{200A}' || c == '\U{2028}' || c == '\U{2029}' || c == '\U{202F}'
    || c == '\U{205F}' || c == '\U{3000}'
  }

  function TrimLeft(s: string): string {
    if s != "" && IsSpace(s[0]) then TrimLeft(s[1..]) else s
  }

  function TrimRight(s: string): string {
    if s != "" && IsSpace(s[|s| - 1]) then TrimRight(s[..|s| - 1]) else s
  }

  function TrimSpace(s: string): string { TrimRight(TrimLeft(s)) }

  predicate Trimmed(s: string) { s == "" || (!IsSpace(s[0]) && !IsSpace(s[|s| - 1])) }

  lemma {:induction false} TrimRightKeepsFront(s: string)
    requires s != "" && !IsSpace(s[0])
    ensures var r := TrimRight(s); r != "" && r[0] == s[0] && !IsSpace(r[|r| - 1])
  {
    if IsSpace(s[|s| - 1]) {
      TrimRightKeepsFront(s[..|s| - 1]);
    }
  }

  lemma {:induction false} TrimLeftFront(s: string)
    ensures var r := TrimLeft(s); r == "" || !IsSpace(r[0])
    ensures Trimmed(s) ==> TrimLeft(s) == s
  {
    if s != "" && IsSpace(s[0]) {
      TrimLeftFront(s[1..]);
    }
  }

  /** Trimming leaves a trimmed string, and leaves a trimmed string alone. */
  lemma TrimSpaceTrims(s: string)
    ensures Trimmed(TrimSpace(s))
    ensures TrimSpace(s) == s <==> Trimmed(s)
  {
    TrimLeftFront(s);
    if TrimLeft(s) != "" {
      TrimRightKeepsFront(TrimLeft(s));
    }
  }

  predicate AllSpace(s: string) { forall i :: 0 <= i < |s| ==> IsSpace(s[i]) }

  lemma {:induction false} TrimLeftDrops(s: string) returns (front: string)
    ensures AllSpace(front) && s == front + TrimLeft(s)
  {
    front := "";
    if s != "" && IsSpace(s[0]) {
      var rest := TrimLeftDrops(s[1..]);
      front := [s[0]] + rest;
    }
  }

  lemma {:induction false} TrimRightDrops(s: string) returns (back: string)
    ensures AllSpace(back) && s == TrimRight(s) + back
  {
    back := "";
    if s != "" && IsSpace(s[|s| - 1]) {
      var rest := TrimRightDrops(s[..|s| - 1]);
      back := rest + [s[|s| - 1]];
    }
  }

  /** Trimming drops white space at either end and nothing else. */
  lemma TrimDropsSpaceOnly(s: string) returns (front: string, back: string)
    ensures AllSpace(front) && AllSpace(back) && s == front + TrimSpace(s) + back
  {
    front := TrimLeftDrops(s);
    back := TrimRightDrops(TrimLeft(s));
  }

  lemma SpaceWithin(a: string, b: string, c: string)
    requires AllSpace(a + b + c)
    ensures AllSpace(b)
  {
    forall i | 0 <= i < |b| ensures IsSpace(b[i]) { assert (a + b + c)[|a| + i] == b[i]; }
  }

  /** Nothing is left exactly of white space. */
  lemma BlankIff(s: string)
    ensures TrimSpace(s) == "" <==> AllSpace(s)
  {
    var front, back := TrimDropsSpaceOnly(s);
    TrimSpaceTrims(s);
    if AllSpace(s) { SpaceWithin(front, TrimSpace(s), back); }
  }

  // ---- Separated lists ----

  function Join(parts: seq<string>, sep: string): string {
    if parts == [] then ""
    else if |parts| == 1 then parts[0]
    else parts[0] + sep + Join(parts[1..], sep)
  }

  function SplitOn(s: string, sep: char): (parts: seq<string>)
    ensures parts != []
  {
    if s == "" then [""]
    else
      var rest := SplitOn(s[1..], sep);
      if s[0] == sep then [""] + rest else [[s[0]] + rest[0]] + rest[1..]
  }

  lemma {:induction false} SplitOnPrefix(a: string, rest: string, sep: char)
    requires sep !in a
    ensures var parts := SplitOn(rest, sep);
      SplitOn(a + rest, sep) == [a + parts[0]] + parts[1..]
  {
    if a == "" {
      assert a + rest == rest && a + SplitOn(rest, sep)[0] == SplitOn(rest, sep)[0];
    } else {
      assert (a + rest)[1..] == a[1..] + rest;
      SplitOnPrefix(a[1..], rest, sep);
      assert [a[0]] + (a[1..] + SplitOn(rest, sep)[0]) == a + SplitOn(rest, sep)[0];
    }
  }

  lemma SplitAtSep(a: string, rest: string, sep: char)
    requires sep !in a
    ensures SplitOn(a + [sep] + rest, sep) == [a] + SplitOn(rest, sep)
  {
    var tail := [sep] + rest;
    SplitOnPrefix(a, tail, sep);
    assert tail[1..] == rest && a + [sep] + rest == a + tail;
    assert SplitOn(tail, sep) == [""] + SplitOn(rest, sep);
    assert a + "" == a;
  }

  lemma {:induction false} SplitOnInvertsJoin(parts: seq<string>, sep: char)
    requires parts != [] && forall i :: 0 <= i < |parts| ==> sep !in parts[i]
    ensures SplitOn(Join(parts, [sep]), sep) == parts
  {
    var a := parts[0];
    if |parts| == 1 {
      SplitOnPrefix(a, "", sep);
      assert a + "" == a;
    } else {
      SplitOnInvertsJoin(parts[1..], sep);
      SplitAtSep(a, Join(parts[1..], [sep]), sep);
    }
  }

  lemma {:induction false} SplitOnParts(s: string, sep: char, i: nat)
    requires i < |SplitOn(s, sep)|
    ensures sep !in SplitOn(s, sep)[i]
  {
    if s != "" {
      var rest := SplitOn(s[1..], sep);
      if s[0] == sep {
        if i > 0 { SplitOnParts(s[1..], sep, i - 1); }
      } else {
        SplitOnParts(s[1..], sep, i);
      }
    }
  }

  // Every character of a joined list comes from a part or the separator.
  lemma {:induction false} JoinChars(parts: seq<string>, sep: string, c: char)
    requires c in Join(parts, sep) && c !in sep
    ensures exists i :: 0 <= i < |parts| && c in parts[i]
  {
    if |parts| == 1 {
      assert c in parts[0];
    } else if c !in parts[0] {
      JoinChars(parts[1..], sep, c);
      var i :| 0 <= i < |parts[1..]| && c in parts[1..][i];
      assert c in parts[i + 1];
    }
  }

  lemma {:induction false} TrimChars(s: string)
    ensures forall c :: c in TrimSpace(s) ==> c in s
  {
    TrimLeftChars(s);
    TrimRightChars(TrimLeft(s));
  }

  lemma {:induction false} TrimLeftChars(s: string)
    ensures forall c :: c in TrimLeft(s) ==> c in s
  {
    if s != "" && IsSpace(s[0]) {
      TrimLeftChars(s[1..]);
    }
  }

  lemma {:induction false} TrimRightChars(s: string)
    ensures forall c :: c in TrimRight(s) ==> c in s
  {
    if s != "" && IsSpace(s[|s| - 1]) {
      TrimRightChars(s[..|s| - 1]);
    }
  }

  // ---- Letters and numbers ----

  // ASCII letters only.
  function ToLower(s: string): (r: string)
    ensures |r| == |s|
  {
    seq(|s|, i requires 0 <= i < |s| => if 'A' <= s[i] <= 'Z' then (s[i] as int + 32) as char else s[i])
  }

  predicate IsDigit(c: char) { '0' <= c <= '9' }

  function DecimalValue(s: string): int
    requires forall i :: 0 <= i < |s| ==> IsDigit(s[i])
  {
    if s == "" then 0 else 10 * DecimalValue(s[..|s| - 1]) + (s[|s| - 1] as int - '0' as int)
  }

  predicate AllDigits(s: string) { s != "" && forall i :: 0 <= i < |s| ==> IsDigit(s[i]) }

  function Unsigned(s: string): string { if s != "" && (s[0] == '+' || s[0] == '-') then s[1..] else s }

  // strconv.Atoi, for 64-bit integers.
  function Atoi(s: string): Option<int> {
    if !AllDigits(Unsigned(s)) then None
    else
      var v := if s[0] == '-' then -DecimalValue(Unsigned(s)) else DecimalValue(Unsigned(s));
      if -0x8000_0000_0000_0000 <= v < 0x8000_0000_0000_0000 then Some(v) else None
  }

  /** Digits are read as their number, with one sign before them or none. */
  lemma SignedNumbers(digits: string)
    requires AllDigits(digits) && DecimalValue(digits) < 0x8000_0000_0000_0000
    ensures Atoi(digits) == Some(DecimalValue(digits)) == Atoi("+" + digits)
    ensures Atoi("-" + digits) == Some(-DecimalValue(digits))
  {
    assert IsDigit(digits[0]);
    assert ("+" + digits)[1..] == digits && ("-" + digits)[1..] == digits;
    DecimalNatural(digits);
  }

  lemma {:induction false} DecimalNatural(digits: string)
    requires forall i :: 0 <= i < |digits| ==> IsDigit(digits[i])
    ensures DecimalValue(digits) >= 0
  {
    if digits != "" { DecimalNatural(digits[..|digits| - 1]); }
  }
}

/** The scanners that detect, complete and escape possibly truncated JSON, and the parsing of tool
    arguments built on them.  The strict parser is left open: any partial function of the text. */
module JsonRepair {
  // ---------------------------------------------------------------- scanner state

  /** Inside a string or not, after a backslash or not, and the closers still owed, innermost last. */
  datatype Scan = Scan(inString: bool, escapeNext: bool, closers: seq<char>)

  const START := Scan(false, false, [])

  predicate IsCloser(c: char) { c == '}' || c == ']' }

  predicate Matches(st: Scan, c: char) { st.closers != [] && st.closers[|st.closers| - 1] == c }

  /** A closer outside a string that is not the one owed. */
  predicate Mismatched(st: Scan, c: char) { !st.inString && IsCloser(c) && !Matches(st, c) }

  function Step(st: Scan, c: char): Scan {
    if st.inString then
      if st.escapeNext then st.(escapeNext := false)
      else if c == '\\' then st.(escapeNext := true)
      else if c == '"' then st.(inString := false)
      else st
    else if c == '"' then st.(inString := true)
    else if c == '{' then st.(closers := st.closers + ['}'])
    else if c == '[' then st.(closers := st.closers + [']'])
    else if IsCloser(c) && Matches(st, c) then st.(closers := st.closers[..|st.closers| - 1])
    else st
  }

  function ScanFrom(st: Scan, s: string): Scan
    decreases |s|
  {
    if s == [] then st else ScanFrom(Step(st, s[0]), s[1..])
  }

  predicate HasMismatch(st: Scan, s: string)
    decreases |s|
  {
    s != [] && (Mismatched(st, s[0]) || HasMismatch(Step(st, s[0]), s[1..]))
  }

  /** The number of characters without which the text cannot be closed. */
  function Debt(st: Scan): nat {
    (if st.inString then (if st.escapeNext then 2 else 1) else 0) + |st.closers|
  }

  /** A scan is only ever after a backslash inside a string. */
  predicate Sane(st: Scan) { st.escapeNext ==> st.inString }

  lemma {:induction false} ScanConcat(st: Scan, a: string, b: string)
    ensures ScanFrom(st, a + b) == ScanFrom(ScanFrom(st, a), b)
    ensures HasMismatch(st, a + b) == (HasMismatch(st, a) || HasMismatch(ScanFrom(st, a), b))
    decreases |a|
  {
    if a == [] {
      assert a + b == b;
    } else {
      assert (a + b)[1..] == a[1..] + b;
      ScanConcat(Step(st, a[0]), a[1..], b);
    }
  }

  lemma ScanOne(st: Scan, s: string, c: char)
    ensures ScanFrom(st, s + [c]) == Step(ScanFrom(st, s), c)
    ensures HasMismatch(st, s + [c]) == (HasMismatch(st, s) || Mismatched(ScanFrom(st, s), c))
  {
    ScanConcat(st, s, [c]);
    var mid := ScanFrom(st, s);
    assert ScanFrom(mid, [c]) == ScanFrom(Step(mid, c), []);
  }

  lemma {:induction false} ScanIsSane(st: Scan, s: string)
    requires Sane(st)
    ensures Sane(ScanFrom(st, s))
    decreases |s|
  {
    if s != [] {
      ScanIsSane(Step(st, s[0]), s[1..]);
    }
  }

  /** One character pays at most one unit of the debt. */
  lemma {:induction false} DebtFallsByAtMostTheLength(st: Scan, s: string)
    requires Sane(st)
    ensures Debt(st) <= Debt(ScanFrom(st, s)) + |s|
    decreases |s|
  {
    if s != [] {
      DebtFallsByAtMostTheLength(Step(st, s[0]), s[1..]);
    }
  }

  // ---------------------------------------------------------------- closing a text

  function Reverse(s: string): string {
    if s == [] then [] else [s[|s| - 1]] + Reverse(s[..|s| - 1])
  }

  /** What pays the debt of a scan. */
  function Closing(st: Scan): string {
    (if st.inString then (if st.escapeNext then "\\\"" else "\"") else "") + Reverse(st.closers)
  }

  function Repair(s: string): string { s + Closing(ScanFrom(START, s)) }

  lemma {:induction false} ReverseLength(s: string)
    ensures |Reverse(s)| == |s|
  {
    if s != [] {
      ReverseLength(s[..|s| - 1]);
    }
  }

  lemma ClosingLength(st: Scan)
    ensures |Closing(st)| == Debt(st) || (st.escapeNext && !st.inString)
  {
    ReverseLength(st.closers);
  }

  /** The closers owed are closing brackets. */
  predicate OwesClosers(st: Scan) { forall i | 0 <= i < |st.closers| :: IsCloser(st.closers[i]) }

  lemma {:induction false} ScanOwesClosers(st: Scan, s: string)
    requires OwesClosers(st)
    ensures OwesClosers(ScanFrom(st, s))
    decreases |s|
  {
    if s != [] {
      ScanOwesClosers(Step(st, s[0]), s[1..]);
    }
  }

  lemma {:induction false} ClosersPay(closers: seq<char>)
    requires forall i | 0 <= i < |closers| :: IsCloser(closers[i])
    ensures ScanFrom(Scan(false, false, closers), Reverse(closers)) == START
    ensures !HasMismatch(Scan(false, false, closers), Reverse(closers))
  {
    if closers != [] {
      var st := Scan(false, false, closers);
      var last := closers[|closers| - 1];
      assert Reverse(closers)[0] == last && Reverse(closers)[1..] == Reverse(closers[..|closers| - 1]);
      assert Step(st, last) == Scan(false, false, closers[..|closers| - 1]);
      ClosersPay(closers[..|closers| - 1]);
    }
  }

  /** The closing text ends the scan with nothing owed, and mismatches nothing. */
  lemma ClosingPays(st: Scan)
    requires Sane(st) && OwesClosers(st)
    ensures ScanFrom(st, Closing(st)) == START && !HasMismatch(st, Closing(st))
  {
    var quotes := if st.inString then (if st.escapeNext then "\\\"" else "\"") else "";
    var open := st.(inString := false, escapeNext := false);
    ClosersPay(st.closers);
    ScanConcat(st, quotes, Reverse(st.closers));
    if st.inString {
      var second := if st.escapeNext then Step(st, '\\') else st;
      if st.escapeNext {
        assert quotes[1..] == "\"";
        assert quotes[0] == '\\';
        assert ScanFrom(st, quotes) == ScanFrom(second, "\"");
      }
      assert "\""[1..] == "";
      assert ScanFrom(second, "\"") == open;
    }
  }

  // ---------------------------------------------------------------- white space

  /** `char::is_whitespace`: the Unicode property White_Space. */
  predicate IsWhitespace(c: char) {
    var u := c as int;
    9 <= u <= 13 || u == 0x20 || u == 0x85 || u == 0xA0 || u == 0x1680 || 0x2000 <= u <= 0x200A
    || u == 0x2028 || u == 0x2029 || u == 0x202F || u == 0x205F || u == 0x3000
  }

  /** The first position from `from` on that is no white space. */
  function FirstVisible(s: string, from: nat): (r: nat)
    requires from <= |s|
    ensures from <= r <= |s| && (forall i | from <= i < r :: IsWhitespace(s[i]))
    ensures r < |s| ==> !IsWhitespace(s[r])
    decreases |s| - from
  {
    if from < |s| && IsWhitespace(s[from]) then FirstVisible(s, from + 1) else from
  }

  /** The end of what precedes `end` without the white space before it. */
  function LastVisible(s: string, end: nat): (r: nat)
    requires end <= |s|
    ensures r <= end && (forall i | r <= i < end :: IsWhitespace(s[i]))
    ensures r > 0 ==> !IsWhitespace(s[r - 1])
  {
    if end > 0 && IsWhitespace(s[end - 1]) then LastVisible(s, end - 1) else end
  }

  function TrimEnd(s: string): (r: string)
    ensures r <= s && (forall i | |r| <= i < |s| :: IsWhitespace(s[i]))
    ensures r != [] ==> !IsWhitespace(r[|r| - 1])
  {
    s[..LastVisible(s, |s|)]
  }

  function TrimStart(s: string): (r: string)
    ensures |r| <= |s| && r == s[|s| - |r|..]
    ensures forall i | 0 <= i < |s| - |r| :: IsWhitespace(s[i])
    ensures r != [] ==> !IsWhitespace(r[0])
  {
    s[FirstVisible(s, 0)..]
  }

  function Trim(s: string): string { TrimEnd(TrimStart(s)) }

  predicate OccursAt(text: string, pattern: string, i: nat) {
    i + |pattern| <= |text| && text[i..i + |pattern|] == pattern
  }

  // ---------------------------------------------------------------- the scanners

  /** A text that cannot be the whole of a JSON document: a closer it does not owe, or something
      left open. */
  predicate Truncated(s: string) { HasMismatch(START, s) || Debt(ScanFrom(START, s)) > 0 }

  lemma {:induction false} WhitespaceOutsideStrings(st: Scan, s: string)
    requires Sane(st) && forall i | 0 <= i < |s| :: IsWhitespace(s[i])
    ensures !HasMismatch(st, s)
    ensures var after := ScanFrom(st, s);
            after.inString == st.inString && after.closers == st.closers
    decreases |s|
  {
    if s != [] {
      WhitespaceOutsideStrings(Step(st, s[0]), s[1..]);
    }
  }

  /** Trailing white space does not matter. */
  lemma TruncatedIgnoresTrailingWhitespace(s: string)
    ensures Truncated(TrimEnd(s)) == Truncated(s)
  {
    var head := TrimEnd(s);
    var tail := s[|head|..];
    assert s == head + tail;
    ScanIsSane(START, head);
    ScanConcat(START, head, tail);
    WhitespaceOutsideStrings(ScanFrom(START, head), tail);
    ScanIsSane(START, s);
  }

  method LooksTruncated(args: string) returns (r: bool)
    ensures r == Truncated(args)
  {
    TruncatedIgnoresTrailingWhitespace(args);
    var trimmed := TrimEnd(args);
    if trimmed == [] {
      return false;
    }
    var inString, escapeNext, depth := false, false, [];
    assert trimmed[..0] == [];
    for i := 0 to |trimmed|
      invariant Scan(inString, escapeNext, depth) == ScanFrom(START, trimmed[..i])
      invariant !HasMismatch(START, trimmed[..i])
    {
      var c := trimmed[i];
      assert trimmed[..i + 1] == trimmed[..i] + [c];
      ScanOne(START, trimmed[..i], c);
      if inString {
        if escapeNext {
          escapeNext := false;
        } else if c == '\\' {
          escapeNext := true;
        } else if c == '"' {
          inString := false;
        }
        continue;
      }
      if c == '"' {
        inString := true;
      } else if c == '{' {
        depth := depth + ['}'];
      } else if c == '[' {
        depth := depth + [']'];
      } else if c == '}' || c == ']' {
        if depth != [] && depth[|depth| - 1] == c {
          depth := depth[..|depth| - 1];
        } else {
          assert trimmed == trimmed[..i + 1] + trimmed[i + 1..];
          ScanConcat(START, trimmed[..i + 1], trimmed[i + 1..]);
          return true;
        }
      }
    }
    assert trimmed[..|trimmed|] == trimmed;
    ScanIsSane(START, trimmed);
    r := inString || escapeNext || depth != [];
  }

  method RepairTruncatedJson(s: string) returns (repaired: string)
    ensures repaired == Repair(s)
  {
    repaired := "";
    var inString, escapeNext, closers := false, false, [];
    assert s[..0] == [];
    for i := 0 to |s|
      invariant repaired == s[..i]
      invariant Scan(inString, escapeNext, closers) == ScanFrom(START, s[..i])
    {
      var c := s[i];
      assert s[..i + 1] == s[..i] + [c];
      ScanOne(START, s[..i], c);
      repaired := repaired + [c];
      if inString {
        if escapeNext {
          escapeNext := false;
          continue;
        }
        if c == '\\' {
          escapeNext := true;
        } else if c == '"' {
          inString := false;
        }
        continue;
      }
      if c == '"' {
        inString := true;
      } else if c == '{' {
        closers := closers + ['}'];
      } else if c == '[' {
        closers := closers + [']'];
      } else if (c == '}' || c == ']') && closers != [] && closers[|closers| - 1] == c {
        closers := closers[..|closers| - 1];
      }
    }
    assert s[..|s|] == s;
    if inString {
      if escapeNext {
        repaired := repaired + ['\\'];
      }
      repaired := repaired + ['"'];
    }
    ghost var quoted := repaired;
    ghost var all := closers;
    assert quoted + [] == quoted;
    while closers != []
      invariant repaired + Reverse(closers) == quoted + Reverse(all)
    {
      var closer := closers[|closers| - 1];
      closers := closers[..|closers| - 1];
      assert repaired + ([closer] + Reverse(closers)) == (repaired + [closer]) + Reverse(closers);
      repaired := repaired + [closer];
    }
    assert repaired + [] == repaired;
    assert quoted == s + if inString then (if escapeNext then "\\\"" else "\"") else "";
    ScanIsSane(START, s);
  }

  // ---------------------------------------------------------------- what repairing achieves

  /** A text that is not truncated is left as it is. */
  lemma RepairLeavesCompleteTexts(s: string)
    requires !Truncated(s)
    ensures Repair(s) == s
  {
    ClosingLength(ScanFrom(START, s));
    ScanIsSane(START, s);
    assert Closing(ScanFrom(START, s)) == [];
  }

  /** Repairing completes a text exactly when it has no mismatched closer. */
  lemma RepairCompletesUnlessMismatched(s: string)
    ensures !Truncated(Repair(s)) <==> !HasMismatch(START, s)
  {
    var st := ScanFrom(START, s);
    ScanIsSane(START, s);
    ScanOwesClosers(START, s);
    ClosingPays(st);
    ScanConcat(START, s, Closing(st));
  }

  /** And what it appends is the shortest that does: no text that completes `s` is shorter. */
  lemma RepairAppendsTheLeast(s: string, t: string)
    requires !Truncated(s + t)
    ensures |Repair(s)| <= |s + t|
  {
    ScanIsSane(START, s);
    ScanConcat(START, s, t);
    DebtFallsByAtMostTheLength(ScanFrom(START, s), t);
    ClosingLength(ScanFrom(START, s));
  }

  /** A mismatched closer cannot be repaired by appending anything. */
  lemma MismatchIsForever(s: string, t: string)
    requires HasMismatch(START, s)
    ensures Truncated(s + t)
  {
    ScanConcat(START, s, t);
  }

  // ---------------------------------------------------------------- escaping control characters

  function HexDigit(n: nat): char
    requires n < 16
  {
    "0123456789abcdef"[n]
  }

  function EscapeChar(c: char): string {
    var u := c as int;
    if u >= 0x20 then [c]
    else if u == 0x08 then "\\b"
    else if u == 0x0C then "\\f"
    else if c == '\n' then "\\n"
    else if c == '\r' then "\\r"
    else if c == '\t' then "\\t"
    else "\\u00" + [HexDigit(u / 16), HexDigit(u % 16)]
  }

  function Escape(s: string): string {
    if s == [] then [] else EscapeChar(s[0]) + Escape(s[1..])
  }

  method JsonEscapeControlCharsInString(s: string) returns (r: string)
    ensures r == Escape(s)
  {
    r := "";
    assert s[0..] == s;
    for i := 0 to |s|
      invariant r + Escape(s[i..]) == Escape(s)
    {
      assert s[i..][0] == s[i] && s[i..][1..] == s[i + 1..];
      assert r + (EscapeChar(s[i]) + Escape(s[i + 1..])) == (r + EscapeChar(s[i])) + Escape(s[i + 1..]);
      r := r + EscapeChar(s[i]);
    }
    assert s[|s|..] == [];
    assert r + [] == r;
  }

  /** A character no scan looks at. */
  predicate IsPlain(c: char) { c != '\\' && c != '"' && c != '{' && c != '}' && c != '[' && c != ']' }

  lemma {:induction false} PlainTextIsInert(st: Scan, s: string)
    requires !st.escapeNext && forall i | 0 <= i < |s| :: IsPlain(s[i])
    ensures ScanFrom(st, s) == st && !HasMismatch(st, s)
    decreases |s|
  {
    if s != [] {
      PlainTextIsInert(Step(st, s[0]), s[1..]);
    }
  }

  /** A backslash and plain text after it scan like one plain character. */
  lemma EscapedIsInert(st: Scan, s: string, c: char)
    requires Sane(st) && IsPlain(c) && |s| >= 2 && s[0] == '\\' && forall i | 1 <= i < |s| :: IsPlain(s[i])
    ensures ScanFrom(st, s) == Step(st, c) && !HasMismatch(st, s) && !Mismatched(st, c)
  {
    var next := Step(st, '\\');
    var rest := s[1..];
    assert rest[0] == s[1];
    assert forall i | 0 <= i < |rest[1..]| :: rest[1..][i] == s[i + 2];
    PlainTextIsInert(Step(next, s[1]), rest[1..]);
    assert ScanFrom(next, rest) == ScanFrom(Step(next, s[1]), rest[1..]);
  }

  lemma EscapeCharIsInert(st: Scan, c: char)
    requires Sane(st)
    ensures ScanFrom(st, EscapeChar(c)) == Step(st, c)
    ensures HasMismatch(st, EscapeChar(c)) == Mismatched(st, c)
  {
    var escaped := EscapeChar(c);
    if c as int >= 0x20 {
      assert escaped[1..] == [];
      assert ScanFrom(st, escaped) == ScanFrom(Step(st, c), []);
    } else {
      EscapedIsInert(st, escaped, c);
    }
  }

  lemma {:induction false} EscapeKeepsScan(st: Scan, s: string)
    requires Sane(st)
    ensures ScanFrom(st, Escape(s)) == ScanFrom(st, s)
    ensures HasMismatch(st, Escape(s)) == HasMismatch(st, s)
    decreases |s|
  {
    if s != [] {
      EscapeCharIsInert(st, s[0]);
      ScanConcat(st, EscapeChar(s[0]), Escape(s[1..]));
      EscapeKeepsScan(Step(st, s[0]), s[1..]);
    }
  }

  /** Escaping control characters changes neither the verdict nor what a repair appends. */
  lemma EscapingCommutesWithRepair(s: string)
    ensures Truncated(Escape(s)) == Truncated(s)
    ensures Repair(Escape(s)) == Escape(s) + Repair(s)[|s|..]
  {
    EscapeKeepsScan(START, s);
    assert Repair(s)[|s|..] == Closing(ScanFrom(START, s));
  }

  lemma {:induction false} EscapedHasNoControlChars(s: string)
    ensures forall i | 0 <= i < |Escape(s)| :: Escape(s)[i] as int >= 0x20
  {
    if s != [] {
      EscapedHasNoControlChars(s[1..]);
    }
  }

}

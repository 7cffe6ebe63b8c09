/** What the text of a JSON string stands for (RFC 8259, section 7), and that escaping raw control
    characters does not change it. */
module JsonStrings {
  import opened JsonRepair
  import opened Wrappers

  /** What a two-character escape stands for, as a code unit. */
  function ShortEscape(c: char): Option<nat> {
    match c
    case '"' => Some(0x22)
    case '\\' => Some(0x5C)
    case '/' => Some(0x2F)
    case 'b' => Some(0x08)
    case 'f' => Some(0x0C)
    case 'n' => Some(0x0A)
    case 'r' => Some(0x0D)
    case 't' => Some(0x09)
    case _ => None
  }

  function HexValue(c: char): Option<nat> {
    if '0' <= c <= '9' then Some(c as nat - '0' as nat)
    else if 'a' <= c <= 'f' then Some(c as nat - 'a' as nat + 10)
    else if 'A' <= c <= 'F' then Some(c as nat - 'A' as nat + 10)
    else None
  }

  function HexUnit(s: string): Option<nat>
    requires |s| == 4
  {
    if HexValue(s[0]).None? || HexValue(s[1]).None? || HexValue(s[2]).None? || HexValue(s[3]).None? then None
    else
      Some(((HexValue(s[0]).value * 16 + HexValue(s[1]).value) * 16 + HexValue(s[2]).value) * 16
           + HexValue(s[3]).value)
  }

  function Then(unit: nat, rest: Option<seq<nat>>): Option<seq<nat>> {
    if rest.None? then None else Some([unit] + rest.value)
  }

  /** The code units a text stands for between the quotes of a string; a raw character stands for
      itself, also a control character, which the RFC does not allow there. */
  function Decode(s: string): Option<seq<nat>> {
    if s == "" then Some([])
    else if s[0] != '\\' then Then(s[0] as nat, Decode(s[1..]))
    else if |s| == 1 then None
    else if s[1] == 'u' then
      if |s| < 6 || HexUnit(s[2..6]).None? then None else Then(HexUnit(s[2..6]).value, Decode(s[6..]))
    else if ShortEscape(s[1]).None? then None
    else Then(ShortEscape(s[1]).value, Decode(s[2..]))
  }

  /** `f` leaves `head` in front of `rest` alone. */
  predicate Passes(f: string -> string, head: string, rest: string) { f(head + rest) == head + f(rest) }

  lemma PassesBoth(f: string -> string, a: string, b: string, rest: string)
    requires Passes(f, b, rest) && Passes(f, a, b + rest)
    ensures Passes(f, a + b, rest)
  {
    assert a + b + rest == a + (b + rest);
    assert a + b + f(rest) == a + (b + f(rest));
  }

  lemma {:induction false} VisibleTextPasses(f: string -> string, head: string, rest: string)
    requires forall c: char, more | c as int >= 0x20 :: Passes(f, [c], more)
    requires forall i | 0 <= i < |head| :: head[i] as int >= 0x20
    ensures Passes(f, head, rest)
  {
    if head == "" {
      assert head + rest == rest && head + f(rest) == f(rest);
    } else {
      var last := |head| - 1;
      VisibleTextPasses(f, head[..last], [head[last]] + rest);
      PassesBoth(f, head[..last], [head[last]], rest);
      assert head[..last] + [head[last]] == head;
    }
  }

  /** Escaping leaves text without control characters alone. */
  lemma EscapeOfVisibleText(head: string, rest: string)
    requires forall i | 0 <= i < |head| :: head[i] as int >= 0x20
    ensures Escape(head + rest) == head + Escape(rest)
  {
    forall c: char, more | c as int >= 0x20 ensures Passes(Escape, [c], more) {
      assert ([c] + more)[1..] == more;
    }
    VisibleTextPasses(Escape, head, rest);
    assert Passes(Escape, head, rest);
  }

  lemma HexDigitsAreTheirValues(n: nat)
    requires n < 16
    ensures HexValue(HexDigit(n)) == Some(n)
  {
    assert "0123456789abcdef"[n] == if n < 10 then '0' + n as char else 'a' + (n - 10) as char;
  }

  /** An escaped control character stands for that character. */
  lemma EscapedControlDecodes(c: char, rest: string)
    requires c as int < 0x20
    ensures Decode(EscapeChar(c) + rest) == Then(c as nat, Decode(rest))
  {
    var s := EscapeChar(c) + rest;
    var n := c as nat;
    if |EscapeChar(c)| == 2 {
      assert s[2..] == rest;
    } else {
      HexDigitsAreTheirValues(n / 16);
      HexDigitsAreTheirValues(n % 16);
      assert s[6..] == rest;
      assert s[2..6] == ['0', '0', HexDigit(n / 16), HexDigit(n % 16)];
    }
  }

  lemma ShortEscapeDecodes(head: string, rest: string)
    requires |head| == 2 && head[0] == '\\' && head[1] != 'u' && ShortEscape(head[1]).Some?
    ensures Decode(head + rest) == Then(ShortEscape(head[1]).value, Decode(rest))
    ensures Escape(head + rest) == head + Escape(rest)
  {
    assert (head + rest)[2..] == rest;
    EscapeOfVisibleText(head, rest);
  }

  lemma RawCharacterDecodes(c: char, rest: string)
    requires c != '\\'
    ensures Decode([c] + rest) == Then(c as nat, Decode(rest))
    ensures Decode(Escape([c] + rest)) == Then(c as nat, Decode(Escape(rest)))
  {
    assert ([c] + rest)[1..] == rest;
    if c as int < 0x20 {
      EscapedControlDecodes(c, Escape(rest));
    } else {
      assert ([c] + Escape(rest))[1..] == Escape(rest);
    }
  }

  // ---------------------------------------------------------------- what an escaped text stands for

  predicate IsControl(c: char) { c as int < 0x20 }

  function Units(s: string): seq<nat> { seq(|s|, i requires 0 <= i < |s| => s[i] as nat) }

  function Append(units: seq<nat>, rest: Option<seq<nat>>): Option<seq<nat>> {
    if rest.None? then None else Some(units + rest.value)
  }

  /** Decoding that also reads a backslash before a raw control character: as a backslash, and then
      the letters by which that character is escaped. */
  function Lenient(s: string): Option<seq<nat>> {
    if s == "" then Some([])
    else if s[0] != '\\' then Then(s[0] as nat, Lenient(s[1..]))
    else if |s| == 1 then None
    else if IsControl(s[1]) then Append([0x5C] + Units(EscapeChar(s[1])[1..]), Lenient(s[2..]))
    else if s[1] == 'u' then
      if |s| < 6 || HexUnit(s[2..6]).None? then None else Then(HexUnit(s[2..6]).value, Lenient(s[6..]))
    else if ShortEscape(s[1]).None? then None
    else Then(ShortEscape(s[1]).value, Lenient(s[2..]))
  }

  /** Some escape is a backslash before a raw control character. */
  predicate HasEscapedControl(s: string) {
    s != "" &&
    if s[0] != '\\' then HasEscapedControl(s[1..])
    else if |s| == 1 then false
    else IsControl(s[1]) || (if s[1] == 'u' then |s| >= 6 && HasEscapedControl(s[6..]) else HasEscapedControl(s[2..]))
  }

  lemma {:induction false} LettersStandForThemselves(letters: string, rest: string)
    requires forall i | 0 <= i < |letters| :: letters[i] != '\\'
    ensures Decode(letters + rest) == Append(Units(letters), Decode(rest))
  {
    if letters == "" {
      assert letters + rest == rest;
      assert Decode(rest).Some? ==> [] + Decode(rest).value == Decode(rest).value;
    } else {
      var more := letters[1..];
      assert (letters + rest)[1..] == more + rest;
      LettersStandForThemselves(more, rest);
      assert Units(letters) == [letters[0] as nat] + Units(more);
      assert Decode(rest).Some? ==>
          [letters[0] as nat] + (Units(more) + Decode(rest).value) == Units(letters) + Decode(rest).value;
    }
  }

  lemma BackslashAndLettersDecode(s: string, letters: string, rest: string)
    requires |s| >= 2 && s[0] == '\\' && s[1] == '\\' && s[2..] == letters + rest
    requires forall i | 0 <= i < |letters| :: letters[i] != '\\'
    ensures Decode(s) == Append([0x5C] + Units(letters), Decode(rest))
  {
    LettersStandForThemselves(letters, rest);
    assert Decode(rest).Some? ==>
        [0x5C] + (Units(letters) + Decode(rest).value) == ([0x5C] + Units(letters)) + Decode(rest).value;
  }

  lemma LettersOfAnEscape(c: char)
    requires IsControl(c)
    ensures EscapeChar(c)[0] == '\\' && forall i | 0 < i < |EscapeChar(c)| :: EscapeChar(c)[i] != '\\'
  {
    if |EscapeChar(c)| == 6 {
      HexDigitsAreTheirValues(c as nat / 16);
      HexDigitsAreTheirValues(c as nat % 16);
    }
  }

  lemma EscapeSplits(t: string, n: nat)
    requires n <= |t| && forall i | 0 <= i < n :: !IsControl(t[i])
    ensures Escape(t) == t[..n] + Escape(t[n..])
  {
    assert t == t[..n] + t[n..];
    EscapeOfVisibleText(t[..n], t[n..]);
  }

  function FirstControl(t: string): (k: nat)
    ensures k <= |t| && (k < |t| ==> IsControl(t[k])) && forall i | 0 <= i < k :: !IsControl(t[i])
  {
    if t == "" || IsControl(t[0]) then 0 else 1 + FirstControl(t[1..])
  }

  lemma EscapeOfControl(t: string)
    requires t != "" && IsControl(t[0])
    ensures Escape(t) != "" && Escape(t)[0] == '\\'
  {
    LettersOfAnEscape(t[0]);
  }

  lemma HexDigitsHaveNoBackslash(digits: string, k: nat)
    requires |digits| == 4 && HexUnit(digits).Some? && k < 4
    ensures digits[k] != '\\'
  {}

  /** Escaping makes no four digits out of anything else. */
  lemma DigitsAfterEscaping(t: string)
    requires |Escape(t)| >= 4 && HexUnit(Escape(t)[..4]).Some?
    ensures |t| >= 4 && t[..4] == Escape(t)[..4]
  {
    var k := FirstControl(t);
    EscapeSplits(t, k);
    if k < 4 {
      if k < |t| {
        EscapeOfControl(t[k..]);
        HexDigitsHaveNoBackslash(Escape(t)[..4], k);
      }
    } else {
      EscapeSplits(t, 4);
    }
  }

  lemma UnicodeDecodes(s: string, t: string)
    requires |s| >= 2 && s[0] == '\\' && s[1] == 'u' && t == s[2..]
    ensures Decode(s) == if |t| < 4 || HexUnit(t[..4]).None? then None else Then(HexUnit(t[..4]).value, Decode(t[4..]))
  {
    if |t| >= 4 {
      assert s[2..6] == t[..4] && s[6..] == t[4..];
    }
  }

  lemma DigitsAreVisible(digits: string)
    requires |digits| == 4 && HexUnit(digits).Some?
    ensures forall i | 0 <= i < 4 :: !IsControl(digits[i])
  {}

  lemma EscapedDigits(t: string)
    requires |t| >= 4 && HexUnit(t[..4]).Some?
    ensures |Escape(t)| >= 4 && Escape(t)[..4] == t[..4] && Escape(t)[4..] == Escape(t[4..])
  {
    DigitsAreVisible(t[..4]);
    assert forall i | 0 <= i < 4 :: t[i] == t[..4][i];
    EscapeSplits(t, 4);
  }

  lemma DigitsOfEscaped(t: string)
    ensures var e := Escape(t);
            if |t| < 4 || HexUnit(t[..4]).None? then |e| < 4 || HexUnit(e[..4]).None?
            else |e| >= 4 && e[..4] == t[..4] && e[4..] == Escape(t[4..])
  {
    var e := Escape(t);
    if |t| >= 4 && HexUnit(t[..4]).Some? {
      EscapedDigits(t);
    } else if |e| >= 4 && HexUnit(e[..4]).Some? {
      DigitsAfterEscaping(t);
    }
  }

  lemma TwoAndTheRest(s: string, e: string, rest: string)
    requires |s| >= 2 && e == s[..2] + rest
    ensures |e| >= 2 && e[0] == s[0] && e[1] == s[1] && e[2..] == rest
  {}

  lemma EscapedShort(head: string, rest: string)
    requires |head| == 2 && head[0] == '\\' && head[1] != 'u' && !IsControl(head[1])
    ensures Decode(Escape(head + rest))
         == if ShortEscape(head[1]).None? then None else Then(ShortEscape(head[1]).value, Decode(Escape(rest)))
  {
    EscapeOfVisibleText(head, rest);
    if ShortEscape(head[1]).Some? {
      ShortEscapeDecodes(head, Escape(rest));
    }
  }

  lemma RawMeans(s: string)
    requires s != "" && s[0] != '\\'
    ensures Decode(Escape(s)) == Then(s[0] as nat, Decode(Escape(s[1..])))
  {
    assert s == [s[0]] + s[1..];
    RawCharacterDecodes(s[0], s[1..]);
  }

  lemma LoneBackslashMeans(s: string)
    requires |s| == 1 && s[0] == '\\'
    ensures Decode(Escape(s)).None?
  {
    assert s[1..] == "" && Escape(s) == [s[0]] + "";
  }

  lemma EscapeOfFirst(t: string)
    requires t != ""
    ensures Escape(t) == EscapeChar(t[0]) + Escape(t[1..])
  {}

  lemma BackslashTwice(s: string, e: string, escape: string, rest: string)
    requires s != "" && s[0] == '\\' && escape != "" && escape[0] == '\\' && e == s[..1] + (escape + rest)
    ensures |e| >= 2 && e[0] == '\\' && e[1] == '\\' && e[2..] == escape[1..] + rest
  {}

  lemma EscapedControlMeans(s: string)
    requires |s| >= 2 && s[0] == '\\' && IsControl(s[1])
    ensures Decode(Escape(s)) == Append([0x5C] + Units(EscapeChar(s[1])[1..]), Decode(Escape(s[2..])))
  {
    LettersOfAnEscape(s[1]);
    EscapeSplits(s, 1);
    assert s[1..][1..] == s[2..];
    EscapeOfFirst(s[1..]);
    BackslashTwice(s, Escape(s), EscapeChar(s[1]), Escape(s[2..]));
    BackslashAndLettersDecode(Escape(s), EscapeChar(s[1])[1..], Escape(s[2..]));
  }

  /** `e` and `r` are the text and what follows its four digits, escaped. */
  lemma UnicodeDecodesAlike(s: string, e: string, t: string, et: string, r: string)
    requires |s| >= 2 && s[0] == '\\' && s[1] == 'u' && t == s[2..] && e == s[..2] + et
    requires if |t| < 4 || HexUnit(t[..4]).None? then |et| < 4 || HexUnit(et[..4]).None?
             else |et| >= 4 && et[..4] == t[..4] && et[4..] == r
    ensures Decode(e)
         == if |s| < 6 || HexUnit(s[2..6]).None? then None else Then(HexUnit(s[2..6]).value, Decode(r))
  {
    TwoAndTheRest(s, e, et);
    UnicodeDecodes(e, et);
    if |s| >= 6 {
      assert t[..4] == s[2..6];
    }
  }

  lemma UnicodeMeans(s: string)
    requires |s| >= 2 && s[0] == '\\' && s[1] == 'u'
    ensures Decode(Escape(s))
         == if |s| < 6 || HexUnit(s[2..6]).None? then None else Then(HexUnit(s[2..6]).value, Decode(Escape(s[6..])))
  {
    var t := s[2..];
    EscapeSplits(s, 2);
    DigitsOfEscaped(t);
    if |s| >= 6 {
      assert t[4..] == s[6..];
      UnicodeDecodesAlike(s, Escape(s), t, Escape(t), Escape(s[6..]));
    } else {
      UnicodeDecodesAlike(s, Escape(s), t, Escape(t), "");
    }
  }

  lemma ShortMeans(s: string)
    requires |s| >= 2 && s[0] == '\\' && s[1] != 'u' && !IsControl(s[1])
    ensures Decode(Escape(s))
         == if ShortEscape(s[1]).None? then None else Then(ShortEscape(s[1]).value, Decode(Escape(s[2..])))
  {
    assert s == s[..2] + s[2..];
    EscapedShort(s[..2], s[2..]);
  }

  /** What any text stands for after its control characters are escaped. */
  lemma {:induction false} EscapedTextMeans(s: string)
    ensures Decode(Escape(s)) == Lenient(s)
    decreases |s|
  {
    if s == "" {
    } else if s[0] != '\\' {
      RawMeans(s);
      EscapedTextMeans(s[1..]);
    } else if |s| == 1 {
      LoneBackslashMeans(s);
    } else if IsControl(s[1]) {
      EscapedControlMeans(s);
      EscapedTextMeans(s[2..]);
    } else if s[1] == 'u' {
      UnicodeMeans(s);
      if |s| >= 6 {
        EscapedTextMeans(s[6..]);
      }
    } else {
      ShortMeans(s);
      EscapedTextMeans(s[2..]);
    }
  }

  lemma {:induction false} LenientIsDecodingWithout(s: string)
    ensures Decode(s).Some? ==> Lenient(s) == Decode(s) && !HasEscapedControl(s)
    ensures !HasEscapedControl(s) ==> Lenient(s) == Decode(s)
    decreases |s|
  {
    if s != "" && s[0] != '\\' {
      LenientIsDecodingWithout(s[1..]);
    } else if |s| >= 2 && s[1] == 'u' {
      if |s| >= 6 {
        LenientIsDecodingWithout(s[6..]);
      }
    } else if |s| >= 2 && !IsControl(s[1]) {
      LenientIsDecodingWithout(s[2..]);
    }
  }

  /** Escaping changes what a text stands for if and only if a backslash escapes a raw control
      character in it and nothing else in it is wrong: then it stood for nothing, and afterwards does. */
  lemma EscapingKeepsTheMeaningExactlyWhen(s: string)
    ensures Decode(Escape(s)) == Decode(s) <==> !(HasEscapedControl(s) && Lenient(s).Some?)
    ensures Decode(s).Some? ==> Decode(Escape(s)) == Decode(s)
  {
    EscapedTextMeans(s);
    LenientIsDecodingWithout(s);
  }

  /** A backslash and a raw line feed: two characters without a meaning, and after escaping a backslash
      and an `n`. */
  lemma EscapingCanGiveAMeaning(s: string)
    requires |s| == 2 && s[0] == '\\' && s[1] == '\n'
    ensures Decode(s).None? && Decode(Escape(s)) == Some([0x5C, 'n' as nat])
  {
    EscapedControlMeans(s);
    assert s[2..] == "" && EscapeChar(s[1])[1..] == "n";
    assert [0x5C] + Units("n") + [] == [0x5C, 'n' as nat];
  }
}

/** Parsing of tool-call arguments: strict first, then through a wrapper, then with control characters
    escaped, but never with closers the model did not write. */
module ToolArguments {
  import opened Wrappers
  import opened JsonRepair

  datatype Value =
    | Object(members: seq<(string, Value)>)
    | String(text: string)
    | Other(text: string)

  /** The strict JSON parser. */
  type Parser = string -> Option<Value>

  function OrElse<T>(a: Option<T>, b: Option<T>): Option<T> { if a.Some? then a else b }

  function SafelyParseJson(parse: Parser, s: string): Option<Value> {
    if parse(s).Some? then parse(s)
    else if parse(Repair(s)).Some? then parse(Repair(s))
    else if parse(Escape(s)).Some? then parse(Escape(s))
    else parse(Repair(Escape(s)))
  }

  // ---------------------------------------------------------------- wrappers

  predicate HasSuffix(s: string, suffix: string) { |suffix| <= |s| && s[|s| - |suffix|..] == suffix }

  function Find(s: string, c: char): (r: Option<nat>)
    ensures r.Some? ==> r.value < |s| && s[r.value] == c
  {
    if s == [] then None
    else if s[0] == c then Some(0)
    else match Find(s[1..], c) case None => None case Some(i) => Some(i + 1)
  }

  /** The characters up to the first white space. */
  function Word(s: string): string {
    if s == [] || IsWhitespace(s[0]) then [] else [s[0]] + Word(s[1..])
  }

  predicate IsTagChar(c: char) {
    '0' <= c <= '9' || 'a' <= c <= 'z' || 'A' <= c <= 'Z' || c == '_' || c == '-'
  }

  function FenceBody(trimmed: string): Option<string>
    requires "```" <= trimmed
  {
    var rest := trimmed[3..];
    if !HasSuffix(rest, "```") then None else Some(Trim(FenceContent(TrimStart(rest[..|rest| - 3]))))
  }

  function FenceContent(body: string): string {
    if "json" <= body || "JSON" <= body then body[4..] else body
  }

  function TagBody(trimmed: string): Option<string>
    requires "<" <= trimmed
  {
    var openEnd := Find(trimmed, '>');
    if openEnd.None? then None
    else
      var tag := Word(TrimStart(trimmed[1..openEnd.value]));
      if tag == [] || !(forall i | 0 <= i < |tag| :: IsTagChar(tag[i])) then None
      else
        TagContent(TrimEnd(trimmed[openEnd.value + 1..]), "</" + tag + ">")
  }

  function TagContent(body: string, closing: string): Option<string> {
    if HasSuffix(body, closing) then Some(Trim(body[..|body| - |closing|])) else None
  }

  function StripJsonWrapper(args: string): Option<string> {
    var trimmed := Trim(args);
    if "```" <= trimmed then FenceBody(trimmed)
    else if "<" <= trimmed && !("</" <= trimmed) then TagBody(trimmed)
    else None
  }

  ghost predicate IsPartOf(part: string, s: string) { exists i :: OccursAt(s, part, i) }

  lemma PartOfPart(a: string, b: string, c: string)
    requires IsPartOf(a, b) && IsPartOf(b, c)
    ensures IsPartOf(a, c)
  {
    var i: nat :| OccursAt(b, a, i);
    var k: nat :| OccursAt(c, b, k);
    var slice := c[k + i..k + i + |a|];
    forall x | 0 <= x < |a| ensures slice[x] == a[x] {
      assert slice[x] == c[k + (i + x)] == c[k..k + |b|][i + x] == b[i + x];
      assert b[i..i + |a|][x] == b[i + x];
    }
    assert slice == a;
    assert OccursAt(c, a, k + i);
  }

  lemma SuffixIsPart(part: string, s: string)
    requires HasSuffix(s, part)
    ensures IsPartOf(part, s)
  {
    assert OccursAt(s, part, |s| - |part|);
  }

  lemma PrefixIsPart(part: string, s: string)
    requires part <= s
    ensures IsPartOf(part, s)
  {
    assert OccursAt(s, part, 0);
  }

  lemma TrimIsPart(s: string)
    ensures IsPartOf(Trim(s), s)
  {
    SuffixIsPart(TrimStart(s), s);
    PrefixIsPart(Trim(s), TrimStart(s));
    PartOfPart(Trim(s), TrimStart(s), s);
  }

  /** Unwrapping only ever cuts text off at both ends. */
  lemma WrappedTextIsPartOfTheArguments(args: string)
    ensures StripJsonWrapper(args).Some? ==> IsPartOf(StripJsonWrapper(args).value, args)
  {
    var trimmed := Trim(args);
    TrimIsPart(args);
    if StripJsonWrapper(args).Some? {
      if "```" <= trimmed {
        FenceBodyIsPart(trimmed);
      } else {
        TagBodyIsPart(trimmed);
      }
      PartOfPart(StripJsonWrapper(args).value, trimmed, args);
    }
  }

  lemma FenceBodyIsPart(trimmed: string)
    requires "```" <= trimmed && FenceBody(trimmed).Some?
    ensures IsPartOf(FenceBody(trimmed).value, trimmed)
  {
    var inner := trimmed[3..][..|trimmed| - 6];
    InnerIsPart(trimmed, inner);
    FenceContentIsPart(inner);
    PartOfPart(FenceBody(trimmed).value, inner, trimmed);
  }

  lemma InnerIsPart(trimmed: string, inner: string)
    requires |trimmed| >= 6 && inner == trimmed[3..][..|trimmed| - 6]
    ensures IsPartOf(inner, trimmed)
  {
    SuffixIsPart(trimmed[3..], trimmed);
    PrefixIsPart(inner, trimmed[3..]);
    PartOfPart(inner, trimmed[3..], trimmed);
  }

  lemma FenceContentIsPart(inner: string)
    ensures IsPartOf(Trim(FenceContent(TrimStart(inner))), inner)
  {
    var body := TrimStart(inner);
    var content := FenceContent(body);
    SuffixIsPart(body, inner);
    SuffixIsPart(content, body);
    PartOfPart(content, body, inner);
    TrimIsPart(content);
    PartOfPart(Trim(content), content, inner);
  }

  lemma TagBodyIsPart(trimmed: string)
    requires "<" <= trimmed && TagBody(trimmed).Some?
    ensures IsPartOf(TagBody(trimmed).value, trimmed)
  {
    var from := Find(trimmed, '>').value + 1;
    var tail := trimmed[from..];
    var tag := Word(TrimStart(trimmed[1..from - 1]));
    var body := TrimEnd(tail);
    SuffixIsPart(tail, trimmed);
    PrefixIsPart(body, tail);
    PartOfPart(body, tail, trimmed);
    TagContentIsPart(body, "</" + tag + ">");
    PartOfPart(TagBody(trimmed).value, body, trimmed);
  }

  lemma TagContentIsPart(body: string, closing: string)
    requires TagContent(body, closing).Some?
    ensures IsPartOf(TagContent(body, closing).value, body)
  {
    var content := body[..|body| - |closing|];
    PrefixIsPart(content, body);
    TrimIsPart(content);
    PartOfPart(Trim(content), content, body);
  }

  ghost predicate IsAllWhitespace(s: string) { forall i | 0 <= i < |s| :: IsWhitespace(s[i]) }

  ghost predicate IsTrimmed(s: string) { s != "" && !IsWhitespace(s[0]) && !IsWhitespace(s[|s| - 1]) }

  lemma TrimStartOfPadded(before: string, s: string)
    requires IsAllWhitespace(before) && s != "" && !IsWhitespace(s[0])
    ensures TrimStart(before + s) == s
  {
    var all := before + s;
    assert all[|before|] == s[0] && all[|before|..] == s;
    assert FirstVisible(all, 0) == |before|;
  }

  lemma TrimEndOfPadded(s: string, after: string)
    requires IsAllWhitespace(after) && s != "" && !IsWhitespace(s[|s| - 1])
    ensures TrimEnd(s + after) == s
  {
    var all := s + after;
    assert all[|s| - 1] == s[|s| - 1] && all[..|s|] == s;
    assert LastVisible(all, |all|) == |s|;
  }

  lemma TrimOfPadded(before: string, s: string, after: string)
    requires IsAllWhitespace(before) && IsAllWhitespace(after) && IsTrimmed(s)
    ensures Trim(before + s + after) == s
  {
    assert before + s + after == before + (s + after);
    TrimStartOfPadded(before, s + after);
    TrimEndOfPadded(s, after);
  }

  lemma VisibleStartStays(s: string)
    requires s != "" && !IsWhitespace(s[0])
    ensures TrimStart(s) == s
  {}

  lemma VisibleEndStays(s: string)
    requires s != "" && !IsWhitespace(s[|s| - 1])
    ensures TrimEnd(s) == s
  {}

  lemma StripOfFenced(args: string, fenced: string)
    requires Trim(args) == fenced && "```" <= fenced
    ensures StripJsonWrapper(args) == FenceBody(fenced)
  {}

  lemma StripOfTagged(args: string, tagged: string)
    requires Trim(args) == tagged && "<" <= tagged && !("</" <= tagged) && !("```" <= tagged)
    ensures StripJsonWrapper(args) == TagBody(tagged)
  {}

  lemma TrimStartSkips(blank: string, s: string)
    requires IsAllWhitespace(blank)
    ensures TrimStart(blank + s) == TrimStart(s)
  {
    var rest, all := FirstVisible(s, 0), blank + s;
    assert forall i | 0 <= i < |blank| + rest :: IsWhitespace(all[i]);
    assert rest < |s| ==> all[|blank| + rest] == s[rest];
    assert FirstVisible(all, 0) == |blank| + rest;
    assert all[|blank| + rest..] == s[rest..];
  }

  /** The mark of a fence: one of the two spellings, or none before a text that starts with neither. */
  predicate IsMark(mark: string, text: string) {
    mark == "json" || mark == "JSON"
    || (mark == "" && !("json" <= TrimStart(text)) && !("JSON" <= TrimStart(text)))
  }

  /** A text in a fence, marked or not, with white space around it, is unwrapped to itself, trimmed. */
  lemma FencedTextIsUnwrapped(before: string, blank: string, mark: string, text: string, after: string)
    requires IsAllWhitespace(before) && IsAllWhitespace(blank) && IsAllWhitespace(after) && IsMark(mark, text)
    ensures StripJsonWrapper(before + ("```" + (blank + mark + text) + "```") + after) == Some(Trim(text))
  {
    var body := blank + mark + text;
    var fenced := "```" + body + "```";
    TrimOfPadded(before, fenced, after);
    FencedBody(body, fenced);
    MarkedFenceContent(blank, mark, text);
    StripOfFenced(before + fenced + after, fenced);
  }

  lemma FencedBody(body: string, fenced: string)
    requires fenced == "```" + body + "```"
    ensures "```" <= fenced && FenceBody(fenced) == Some(Trim(FenceContent(TrimStart(body))))
  {
    var rest := fenced[3..];
    assert rest == body + "```";
    assert rest[..|rest| - 3] == body && rest[|rest| - 3..] == "```";
  }

  lemma MarkIsVisible(mark: string)
    requires mark == "json" || mark == "JSON"
    ensures |mark| == 4 && !IsWhitespace(mark[0])
  {}

  lemma MarkedContent(marked: string, mark: string, text: string)
    requires (mark == "json" || mark == "JSON") && |mark| == 4 && marked == mark + text
    ensures FenceContent(marked) == text
  {
    assert marked[..4] == mark && marked[4..] == text;
  }

  lemma TrimStartTwice(text: string)
    ensures TrimStart(TrimStart(text)) == TrimStart(text)
  {
    var rest := TrimStart(text);
    assert rest[0..] == rest;
  }

  lemma UnmarkedContent(text: string)
    requires FenceContent(TrimStart(text)) == TrimStart(text)
    ensures Trim(FenceContent(TrimStart(text))) == Trim(text)
  {
    TrimStartTwice(text);
  }

  lemma UnmarkedStays(body: string)
    requires !("json" <= body) && !("JSON" <= body)
    ensures FenceContent(body) == body
  {}

  lemma ContentAfterTheMark(mark: string, text: string)
    requires mark == "json" || mark == "JSON"
    ensures FenceContent(TrimStart(mark + text)) == text
  {
    MarkIsVisible(mark);
    VisibleStartStays(mark + text);
    MarkedContent(mark + text, mark, text);
  }

  lemma MarkedFenceContent(blank: string, mark: string, text: string)
    requires IsAllWhitespace(blank) && IsMark(mark, text)
    ensures Trim(FenceContent(TrimStart(blank + mark + text))) == Trim(text)
  {
    assert blank + mark + text == blank + (mark + text);
    TrimStartSkips(blank, mark + text);
    if mark == "" {
      assert mark + text == text;
      UnmarkedStays(TrimStart(text));
      UnmarkedContent(text);
    } else {
      ContentAfterTheMark(mark, text);
    }
  }

  lemma {:induction false} FindFirst(head: string, c: char, tail: string)
    requires c !in head
    ensures Find(head + [c] + tail, c) == Some(|head|)
  {
    if head != "" {
      assert (head + [c] + tail)[1..] == head[1..] + [c] + tail;
      FindFirst(head[1..], c, tail);
    }
  }

  /** What may follow the name inside the brackets of an opening tag. */
  predicate EndsName(attributes: string) { attributes == "" || IsWhitespace(attributes[0]) }

  lemma {:induction false} WordOfATag(tag: string, attributes: string)
    requires (forall i | 0 <= i < |tag| :: IsTagChar(tag[i])) && EndsName(attributes)
    ensures Word(tag + attributes) == tag
  {
    if tag == "" {
      assert tag + attributes == attributes;
    } else {
      assert (tag + attributes)[1..] == tag[1..] + attributes;
      WordOfATag(tag[1..], attributes);
    }
  }

  ghost predicate IsOpening(opening: string, blank: string, tag: string, attributes: string) {
    && opening == blank + tag + attributes && '>' !in opening
    && IsAllWhitespace(blank) && EndsName(attributes)
    && tag != "" && forall i | 0 <= i < |tag| :: IsTagChar(tag[i])
  }

  lemma NameOfOpening(opening: string, blank: string, tag: string, attributes: string)
    requires IsOpening(opening, blank, tag, attributes)
    ensures Word(TrimStart(opening)) == tag && opening != "" && opening[0] != '/'
  {
    assert opening == blank + (tag + attributes);
    TrimStartOfPadded(blank, tag + attributes);
    WordOfATag(tag, attributes);
    assert opening[0] == if blank == "" then tag[0] else blank[0];
  }

  /** So is a text between an opening tag, with attributes or not, and the closing tag of the same name. */
  lemma TaggedTextIsUnwrapped(before: string, opening: string, blank: string, tag: string, attributes: string,
                              text: string, after: string)
    requires IsAllWhitespace(before) && IsAllWhitespace(after) && IsOpening(opening, blank, tag, attributes)
    ensures StripJsonWrapper(before + ("<" + opening + ">" + text + ("</" + tag + ">")) + after) == Some(Trim(text))
  {
    var closing := "</" + tag + ">";
    var tagged := "<" + opening + ">" + text + closing;
    assert closing[|closing| - 1] == '>';
    assert tagged == "<" + opening + ">" + (text + closing);
    NameOfOpening(opening, blank, tag, attributes);
    TagBodyOfTagged(tagged, opening, tag, text, closing);
    StartsAsATag(tagged, opening, text + closing);
    TrimOfPadded(before, tagged, after);
    StripOfTagged(before + tagged + after, tagged);
  }

  lemma StartsAsATag(tagged: string, opening: string, rest: string)
    requires opening != "" && opening[0] != '/' && tagged == "<" + opening + ">" + rest
    ensures "<" <= tagged && !("</" <= tagged) && !("```" <= tagged)
  {
    assert tagged[0] == '<' && tagged[1] == opening[0];
  }

  lemma OpeningEnds(tagged: string, opening: string, rest: string)
    requires '>' !in opening && tagged == "<" + opening + ">" + rest
    ensures Find(tagged, '>') == Some(|opening| + 1)
    ensures tagged[1..|opening| + 1] == opening && tagged[|opening| + 2..] == rest
  {
    assert tagged == ("<" + opening) + ['>'] + rest;
    FindFirst("<" + opening, '>', rest);
  }

  lemma TagBodyOfTagged(tagged: string, opening: string, tag: string, text: string, closing: string)
    requires tag != "" && (forall i | 0 <= i < |tag| :: IsTagChar(tag[i])) && closing == "</" + tag + ">"
    requires '>' !in opening && Word(TrimStart(opening)) == tag && tagged == "<" + opening + ">" + (text + closing)
    ensures "<" <= tagged && TagBody(tagged) == Some(Trim(text))
  {
    OpeningEnds(tagged, opening, text + closing);
    assert closing[|closing| - 1] == '>';
    VisibleEndStays(text + closing);
    TagContentOfTagged(text, closing);
  }

  lemma TagContentOfTagged(text: string, closing: string)
    ensures TagContent(text + closing, closing) == Some(Trim(text))
  {
    assert (text + closing)[|text|..] == closing && (text + closing)[..|text|] == text;
  }

  // ---------------------------------------------------------------- double encoding

  /** The texts found one inside the other: each is the trimmed string that the one before parses to. */
  ghost predicate Layers(parse: Parser, text: string, texts: seq<string>) {
    && texts != [] && texts[0] == Trim(text)
    && forall i | 0 < i < |texts| :: IsStringIn(parse, texts[i - 1], texts[i])
  }

  ghost predicate IsStringIn(parse: Parser, text: string, inner: string) {
    parse(text).Some? && parse(text).value.String? && inner == Trim(parse(text).value.text)
  }

  predicate IsObject(value: Option<Value>) { value.Some? && value.value.Object? }

  /** The last of at most three such texts parses to an object. */
  ghost predicate LeadTo(parse: Parser, text: string, texts: seq<string>) {
    Layers(parse, text, texts) && |texts| <= 3 && IsObject(parse(texts[|texts| - 1]))
  }

  ghost predicate HoldsAnObject(parse: Parser, value: Value) {
    value.String? && exists texts :: LeadTo(parse, value.text, texts)
  }

  /** `r` is the object that the string holds, or the value itself if it holds none. */
  ghost predicate IsUnwrapping(parse: Parser, value: Value, r: Value) {
    if HoldsAnObject(parse, value)
    then exists texts :: LeadTo(parse, value.text, texts) && parse(texts[|texts| - 1]) == Some(r)
    else r == value
  }

  lemma {:induction false} LayersAreOne(parse: Parser, text: string, a: seq<string>, b: seq<string>, i: nat)
    requires Layers(parse, text, a) && Layers(parse, text, b) && i < |a| && i < |b|
    ensures a[i] == b[i]
  {
    if i > 0 {
      LayersAreOne(parse, text, a, b, i - 1);
      assert IsStringIn(parse, a[i - 1], a[i]) && IsStringIn(parse, b[i - 1], b[i]);
    }
  }

  lemma NotBeyondAnObject(parse: Parser, text: string, a: seq<string>, b: seq<string>)
    requires LeadTo(parse, text, a) && LeadTo(parse, text, b)
    ensures |b| <= |a|
  {
    LayersAreOne(parse, text, a, b, (if |a| < |b| then |a| else |b|) - 1);
    assert |a| < |b| ==> IsStringIn(parse, b[|a| - 1], b[|a|]);
  }

  /** There is only one result. */
  lemma OneUnwrapping(parse: Parser, value: Value, r: Value, r': Value)
    requires IsUnwrapping(parse, value, r) && IsUnwrapping(parse, value, r')
    ensures r == r'
  {
    if HoldsAnObject(parse, value) {
      var a :| LeadTo(parse, value.text, a) && parse(a[|a| - 1]) == Some(r);
      var b :| LeadTo(parse, value.text, b) && parse(b[|b| - 1]) == Some(r');
      NotBeyondAnObject(parse, value.text, a, b);
      NotBeyondAnObject(parse, value.text, b, a);
      LayersAreOne(parse, value.text, a, b, |a| - 1);
    }
  }

  /** `inner` is the object at the end of layers that begin with these, if there is one. */
  ghost predicate IsTheLast(parse: Parser, text: string, texts: seq<string>, inner: Option<Value>) {
    if inner.Some? then exists all :: LeadTo(parse, text, all) && parse(all[|all| - 1]) == inner
    else forall all :: texts <= all ==> !LeadTo(parse, text, all)
  }

  lemma LongerThanNoObject(parse: Parser, text: string, texts: seq<string>, all: seq<string>)
    requires texts != [] && texts <= all && LeadTo(parse, text, all) && !IsObject(parse(texts[|texts| - 1]))
    ensures |texts| < |all| && IsStringIn(parse, texts[|texts| - 1], all[|texts|])
  {
    assert |texts| < |all| ==> IsStringIn(parse, all[|texts| - 1], all[|texts|]);
    assert |texts| == |all| ==> texts == all;
  }

  /** Nothing follows a text that is neither an object nor a string. */
  lemma NothingFollows(parse: Parser, text: string, texts: seq<string>)
    requires texts != [] && (parse(texts[|texts| - 1]).Some? ==> parse(texts[|texts| - 1]).value.Other?)
    ensures IsTheLast(parse, text, texts, None)
  {
    forall all | texts <= all ensures !LeadTo(parse, text, all) {
      if LeadTo(parse, text, all) {
        LongerThanNoObject(parse, text, texts, all);
      }
    }
  }

  lemma LayerFollows(parse: Parser, text: string, texts: seq<string>, next: string, inner: Option<Value>)
    requires texts != [] && IsStringIn(parse, texts[|texts| - 1], next)
    requires IsTheLast(parse, text, texts + [next], inner)
    ensures IsTheLast(parse, text, texts, inner)
  {
    forall all | texts <= all && LeadTo(parse, text, all) ensures texts + [next] <= all {
      LongerThanNoObject(parse, text, texts, all);
    }
  }

  /** From the last of some layers on. */
  lemma {:induction false} InnerObjectIsTheLast(parse: Parser, text: string, texts: seq<string>, rounds: nat)
    requires Layers(parse, text, texts) && |texts| + rounds == 4
    ensures IsTheLast(parse, text, texts, InnerObject(parse, Trim, texts[|texts| - 1], rounds))
    decreases rounds
  {
    if rounds > 0 {
      match parse(texts[|texts| - 1]) {
        case Some(Object(_)) =>
          assert LeadTo(parse, text, texts);
        case Some(String(inner)) =>
          InnerObjectIsTheLast(parse, text, texts + [Trim(inner)], rounds - 1);
          LayerFollows(parse, text, texts, Trim(inner), InnerObject(parse, Trim, Trim(inner), rounds - 1));
        case _ =>
          NothingFollows(parse, text, texts);
      }
    }
  }

  lemma UnwrapsTheObject(parse: Parser, value: Value)
    ensures IsUnwrapping(parse, value, Unwrapped(parse, value))
  {
    if value.String? {
      InnerObjectIsTheLast(parse, value.text, [Trim(value.text)], 3);
      forall all | LeadTo(parse, value.text, all) ensures [Trim(value.text)] <= all {}
    }
  }

  /** An object found by parsing a string, and the string in it, at most `rounds` times. */
  function InnerObject(parse: Parser, trim: string -> string, text: string, rounds: nat): (r: Option<Value>)
    ensures r.Some? ==> r.value.Object?
    decreases rounds
  {
    if rounds == 0 then None
    else match parse(text)
      case Some(Object(members)) => Some(Object(members))
      case Some(String(inner)) => InnerObject(parse, trim, trim(inner), rounds - 1)
      case _ => None
  }

  function Unwrapped(parse: Parser, value: Value): Value {
    if !value.String? then value
    else match InnerObject(parse, Trim, Trim(value.text), 3)
      case Some(inner) => inner
      case None => value
  }

  method UnwrapDoubleEncodedObject(parse: Parser, value: Value) returns (r: Value)
    ensures r == Unwrapped(parse, value)
    ensures IsUnwrapping(parse, value, r)
  {
    UnwrapsTheObject(parse, value);
    if !value.String? {
      return value;
    }
    var inner := ParseRounds(parse, Trim, Trim(value.text), 3);
    r := if inner.Some? then inner.value else value;
  }

  method ParseRounds(parse: Parser, trim: string -> string, text: string, rounds: nat) returns (r: Option<Value>)
    ensures r == InnerObject(parse, trim, text, rounds)
  {
    var current := text;
    for round := 0 to rounds
      invariant InnerObject(parse, trim, text, rounds) == InnerObject(parse, trim, current, rounds - round)
    {
      match parse(current) {
        case Some(Object(members)) => return Some(Object(members));
        case Some(String(inner)) => current := trim(inner);
        case _ => return None;
      }
    }
    return None;
  }

  /** Only a string is ever replaced, only by an object, and once is enough. */
  lemma UnwrappingIsSettled(parse: Parser, value: Value)
    ensures Unwrapped(parse, value) == value || (value.String? && Unwrapped(parse, value).Object?)
    ensures Unwrapped(parse, Unwrapped(parse, value)) == Unwrapped(parse, value)
  {}

  // ---------------------------------------------------------------- tool arguments

  function ParseToolArguments(parse: Parser, args: string): Option<Value> {
    if args == "" then Some(Object([]))
    else ParseNonempty(parse, args, StripJsonWrapper(args))
  }

  function ParseNonempty(parse: Parser, args: string, inner: Option<string>): Option<Value> {
    if parse(args).Some? then Some(Unwrapped(parse, parse(args).value))
    else OrElse(ParseWrapped(parse, inner), ParseComplete(parse, args))
  }

  function ParseWrapped(parse: Parser, inner: Option<string>): Option<Value> {
    if inner.None? then None
    else if parse(inner.value).Some? then Some(Unwrapped(parse, parse(inner.value).value))
    else ParseComplete(parse, inner.value)
  }

  /** The lenient parse of a text that does not look truncated. */
  function ParseComplete(parse: Parser, text: string): Option<Value> {
    if !Truncated(text) && SafelyParseJson(parse, text).Some? then
      Some(Unwrapped(parse, SafelyParseJson(parse, text).value))
    else None
  }

  function FirstParsed(parse: Parser, texts: seq<string>): Option<Value> {
    if texts == [] then None else OrElse(parse(texts[0]), FirstParsed(parse, texts[1..]))
  }

  /** The texts that may be accepted: as written, or with control characters escaped if complete. */
  function AcceptableForms(text: string): seq<string> {
    if Truncated(text) then [text] else [text, Escape(text)]
  }

  function AcceptableTexts(args: string, inner: Option<string>): seq<string> {
    if inner.None? then AcceptableForms(args)
    else [args] + AcceptableForms(inner.value) + AcceptableForms(args)
  }

  /** On a complete text, repairing never comes into play. */
  lemma SafelyParsingCompleteText(parse: Parser, s: string)
    requires !Truncated(s)
    ensures SafelyParseJson(parse, s) == FirstParsed(parse, AcceptableForms(s))
  {
    RepairLeavesCompleteTexts(s);
    EscapingCommutesWithRepair(s);
    RepairLeavesCompleteTexts(Escape(s));
    var forms := AcceptableForms(s);
    assert forms[1..] == [Escape(s)] && forms[1..][1..] == [];
    assert FirstParsed(parse, forms[1..][1..]).None?;
    assert FirstParsed(parse, forms[1..]) == parse(Escape(s));
  }

  lemma {:induction false} FirstParsedConcat(parse: Parser, a: seq<string>, b: seq<string>)
    ensures FirstParsed(parse, a + b) == OrElse(FirstParsed(parse, a), FirstParsed(parse, b))
  {
    if a == [] {
      assert a + b == b;
    } else {
      assert (a + b)[1..] == a[1..] + b;
      FirstParsedConcat(parse, a[1..], b);
    }
  }

  lemma FirstParsedOfForms(parse: Parser, text: string)
    requires parse(text).None?
    ensures FirstParsed(parse, AcceptableForms(text))
         == if Truncated(text) then None else SafelyParseJson(parse, text)
  {
    if Truncated(text) {
      assert [text][1..] == [];
    } else {
      SafelyParsingCompleteText(parse, text);
    }
  }

  function MapUnwrapped(parse: Parser, value: Option<Value>): Option<Value> {
    if value.Some? then Some(Unwrapped(parse, value.value)) else None
  }

  /** The value returned, before unwrapping, is the strict parse of the first acceptable text that
      parses; no text with closers added is among them. */
  lemma NoInventedClosers(parse: Parser, args: string)
    requires args != ""
    ensures ParseToolArguments(parse, args)
         == MapUnwrapped(parse, FirstParsed(parse, AcceptableTexts(args, StripJsonWrapper(args))))
  {
    AcceptedTexts(parse, args, StripJsonWrapper(args));
  }

  lemma AcceptedTexts(parse: Parser, args: string, inner: Option<string>)
    ensures ParseNonempty(parse, args, inner)
         == MapUnwrapped(parse, FirstParsed(parse, AcceptableTexts(args, inner)))
  {
    if parse(args).Some? {
      assert AcceptableTexts(args, inner)[0] == args;
    } else {
      CompleteTextsOnly(parse, args);
      if inner.Some? {
        FirstOfInnerThenArguments(parse, args, inner.value);
        if parse(inner.value).Some? {
          assert AcceptableForms(inner.value)[0] == inner.value;
        } else {
          CompleteTextsOnly(parse, inner.value);
        }
      }
    }
  }

  lemma CompleteTextsOnly(parse: Parser, text: string)
    requires parse(text).None?
    ensures ParseComplete(parse, text) == MapUnwrapped(parse, FirstParsed(parse, AcceptableForms(text)))
  {
    FirstParsedOfForms(parse, text);
  }

  lemma FirstOfInnerThenArguments(parse: Parser, args: string, inner: string)
    requires parse(args).None?
    ensures FirstParsed(parse, [args] + AcceptableForms(inner) + AcceptableForms(args))
         == OrElse(FirstParsed(parse, AcceptableForms(inner)), FirstParsed(parse, AcceptableForms(args)))
  {
    FirstParsedConcat(parse, [args] + AcceptableForms(inner), AcceptableForms(args));
    FirstParsedConcat(parse, [args], AcceptableForms(inner));
    assert [args][1..] == [];
  }

  ghost predicate IsValueOf(parse: Parser, text: string, r: Option<Value>) {
    parse(text).Some? && r.Some? && IsUnwrapping(parse, parse(text).value, r.value)
  }

  /** In this order: the arguments as written; what is in their wrapper, as written and, if complete,
      with control characters escaped; the complete arguments with control characters escaped. */
  ghost predicate IsReadFrom(parse: Parser, args: string, inner: Option<string>, r: Option<Value>) {
    if parse(args).Some? then IsValueOf(parse, args, r)
    else if inner.Some? && parse(inner.value).Some? then IsValueOf(parse, inner.value, r)
    else if inner.Some? && !Truncated(inner.value) && parse(Escape(inner.value)).Some?
    then IsValueOf(parse, Escape(inner.value), r)
    else if !Truncated(args) && parse(Escape(args)).Some? then IsValueOf(parse, Escape(args), r)
    else r.None?
  }

  /** What becomes of every argument text. */
  lemma ArgumentsAreRead(parse: Parser, args: string)
    ensures args == "" ==> ParseToolArguments(parse, args) == Some(Object([]))
    ensures args != "" ==> IsReadFrom(parse, args, StripJsonWrapper(args), ParseToolArguments(parse, args))
  {
    if args != "" {
      var inner := StripJsonWrapper(args);
      var candidates := [args, Escape(args)] + if inner.Some? then [inner.value, Escape(inner.value)] else [];
      forall text | text in candidates && parse(text).Some?
        ensures IsValueOf(parse, text, Some(Unwrapped(parse, parse(text).value)))
      {
        UnwrapsTheObject(parse, parse(text).value);
      }
      EscapedIfComplete(parse, args);
      if inner.Some? {
        EscapedIfComplete(parse, inner.value);
      }
    }
  }

  lemma EscapedIfComplete(parse: Parser, text: string)
    ensures parse(text).None? ==>
              ParseComplete(parse, text) == if Truncated(text) || parse(Escape(text)).None? then None
                                            else Some(Unwrapped(parse, parse(Escape(text)).value))
  {
    if !Truncated(text) {
      RepairLeavesCompleteTexts(text);
      EscapingCommutesWithRepair(text);
      RepairLeavesCompleteTexts(Escape(text));
    }
  }

  /** With a parser that only accepts complete documents, arguments that are cut off, also inside
      their wrapper, are refused. */
  lemma TruncatedArgumentsAreRefused(parse: Parser, args: string)
    requires forall text :: parse(text).Some? ==> !Truncated(text)
    requires Truncated(args)
    requires StripJsonWrapper(args).Some? ==> Truncated(StripJsonWrapper(args).value)
    ensures ParseToolArguments(parse, args).None?
  {}
}

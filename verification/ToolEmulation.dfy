/** The streaming parser that turns model output into text, shell commands and code blocks.

    A text is its UTF-8 byte sequence, one `char` per byte, so lengths and offsets are byte
    counts as in the source.  What the Markdown library and `str::trim` compute is left open:
    a `Markdown` value is any choice of these functions. */
module ToolEmulation {
  import opened Wrappers

  type Text = string

  datatype Markdown = Markdown(
    topLevelExecuteFence: (Text, nat) -> bool,
    topLevelParagraphLine: (Text, nat) -> bool,
    trim: Text -> Text)

  /** What decides how a line is read: the Markdown library, code mode, and the two fence tests. */
  datatype Grammar = Grammar(
    markdown: Markdown,
    codeMode: bool,
    executeFenceLen: Text -> Option<nat>,
    closes: nat -> (Text -> bool))

  function EmulatorGrammar(markdown: Markdown, codeMode: bool): Grammar {
    Grammar(markdown, codeMode, line => ExecuteFenceLen(line), minimumLen => Closes(minimumLen))
  }

  datatype EmulatorAction =
    | Text(text: Text)
    | ShellCommand(command: Text)
    | ExecuteCode(code: Text)

  datatype ParserState = Normal | InExecuteBlock(fenceLen: nat)

  const MAX_MARKDOWN_CONTEXT_BYTES: nat := 256 * 1024
  const MAX_MARKDOWN_PARSE_BYTES: nat := 1024 * 1024
  const INFO_STRING: Text := "execute_typescript"

  // ---------------------------------------------------------------- fence lines

  /** The length of the longest prefix of `s` made of `c`. */
  function Run(s: Text, c: char): (n: nat)
    ensures n <= |s|
  {
    if s == [] || s[0] != c then 0 else 1 + Run(s[1..], c)
  }

  lemma {:induction false} RunIsAPrefix(s: Text, c: char)
    ensures Repeats(s[..Run(s, c)], c)
  {
    if s != [] && s[0] == c {
      RunIsAPrefix(s[1..], c);
      assert s[..Run(s, c)] == [c] + s[1..][..Run(s[1..], c)];
    }
  }

  predicate IsBlank(c: char) { c == ' ' || c == '\t' }

  predicate AllBlank(s: Text) { forall i | 0 <= i < |s| :: IsBlank(s[i]) }

  function TrimBlanksStart(s: Text): Text {
    if s != [] && IsBlank(s[0]) then TrimBlanksStart(s[1..]) else s
  }

  function TrimBlanksEnd(s: Text): Text {
    if s != [] && IsBlank(s[|s| - 1]) then TrimBlanksEnd(s[..|s| - 1]) else s
  }

  function StripCr(s: Text): (r: Text)
    ensures r <= s
  {
    if s != [] && s[|s| - 1] == '\r' then s[..|s| - 1] else s
  }

  /** The indentation of a line, its run of backticks after that, and what follows. */
  function SplitFence(line: Text): (r: (nat, nat, Text)) {
    var stripped := StripCr(line);
    var indent := Run(stripped, ' ');
    var rest := stripped[indent..];
    var fenceLen := Run(rest, '`');
    (indent, fenceLen, rest[fenceLen..])
  }

  function ExecuteFenceLen(line: Text): Option<nat> {
    var (indent, fenceLen, tail) := SplitFence(line);
    if indent > 3 || fenceLen < 3 then None
    else if TrimBlanksEnd(TrimBlanksStart(tail)) == INFO_STRING then Some(fenceLen)
    else None
  }

  predicate IsClosingFence(line: Text, minimumLen: nat) {
    var (indent, fenceLen, tail) := SplitFence(line);
    indent <= 3 && fenceLen >= minimumLen && AllBlank(tail)
  }

  ghost predicate Repeats(s: Text, c: char) { forall i | 0 <= i < |s| :: s[i] == c }

  /** A line cut the way section 4.5 of CommonMark 0.31 describes a backtick fence: at most three
      spaces, a run of backticks, an info string between blanks, an optional carriage return. */
  ghost predicate FenceShape(line: Text, indent: Text, fence: Text, before: Text, info: Text, after: Text, end: Text) {
    && line == indent + fence + (before + info + after) + end
    && |indent| <= 3 && Repeats(indent, ' ')
    && Repeats(fence, '`')
    && AllBlank(before) && AllBlank(after)
    && (end == "" || end == "\r")
  }

  lemma {:induction false} RunIsUnique(head: Text, tail: Text, c: char)
    requires Repeats(head, c) && (tail == [] || tail[0] != c)
    ensures Run(head + tail, c) == |head|
  {
    if head != [] {
      assert (head + tail)[1..] == head[1..] + tail;
      RunIsUnique(head[1..], tail, c);
    }
  }

  lemma {:induction false} TrimBlanksStartSplits(s: Text) returns (before: Text)
    ensures s == before + TrimBlanksStart(s) && AllBlank(before)
  {
    before := "";
    if s != [] && IsBlank(s[0]) {
      var rest := TrimBlanksStartSplits(s[1..]);
      before := [s[0]] + rest;
    }
  }

  lemma {:induction false} TrimBlanksEndSplits(s: Text) returns (after: Text)
    ensures s == TrimBlanksEnd(s) + after && AllBlank(after)
  {
    after := "";
    if s != [] && IsBlank(s[|s| - 1]) {
      var rest := TrimBlanksEndSplits(s[..|s| - 1]);
      after := rest + [s[|s| - 1]];
    }
  }

  lemma {:induction false} TrimBlanksOfPadded(before: Text, info: Text, after: Text)
    requires AllBlank(before) && AllBlank(after)
    requires info != [] && !IsBlank(info[0]) && !IsBlank(info[|info| - 1])
    ensures TrimBlanksEnd(TrimBlanksStart(before + info + after)) == info
    decreases |before| + |after|
  {
    if before != [] {
      assert (before + info + after)[1..] == before[1..] + info + after;
      TrimBlanksOfPadded(before[1..], info, after);
    } else {
      assert before + info + after == info + after;
      assert TrimBlanksStart(info + after) == info + after;
      if after != [] {
        var shorter := after[..|after| - 1];
        assert (info + after)[..|info + after| - 1] == info + shorter;
        TrimBlanksOfPadded("", info, shorter);
        assert TrimBlanksStart(info + shorter) == info + shorter;
        assert "" + info + shorter == info + shorter;
      } else {
        assert info + after == info;
      }
    }
  }

  /** Every line is its split put back together. */
  lemma SplitFenceRebuilds(line: Text) returns (indent: Text, fence: Text, end: Text)
    ensures var (i, n, tail) := SplitFence(line);
            line == indent + fence + tail + end && |indent| == i && |fence| == n
    ensures Repeats(indent, ' ') && Repeats(fence, '`') && (end == "" || end == "\r")
  {
    var stripped := StripCr(line);
    end := line[|stripped|..];
    var rest, tail;
    indent, rest := RunSplits(stripped, ' ');
    fence, tail := RunSplits(rest, '`');
    assert line == stripped + end;
  }

  lemma RunSplits(s: Text, c: char) returns (head: Text, tail: Text)
    ensures s == head + tail && |head| == Run(s, c) && tail == s[Run(s, c)..] && Repeats(head, c)
  {
    RunIsAPrefix(s, c);
    head, tail := s[..Run(s, c)], s[Run(s, c)..];
  }

  lemma SplitFenceIsUnique(indent: Text, fence: Text, tail: Text, end: Text)
    requires Repeats(indent, ' ') && Repeats(fence, '`') && fence != []
    requires tail != [] ==> tail[0] != '`' && tail[|tail| - 1] != '\r'
    requires end == "" || end == "\r"
    ensures SplitFence(indent + fence + tail + end) == (|indent|, |fence|, tail)
  {
    var stripped := indent + fence + tail;
    assert StripCr(stripped + end) == stripped by {
      assert stripped[|stripped| - 1] == if tail == [] then fence[|fence| - 1] else tail[|tail| - 1];
    }
    assert stripped == indent + (fence + tail);
    RunIsUnique(indent, fence + tail, ' ');
    assert stripped[|indent|..] == fence + tail;
    RunIsUnique(fence, tail, '`');
    assert (fence + tail)[|fence|..] == tail;
  }

  /** `execute_fence_len` answers `n` only on lines of the shape with `n >= 3` backticks and the
      info string `execute_typescript`. */
  lemma ExecuteFenceLenIsSound(line: Text) returns (indent: Text, fence: Text, before: Text, after: Text, end: Text)
    requires ExecuteFenceLen(line).Some?
    ensures FenceShape(line, indent, fence, before, "execute_typescript", after, end)
    ensures |fence| == ExecuteFenceLen(line).value >= 3
  {
    indent, fence, end := SplitFenceRebuilds(line);
    var tail := SplitFence(line).2;
    before, after := TrimBlanksSplit(tail);
  }

  lemma TrimBlanksSplit(tail: Text) returns (before: Text, after: Text)
    ensures tail == before + TrimBlanksEnd(TrimBlanksStart(tail)) + after && AllBlank(before) && AllBlank(after)
  {
    before := TrimBlanksStartSplits(tail);
    after := TrimBlanksEndSplits(TrimBlanksStart(tail));
  }

  /** ... and on every one of them. */
  lemma ExecuteFenceLenIsComplete(line: Text, indent: Text, fence: Text, before: Text, after: Text, end: Text)
    requires FenceShape(line, indent, fence, before, "execute_typescript", after, end) && |fence| >= 3
    ensures ExecuteFenceLen(line) == Some(|fence|)
  {
    ShapeIsItsSplit(line, indent, fence, before, INFO_STRING, after, end);
  }

  lemma ShapeIsItsSplit(
    line: Text, indent: Text, fence: Text, before: Text, info: Text, after: Text, end: Text)
    requires FenceShape(line, indent, fence, before, info, after, end) && fence != []
    requires info != [] && !IsBlank(info[0]) && info[0] != '`'
    requires !IsBlank(info[|info| - 1]) && info[|info| - 1] != '\r'
    ensures SplitFence(line).0 == |indent| && SplitFence(line).1 == |fence|
    ensures TrimBlanksEnd(TrimBlanksStart(SplitFence(line).2)) == info
  {
    var tail := before + info + after;
    assert tail[0] == if before == [] then info[0] else before[0];
    assert tail[|tail| - 1] == if after == [] then info[|info| - 1] else after[|after| - 1];
    SplitFenceIsUnique(indent, fence, tail, end);
    TrimBlanksOfPadded(before, info, after);
  }

  /** `is_closing_fence` accepts only lines of the shape with an empty info string and at least
      `minimumLen` backticks. */
  lemma IsClosingFenceIsSound(line: Text, minimumLen: nat) returns (indent: Text, fence: Text, blanks: Text, end: Text)
    requires IsClosingFence(line, minimumLen)
    ensures FenceShape(line, indent, fence, blanks, "", "", end) && |fence| >= minimumLen
  {
    indent, fence, end := SplitFenceRebuilds(line);
    blanks := SplitFence(line).2;
    assert blanks == blanks + "" + "";
  }

  /** ... and every one of them. */
  lemma IsClosingFenceIsComplete(line: Text, indent: Text, fence: Text, blanks: Text, end: Text, minimumLen: nat)
    requires FenceShape(line, indent, fence, blanks, "", "", end) && |fence| >= minimumLen > 0
    ensures IsClosingFence(line, minimumLen)
  {
    assert blanks + "" + "" == blanks;
    SplitFenceIsUnique(indent, fence, blanks, end);
  }

  // ---------------------------------------------------------------- lines of a buffer

  /** The end of the line that starts at `from`: its newline, or the end of `s`. */
  function LineEnd(s: Text, from: nat): (e: nat)
    requires from <= |s|
    ensures from <= e <= |s| && (e < |s| ==> s[e] == '\n')
    ensures forall i | from <= i < e :: s[i] != '\n'
    decreases |s| - from
  {
    if from == |s| || s[from] == '\n' then from else LineEnd(s, from + 1)
  }

  lemma LineEndIsUnique(s: Text, from: nat, e: nat)
    requires from <= e < |s| && s[e] == '\n' && forall i | from <= i < e :: s[i] != '\n'
    ensures LineEnd(s, from) == e
  {}

  /** Where the first closing line at or after `from` starts, and what is consumed with it. */
  function ClosingFence(input: Text, from: nat, closes: Text -> bool, allowEndOfStream: bool): (r: Option<(nat, nat)>)
    requires from <= |input|
    ensures r.Some? ==> from <= r.value.0 <= r.value.1 <= |input|
    ensures r.Some? && !allowEndOfStream ==> r.value.0 < r.value.1
    decreases |input| - from
  {
    var e := LineEnd(input, from);
    if e == |input| && !allowEndOfStream then None
    else if closes(input[from..e]) then Some((from, if e < |input| then e + 1 else e))
    else if e == |input| then None
    else ClosingFence(input, e + 1, closes, allowEndOfStream)
  }

  function Closes(minimumLen: nat): Text -> bool { line => IsClosingFence(line, minimumLen) }

  method ClosingFenceRange(input: Text, closes: Text -> bool, allowEndOfStream: bool) returns (r: Option<(nat, nat)>)
    ensures r == ClosingFence(input, 0, closes, allowEndOfStream)
  {
    var lineStart := 0;
    while true
      invariant lineStart <= |input|
      invariant ClosingFence(input, 0, closes, allowEndOfStream)
             == ClosingFence(input, lineStart, closes, allowEndOfStream)
      decreases |input| - lineStart
    {
      var lineEnd := LineEnd(input, lineStart);
      if lineEnd == |input| && !allowEndOfStream {
        return None;
      }
      if closes(input[lineStart..lineEnd]) {
        return Some((lineStart, if lineEnd < |input| then lineEnd + 1 else lineEnd));
      }
      if lineEnd == |input| {
        return None;
      }
      lineStart := lineEnd + 1;
    }
  }

  ghost predicate IsLineStart(s: Text, i: nat) { i <= |s| && (i == 0 || s[i - 1] == '\n') }

  /** A line of `s` starts at `i`, is complete unless the stream has ended, and closes the fence. */
  ghost predicate ClosesAt(s: Text, i: nat, closes: Text -> bool, allowEndOfStream: bool) {
    && IsLineStart(s, i)
    && (LineEnd(s, i) < |s| || allowEndOfStream)
    && closes(s[i..LineEnd(s, i)])
  }

  /** The line found closes the fence, and no line before it does. */
  lemma {:induction false} ClosingFenceIsFirst(input: Text, from: nat, closes: Text -> bool, allowEndOfStream: bool)
    requires IsLineStart(input, from)
    ensures var r := ClosingFence(input, from, closes, allowEndOfStream);
            && (r.Some? ==> ClosesAt(input, r.value.0, closes, allowEndOfStream))
            && (forall i: nat | from <= i <= |input| && ClosesAt(input, i, closes, allowEndOfStream) ::
                 r.Some? && r.value.0 <= i)
    decreases |input| - from
  {
    var r := ClosingFence(input, from, closes, allowEndOfStream);
    var e := LineEnd(input, from);
    if e < |input| && !closes(input[from..e]) {
      ClosingFenceIsFirst(input, e + 1, closes, allowEndOfStream);
    }
    forall i: nat | from <= i <= |input| && ClosesAt(input, i, closes, allowEndOfStream)
      ensures r.Some? && r.value.0 <= i
    {
      LineStartsAreAtLineEnds(input, from, i);
    }
  }

  lemma LineStartsAreAtLineEnds(s: Text, from: nat, i: nat)
    requires from <= i && IsLineStart(s, from) && IsLineStart(s, i)
    ensures i == from || (LineEnd(s, from) < |s| && LineEnd(s, from) < i)
  {}

  /** A line that has ended ends at the same place when more is known. */
  lemma SameLineEnd(input: Text, more: Text, from: nat) returns (e: nat)
    requires from <= |input| && LineEnd(input, from) < |input|
    ensures e == LineEnd(input, from) == LineEnd(input + more, from) && (input + more)[from..e] == input[from..e]
  {
    e := LineEnd(input, from);
    LineEndIsUnique(input + more, from, e);
  }

  /** A closing line already complete is found again when more input arrives. */
  lemma {:induction false} ClosingFenceExtends(input: Text, more: Text, from: nat, closes: Text -> bool)
    requires from <= |input| && ClosingFence(input, from, closes, false).Some?
    ensures ClosingFence(input + more, from, closes, false) == ClosingFence(input, from, closes, false)
    decreases |input| - from
  {
    var e := SameLineEnd(input, more, from);
    if !closes(input[from..e]) {
      ClosingFenceExtends(input, more, e + 1, closes);
    }
  }

  function CodeEnd(s: Text, closingStart: nat): (e: nat)
    requires closingStart <= |s|
    ensures e <= closingStart
  {
    if closingStart > 0 && s[closingStart - 1] == '\n' then closingStart - 1 else closingStart
  }

  // ---------------------------------------------------------------- the batch parser

  /** What the parser knows: `done` is the text it has accounted for, `buffer` the text it has not. */
  datatype Config = Config(done: Text, buffer: Text, mode: ParserState, context: bool, budget: nat) {
    function Received(): Text { done + buffer }
    function Extend(more: Text): Config { this.(buffer := buffer + more) }
    function Disable(): Config { this.(context := false, budget := 0) }
    ghost predicate Consistent() { !context ==> budget == 0 }
  }

  const INITIAL := Config("", "", Normal, true, MAX_MARKDOWN_PARSE_BYTES)

  /** A stretch of input and what became of it.  `raw` is the input; no byte of it is in two pieces. */
  datatype Piece =
    | TextLine(raw: Text)
    | ShellLine(raw: Text, line: Text)
    | FenceOpen(raw: Text, fenceLen: nat)
    | FenceBody(raw: Text, code: Text)
    | FenceTail(raw: Text, code: Text)

  function PieceActions(md: Markdown, piece: Piece): seq<EmulatorAction> {
    match piece
    case TextLine(raw) => [Text(raw)]
    case ShellLine(_, line) =>
      var command := md.trim(line[if line == [] then 0 else 1..]);
      if command == [] then [] else [ShellCommand(command)]
    case FenceOpen(_, _) => []
    case FenceBody(_, code) => if md.trim(code) == [] then [] else [ExecuteCode(code)]
    case FenceTail(_, code) => if md.trim(code) == [] then [] else [ExecuteCode(md.trim(code))]
  }

  function Actions(md: Markdown, pieces: seq<Piece>): seq<EmulatorAction> {
    if pieces == [] then [] else PieceActions(md, pieces[0]) + Actions(md, pieces[1..])
  }

  lemma {:induction false} ActionsConcat(md: Markdown, a: seq<Piece>, b: seq<Piece>)
    ensures Actions(md, a + b) == Actions(md, a) + Actions(md, b)
  {
    if a == [] {
      assert a + b == b;
    } else {
      assert (a + b)[1..] == a[1..] + b;
      ActionsConcat(md, a[1..], b);
    }
  }

  /** Consults the Markdown library on a prefix of the text, while the parse budget lasts. */
  function Matches(cfg: Config, range: Option<(nat, nat)>, p: (Text, nat) -> bool): (r: (bool, Config))
    requires range.Some? ==> range.value.1 <= |cfg.Received()|
  {
    match range
    case None => (false, cfg)
    case Some((lineStart, end)) =>
      if end > cfg.budget then (false, cfg.Disable())
      else (p(cfg.Received()[..end], lineStart), cfg.(budget := cfg.budget - end))
  }

  /** One turn of the loop in `process_chunk`: None when more input is needed. */
  function Step(g: Grammar, cfg: Config): (r: Option<(Config, Piece)>)
    ensures r.Some? ==> |r.value.0.buffer| < |cfg.buffer|
  {
    match cfg.mode
    case InExecuteBlock(fenceLen) => BlockStep(cfg, g.closes(fenceLen))
    case Normal =>
      var e := LineEnd(cfg.buffer, 0);
      if e == |cfg.buffer| then None
      else Some(LineStep(g, cfg, e))
  }

  function BlockStep(cfg: Config, closes: Text -> bool): (r: Option<(Config, Piece)>)
    ensures r.Some? ==> |r.value.0.buffer| < |cfg.buffer|
  {
    match ClosingFence(cfg.buffer, 0, closes, false)
    case None => None
    case Some((start, consumed)) =>
      Some((cfg.(done := cfg.done + cfg.buffer[..consumed], buffer := cfg.buffer[consumed..], mode := Normal),
            FenceBody(cfg.buffer[..consumed], StripCr(cfg.buffer[..CodeEnd(cfg.buffer, start)]))))
  }

  function LineStep(g: Grammar, cfg: Config, e: nat): (r: (Config, Piece))
    requires e < |cfg.buffer|
    ensures r.0.buffer == cfg.buffer[e + 1..] && r.0.done == cfg.done + cfg.buffer[..e + 1]
    ensures r.1.raw == cfg.buffer[..e + 1]
  {
    var range := if cfg.context then Some((|cfg.done|, |cfg.done| + e + 1)) else None;
    var line := cfg.buffer[..e];
    var raw := cfg.buffer[..e + 1];
    var next := cfg.(done := cfg.done + raw, buffer := cfg.buffer[e + 1..]);
    var (fence, afterFence) := TryFence(g, next, range, line);
    if fence.Some? then (afterFence.(mode := InExecuteBlock(fence.value)), FenceOpen(raw, fence.value))
    else
      var (isShell, afterShell) := TryShell(g, afterFence, range, StripCr(line));
      if isShell then (afterShell, ShellLine(raw, StripCr(line))) else (afterShell, TextLine(raw))
  }

  /** The fence a line opens, if it is a top-level execute fence. */
  function TryFence(g: Grammar, cfg: Config, range: Option<(nat, nat)>, line: Text): (r: (Option<nat>, Config))
    requires range.Some? ==> range.value.1 <= |cfg.Received()|
    ensures r.1 == cfg.(context := r.1.context, budget := r.1.budget)
  {
    if g.codeMode && g.executeFenceLen(line).Some? then
      var (isFence, next) := Matches(cfg, range, g.markdown.topLevelExecuteFence);
      (if isFence then g.executeFenceLen(line) else None, next)
    else (None, cfg)
  }

  /** Whether a line is a top-level `$` line. */
  function TryShell(g: Grammar, cfg: Config, range: Option<(nat, nat)>, line: Text): (r: (bool, Config))
    requires range.Some? ==> range.value.1 <= |cfg.Received()|
    ensures r.1 == cfg.(context := r.1.context, budget := r.1.budget)
  {
    if "$" <= line then Matches(cfg, range, g.markdown.topLevelParagraphLine) else (false, cfg)
  }

  /** A turn of the loop as a value, so that what holds of every loop can be said once. */
  type Stepper = step: Config -> Option<(Config, Piece)> | Shrinks(step) witness NoStep

  ghost predicate Shrinks(step: Config -> Option<(Config, Piece)>) {
    forall cfg :: step(cfg).Some? ==> |step(cfg).value.0.buffer| < |cfg.buffer|
  }

  function NoStep(cfg: Config): Option<(Config, Piece)> { None }

  function Stepping(g: Grammar): Stepper { (cfg: Config) => Step(g, cfg) }

  /** The loop of `process_chunk`, run until it needs more input. */
  function Drain(step: Stepper, cfg: Config): (Config, seq<Piece>)
    decreases |cfg.buffer|
  {
    match step(cfg)
    case None => (cfg, [])
    case Some((next, piece)) =>
      var (last, pieces) := Drain(step, next);
      (last, [piece] + pieces)
  }

  /** `process_chunk`. */
  function Feed(step: Stepper, cfg: Config, chunk: Text): (Config, seq<Piece>) {
    var grown := cfg.Extend(chunk);
    Drain(step, if cfg.context && |grown.Received()| > MAX_MARKDOWN_CONTEXT_BYTES then grown.Disable() else grown)
  }

  /** What `flush` adds after its own `process_chunk("")`. */
  function Finish(g: Grammar, cfg: Config): seq<Piece> {
    match cfg.mode
    case InExecuteBlock(fenceLen) =>
      var range := ClosingFence(cfg.buffer, 0, g.closes(fenceLen), true);
      var codeEnd := if range.Some? then CodeEnd(cfg.buffer, range.value.0) else |cfg.buffer|;
      [FenceTail(cfg.buffer, StripCr(cfg.buffer[..codeEnd]))]
    case Normal =>
      if cfg.buffer == [] then [] else [FinishLine(g, cfg)]
  }

  /** What becomes of a last line without a line end. */
  function FinishLine(g: Grammar, cfg: Config): Piece {
    var range := if cfg.context then Some((|cfg.done|, |cfg.Received()|)) else None;
    FinishLineAt(g, cfg, range, StripCr(cfg.buffer), cfg.buffer)
  }

  function FinishLineAt(g: Grammar, cfg: Config, range: Option<(nat, nat)>, line: Text, text: Text): Piece
    requires range.Some? ==> range.value.1 <= |cfg.Received()|
  {
    var (fence, next) := TryFence(g, cfg, range, line);
    if fence.Some? then FenceOpen(text, fence.value)
    else if TryShell(g, next, range, line).0 then ShellLine(text, line)
    else TextLine(text)
  }

  function FeedAll(step: Stepper, cfg: Config, chunks: seq<Text>): (Config, seq<Piece>)
    decreases |chunks|
  {
    if chunks == [] then (cfg, [])
    else
      var (next, first) := Feed(step, cfg, chunks[0]);
      var (last, rest) := FeedAll(step, next, chunks[1..]);
      (last, first + rest)
  }

  /** `flush`. */
  function Flush(g: Grammar, cfg: Config): seq<Piece> {
    var (last, pieces) := Feed(Stepping(g), cfg, "");
    pieces + Finish(g, last)
  }

  /** Every piece of a whole stream: all chunks, then the flush. */
  function StreamPieces(g: Grammar, chunks: seq<Text>): seq<Piece> {
    var (last, pieces) := FeedAll(Stepping(g), INITIAL, chunks);
    pieces + Flush(g, last)
  }

  function StreamActions(g: Grammar, chunks: seq<Text>): seq<EmulatorAction> {
    Actions(g.markdown, StreamPieces(g, chunks))
  }

  function Flatten(chunks: seq<Text>): Text {
    if chunks == [] then "" else chunks[0] + Flatten(chunks[1..])
  }
}

/** What the streaming parser emits, said of the text: a reading cuts the text into stretches and
    gives the actions of each.  It is independent of the batch parser, and there is only one. */
module ActionMeaning {
  import opened ToolEmulation
  import opened ChunkInvariance
  import opened RecognisedLines
  import opened Wrappers

  /** Where a reading stands: in an execute block or not, and how many bytes the Markdown library may
      still be asked to parse; none when the context is gone. */
  datatype Reader = Reader(mode: ParserState, left: Option<nat>)

  /** A stretch of the text and what it gives. */
  datatype Stretch = Stretch(raw: Text, actions: seq<EmulatorAction>)

  const FRESH := Reader(Normal, Some(1048576))

  // ---------------------------------------------------------------- line ends

  predicate EndsWith(s: Text, c: char) { s != "" && s[|s| - 1] == c }

  /** Nothing but the last character may be a line feed. */
  predicate IsALine(raw: Text) { raw != "" && forall i | 0 <= i < |raw| - 1 :: raw[i] != '\n' }

  /** `raw` is the line and its end: CR LF, LF, CR or nothing, as much of it as there is. */
  ghost predicate HasLine(raw: Text, line: Text) {
    && '\n' !in line
    && (raw == line + "\r\n" || raw == line + "\r" || ((raw == line + "\n" || raw == line) && !EndsWith(line, '\r')))
  }

  /** `body` is some complete lines, `code` the same without the last line end. */
  ghost predicate HasCode(body: Text, code: Text) {
    (body == "" && code == "") || body == code + "\r\n" || (body == code + "\n" && !EndsWith(code, '\r'))
  }

  /** `rest` is `code`, but for a carriage return at its end. */
  ghost predicate HasRest(rest: Text, code: Text) {
    rest == code + "\r" || (rest == code && !EndsWith(code, '\r'))
  }

  // ---------------------------------------------------------------- lines

  /** The bytes left after a look at so many, if they may be looked at. */
  function Ask(left: Option<nat>, bytes: nat): Option<nat> {
    if left.Some? && bytes <= left.value then Some(left.value - bytes) else None
  }

  /** What a fence is looked for in: the line without its LF, or without a CR that ends the stream. */
  function FenceText(raw: Text): Text {
    if EndsWith(raw, '\n') || EndsWith(raw, '\r') then raw[..|raw| - 1] else raw
  }

  function AfterFenceLook(g: Grammar, before: Text, left: Option<nat>, raw: Text): Option<nat> {
    if LooksLikeFence(g, FenceText(raw)) then Ask(left, |before| + |raw|) else left
  }

  /** An execute fence in code mode, at the top level of all text so far. */
  predicate OpensBlock(g: Grammar, before: Text, left: Option<nat>, raw: Text) {
    && LooksLikeFence(g, FenceText(raw)) && Ask(left, |before| + |raw|).Some?
    && g.markdown.topLevelExecuteFence(before + raw, |before|)
  }

  /** A line that opens no block and starts with `$`, at a top-level paragraph of all text so far. */
  predicate IsCommand(g: Grammar, before: Text, left: Option<nat>, raw: Text) {
    && !OpensBlock(g, before, left, raw) && LooksLikeCommand(raw)
    && Ask(AfterFenceLook(g, before, left, raw), |before| + |raw|).Some?
    && g.markdown.topLevelParagraphLine(before + raw, |before|)
  }

  function AfterLine(g: Grammar, before: Text, left: Option<nat>, raw: Text): Reader {
    var left' := AfterFenceLook(g, before, left, raw);
    if OpensBlock(g, before, left, raw) then Reader(InExecuteBlock(g.executeFenceLen(FenceText(raw)).value), left')
    else Reader(Normal, if LooksLikeCommand(raw) then Ask(left', |before| + |raw|) else left')
  }

  /** A line that opens a block gives nothing; a command gives what follows its `$`, trimmed, if that is
      not empty; every other line gives itself. */
  ghost predicate ReadsLine(g: Grammar, before: Text, left: Option<nat>, x: Stretch) {
    && IsALine(x.raw)
    && if OpensBlock(g, before, left, x.raw) then x.actions == []
       else if IsCommand(g, before, left, x.raw) then exists command :: IsRun(g.markdown, x, command)
       else x.actions == [Text(x.raw)]
  }

  ghost predicate IsRun(md: Markdown, x: Stretch, command: Text) {
    && HasLine(x.raw, "$" + command)
    && x.actions == if md.trim(command) == "" then [] else [ShellCommand(md.trim(command))]
  }

  // ---------------------------------------------------------------- blocks

  /** No complete line closes the block. */
  ghost predicate NoLineCloses(text: Text, closes: Text -> bool) {
    forall i: nat | i < |text| && IsLineStart(text, i) && LineEnd(text, i) < |text| ::
      !closes(text[i..LineEnd(text, i)])
  }

  /** Complete lines, and after them the first line that closes the block. */
  ghost predicate IsClosed(raw: Text, body: Text, closing: Text, closes: Text -> bool) {
    && raw == body + closing + "\n" && '\n' !in closing && (body == "" || EndsWith(body, '\n'))
    && NoLineCloses(body, closes) && closes(closing)
  }

  /** A closed block gives its code, if that is not blank. */
  ghost predicate ReadsBlock(g: Grammar, fenceLen: nat, x: Stretch) {
    exists body, closing, code :: IsExecuted(g, fenceLen, x, body, closing, code)
  }

  ghost predicate IsExecuted(g: Grammar, fenceLen: nat, x: Stretch, body: Text, closing: Text, code: Text) {
    && IsClosed(x.raw, body, closing, g.closes(fenceLen)) && HasCode(body, code)
    && x.actions == if g.markdown.trim(code) == "" then [] else [ExecuteCode(code)]
  }

  /** A block open at the end of the stream gives its code, trimmed: all that is left, or what precedes
      an unfinished line that closes it. */
  ghost predicate ReadsRest(g: Grammar, fenceLen: nat, x: Stretch) {
    exists body, line, code :: IsFlushed(g, fenceLen, x, body, line, code)
  }

  ghost predicate IsFlushed(g: Grammar, fenceLen: nat, x: Stretch, body: Text, line: Text, code: Text) {
    && x.raw == body + line && '\n' !in line && (body == "" || EndsWith(body, '\n'))
    && NoLineCloses(body, g.closes(fenceLen))
    && (if g.closes(fenceLen)(line) then HasCode(body, code) else HasRest(x.raw, code))
    && x.actions == if g.markdown.trim(code) == "" then [] else [ExecuteCode(g.markdown.trim(code))]
  }

  // ---------------------------------------------------------------- fences

  /** At most three spaces, so many backticks and at least three, and the info string between blanks. */
  ghost predicate IsOpeningFence(line: Text, fenceLen: nat) {
    exists indent, fence, before, after, end ::
      FenceShape(line, indent, fence, before, "execute_typescript", after, end) && |fence| == fenceLen >= 3
  }

  /** At most three spaces, at least so many backticks, and nothing but blanks after them. */
  ghost predicate ClosesFence(line: Text, fenceLen: nat) {
    exists indent, fence, blanks, end :: FenceShape(line, indent, fence, blanks, "", "", end) && |fence| >= fenceLen
  }

  lemma OpeningFences(line: Text, fenceLen: nat)
    ensures ExecuteFenceLen(line) == Some(fenceLen) <==> IsOpeningFence(line, fenceLen)
  {
    if ExecuteFenceLen(line) == Some(fenceLen) {
      var indent, fence, before, after, end := ExecuteFenceLenIsSound(line);
    }
    if IsOpeningFence(line, fenceLen) {
      var indent, fence, before, after, end :|
        FenceShape(line, indent, fence, before, "execute_typescript", after, end) && |fence| == fenceLen >= 3;
      ExecuteFenceLenIsComplete(line, indent, fence, before, after, end);
    }
  }

  lemma ClosingFences(line: Text, fenceLen: nat)
    requires fenceLen > 0
    ensures IsClosingFence(line, fenceLen) <==> ClosesFence(line, fenceLen)
  {
    if IsClosingFence(line, fenceLen) {
      var indent, fence, blanks, end := IsClosingFenceIsSound(line, fenceLen);
    }
    if ClosesFence(line, fenceLen) {
      var indent, fence, blanks, end :| FenceShape(line, indent, fence, blanks, "", "", end) && |fence| >= fenceLen;
      IsClosingFenceIsComplete(line, indent, fence, blanks, end, fenceLen);
    }
  }

  /** What the parser takes for an opening and for a closing fence. */
  lemma FencesOfTheParser(markdown: Markdown, codeMode: bool, line: Text, fenceLen: nat)
    ensures var g := EmulatorGrammar(markdown, codeMode);
            && g.markdown == markdown && g.codeMode == codeMode
            && (g.executeFenceLen(line) == Some(fenceLen) <==> IsOpeningFence(line, fenceLen))
            && (fenceLen > 0 ==> (g.closes(fenceLen)(line) <==> ClosesFence(line, fenceLen)))
  {
    OpeningFences(line, fenceLen);
    if fenceLen > 0 {
      ClosingFences(line, fenceLen);
    }
  }

  // ---------------------------------------------------------------- readings

  /** The context is gone for a stretch that ends beyond `cut`. */
  function LeftFor(cut: nat, before: Text, s: Reader, raw: Text): Option<nat> {
    if |before| + |raw| <= cut then s.left else None
  }

  /** A stretch is a line or a block; only at the end of the stream may it be unfinished. */
  ghost predicate Reads(g: Grammar, cut: nat, before: Text, s: Reader, x: Stretch, last: bool) {
    match s.mode
    case Normal => ReadsLine(g, before, LeftFor(cut, before, s, x.raw), x) && (last || EndsWith(x.raw, '\n'))
    case InExecuteBlock(fenceLen) => ReadsBlock(g, fenceLen, x) || (last && ReadsRest(g, fenceLen, x))
  }

  function After(g: Grammar, cut: nat, before: Text, s: Reader, raw: Text): Reader {
    var left := LeftFor(cut, before, s, raw);
    if s.mode.Normal? then AfterLine(g, before, left, raw) else Reader(Normal, left)
  }

  /** `xs` reads the text behind `before`, to the end of the stream if it has `ended`. */
  ghost predicate IsReading(g: Grammar, cut: nat, before: Text, s: Reader, xs: seq<Stretch>, ended: bool)
    decreases |xs|
  {
    if xs == [] then ended ==> s.mode.Normal?
    else
      && Reads(g, cut, before, s, xs[0], ended && |xs| == 1)
      && ((|xs| == 1 && !EndsWith(xs[0].raw, '\n'))
          || IsReading(g, cut, before + xs[0].raw, After(g, cut, before, s, xs[0].raw), xs[1..], ended))
  }

  function Raws(xs: seq<Stretch>): Text { if xs == [] then "" else xs[0].raw + Raws(xs[1..]) }

  function Given(xs: seq<Stretch>): seq<EmulatorAction> { if xs == [] then [] else xs[0].actions + Given(xs[1..]) }

  /** The actions are those of a reading of the text. */
  ghost predicate ReadAs(
    g: Grammar, cut: nat, before: Text, s: Reader, text: Text, ended: bool, actions: seq<EmulatorAction>) {
    exists xs :: IsReading(g, cut, before, s, xs, ended) && Raws(xs) == text && Given(xs) == actions
  }

  // ---------------------------------------------------------------- the parser reads

  function LeftOf(cfg: Config): Option<nat> { if cfg.context then Some(cfg.budget) else None }

  function ReaderOf(cfg: Config): Reader { Reader(cfg.mode, LeftOf(cfg)) }

  function StretchOf(md: Markdown, piece: Piece): Stretch { Stretch(piece.raw, PieceActions(md, piece)) }

  lemma MatchesAsks(cfg: Config, range: Option<(nat, nat)>, start: nat, end: nat, p: (Text, nat) -> bool)
    requires cfg.Consistent() && 0 < end <= |cfg.Received()|
    requires if range.Some? then range.value == (start, end) else !cfg.context
    ensures var (r, next) := Matches(cfg, range, p);
            && (r <==> Ask(LeftOf(cfg), end).Some? && p(cfg.Received()[..end], start))
            && LeftOf(next) == Ask(LeftOf(cfg), end) && next.Consistent()
  {}

  lemma FenceLook(g: Grammar, cfg: Config, range: Option<(nat, nat)>, line: Text, before: Text, raw: Text)
    requires cfg.Consistent() && raw != "" && |before| + |raw| <= |cfg.Received()|
    requires cfg.Received()[..|before| + |raw|] == before + raw && line == FenceText(raw)
    requires if range.Some? then range.value == (|before|, |before| + |raw|) else !cfg.context
    ensures var (fence, next) := TryFence(g, cfg, range, line);
            && fence == (if OpensBlock(g, before, LeftOf(cfg), raw) then g.executeFenceLen(line) else None)
            && LeftOf(next) == AfterFenceLook(g, before, LeftOf(cfg), raw) && next.Consistent()
  {
    MatchesAsks(cfg, range, |before|, |before| + |raw|, g.markdown.topLevelExecuteFence);
  }

  lemma CommandLook(g: Grammar, cfg: Config, range: Option<(nat, nat)>, line: Text, before: Text, raw: Text)
    requires cfg.Consistent() && raw != "" && |before| + |raw| <= |cfg.Received()|
    requires cfg.Received()[..|before| + |raw|] == before + raw && (LooksLikeCommand(raw) <==> "$" <= line)
    requires if range.Some? then range.value == (|before|, |before| + |raw|) else !cfg.context
    ensures var (isShell, next) := TryShell(g, cfg, range, line);
            && (isShell <==> LooksLikeCommand(raw) && Ask(LeftOf(cfg), |before| + |raw|).Some?
                             && g.markdown.topLevelParagraphLine(before + raw, |before|))
            && LeftOf(next) == if LooksLikeCommand(raw) then Ask(LeftOf(cfg), |before| + |raw|) else LeftOf(cfg)
  {
    MatchesAsks(cfg, range, |before|, |before| + |raw|, g.markdown.topLevelParagraphLine);
  }

  lemma LineAndItsEnd(raw: Text, line: Text)
    requires IsALine(raw) && line == StripCr(if EndsWith(raw, '\n') then raw[..|raw| - 1] else raw)
    ensures HasLine(raw, line) && (LooksLikeCommand(raw) <==> "$" <= line)
  {
    var content := if EndsWith(raw, '\n') then raw[..|raw| - 1] else raw;
    assert forall i | 0 <= i < |content| :: content[i] == raw[i];
    assert EndsWith(raw, '\n') ==> raw == content + "\n";
    assert EndsWith(content, '\r') ==> content == line + "\r";
    assert line + "\r" + "\n" == line + "\r\n";
  }

  lemma CommandRuns(md: Markdown, raw: Text, line: Text)
    requires HasLine(raw, line) && "$" <= line
    ensures IsRun(md, StretchOf(md, ShellLine(raw, line)), line[1..])
  {
    assert line == "$" + line[1..];
  }

  function PieceFor(raw: Text, line: Text, fence: Option<nat>, isShell: bool): Piece {
    if fence.Some? then FenceOpen(raw, fence.value) else if isShell then ShellLine(raw, line) else TextLine(raw)
  }

  /** What a line gives, by what is recognised in it. */
  lemma PieceOfLine(
    g: Grammar, before: Text, left: Option<nat>, raw: Text, line: Text, fence: Option<nat>, isShell: bool)
    requires IsALine(raw) && HasLine(raw, line) && (LooksLikeCommand(raw) <==> "$" <= line)
    requires fence.Some? <==> OpensBlock(g, before, left, raw)
    requires fence.None? ==> (isShell <==> IsCommand(g, before, left, raw))
    ensures ReadsLine(g, before, left, StretchOf(g.markdown, PieceFor(raw, line, fence, isShell)))
  {
    if fence.None? && isShell {
      CommandRuns(g.markdown, raw, line);
    }
  }

  /** Both looks at a line, one after the other. */
  lemma BothLooks(
    g: Grammar, cfg: Config, range: Option<(nat, nat)>, fenceText: Text, line: Text, before: Text, raw: Text)
    returns (fence: Option<nat>, afterFence: Config, isShell: bool, afterShell: Config)
    requires cfg.Consistent() && IsALine(raw) && |before| + |raw| <= |cfg.Received()|
    requires cfg.Received()[..|before| + |raw|] == before + raw && fenceText == FenceText(raw)
    requires LooksLikeCommand(raw) <==> "$" <= line
    requires if range.Some? then range.value == (|before|, |before| + |raw|) else !cfg.context
    ensures (fence, afterFence) == TryFence(g, cfg, range, fenceText)
    ensures range.Some? ==> range.value.1 <= |afterFence.Received()|
    ensures (isShell, afterShell) == TryShell(g, afterFence, range, line)
    ensures fence.Some? <==> OpensBlock(g, before, LeftOf(cfg), raw)
    ensures fence.Some? ==>
              AfterLine(g, before, LeftOf(cfg), raw) == Reader(InExecuteBlock(fence.value), LeftOf(afterFence))
    ensures fence.None? ==> (isShell <==> IsCommand(g, before, LeftOf(cfg), raw))
    ensures fence.None? ==> AfterLine(g, before, LeftOf(cfg), raw) == Reader(Normal, LeftOf(afterShell))
  {
    FenceLook(g, cfg, range, fenceText, before, raw);
    fence := TryFence(g, cfg, range, fenceText).0;
    afterFence := TryFence(g, cfg, range, fenceText).1;
    CommandLook(g, afterFence, range, line, before, raw);
    isShell := TryShell(g, afterFence, range, line).0;
    afterShell := TryShell(g, afterFence, range, line).1;
  }

  ghost predicate LineIsRead(g: Grammar, cfg: Config, next: Config, piece: Piece) {
    && ReadsLine(g, cfg.done, LeftOf(cfg), StretchOf(g.markdown, piece)) && EndsWith(piece.raw, '\n')
    && ReaderOf(next) == AfterLine(g, cfg.done, LeftOf(cfg), piece.raw)
  }

  lemma LineOfBuffer(cfg: Config, e: nat, raw: Text, line: Text)
    requires e == LineEnd(cfg.buffer, 0) < |cfg.buffer| && raw == cfg.buffer[..e + 1] && line == cfg.buffer[..e]
    ensures IsALine(raw) && EndsWith(raw, '\n') && raw[..|raw| - 1] == line && line == FenceText(raw)
    ensures HasLine(raw, StripCr(line)) && (LooksLikeCommand(raw) <==> "$" <= StripCr(line))
  {
    LineAndItsEnd(raw, StripCr(line));
  }

  /** What the step makes of the two looks. */
  lemma LineStepLooks(g: Grammar, cfg: Config, e: nat, raw: Text, line: Text)
    returns (fence: Option<nat>, isShell: bool)
    requires cfg.Consistent() && cfg.mode.Normal? && e < |cfg.buffer|
    requires raw == cfg.buffer[..e + 1] && line == cfg.buffer[..e]
    requires IsALine(raw) && line == FenceText(raw) && (LooksLikeCommand(raw) <==> "$" <= StripCr(line))
    ensures LineStep(g, cfg, e).1 == PieceFor(raw, StripCr(line), fence, isShell)
    ensures fence.Some? <==> OpensBlock(g, cfg.done, LeftOf(cfg), raw)
    ensures fence.None? ==> (isShell <==> IsCommand(g, cfg.done, LeftOf(cfg), raw))
    ensures ReaderOf(LineStep(g, cfg, e).0) == AfterLine(g, cfg.done, LeftOf(cfg), raw)
  {
    var next := cfg.(done := cfg.done + raw, buffer := cfg.buffer[e + 1..]);
    var range := if cfg.context then Some((|cfg.done|, |cfg.done| + e + 1)) else None;
    assert next.Received()[..|cfg.done| + |raw|] == cfg.done + raw;
    var afterFence, afterShell;
    fence, afterFence, isShell, afterShell := BothLooks(g, next, range, line, StripCr(line), cfg.done, raw);
  }

  lemma LineReads(g: Grammar, cfg: Config, e: nat)
    requires cfg.Consistent() && cfg.mode.Normal? && e == LineEnd(cfg.buffer, 0) < |cfg.buffer|
    ensures LineIsRead(g, cfg, LineStep(g, cfg, e).0, LineStep(g, cfg, e).1)
  {
    var raw, line := cfg.buffer[..e + 1], cfg.buffer[..e];
    LineOfBuffer(cfg, e, raw, line);
    var fence, isShell := LineStepLooks(g, cfg, e, raw, line);
    PieceOfLine(g, cfg.done, LeftOf(cfg), raw, StripCr(line), fence, isShell);
  }

  lemma LastLineOfBuffer(raw: Text, line: Text)
    requires raw != "" && (forall i | 0 <= i < |raw| :: raw[i] != '\n') && line == StripCr(raw)
    ensures IsALine(raw) && line == FenceText(raw)
    ensures HasLine(raw, line) && (LooksLikeCommand(raw) <==> "$" <= line)
  {
    assert !EndsWith(raw, '\n');
    LineAndItsEnd(raw, line);
  }

  lemma LastLineLooks(g: Grammar, cfg: Config, raw: Text, line: Text) returns (fence: Option<nat>, isShell: bool)
    requires cfg.Consistent() && raw == cfg.buffer && line == StripCr(raw)
    requires IsALine(raw) && line == FenceText(raw) && (LooksLikeCommand(raw) <==> "$" <= line)
    ensures FinishLine(g, cfg) == PieceFor(raw, line, fence, isShell)
    ensures fence.Some? <==> OpensBlock(g, cfg.done, LeftOf(cfg), raw)
    ensures fence.None? ==> (isShell <==> IsCommand(g, cfg.done, LeftOf(cfg), raw))
  {
    var range := if cfg.context then Some((|cfg.done|, |cfg.Received()|)) else None;
    assert cfg.Received()[..|cfg.Received()|] == cfg.done + raw;
    var afterFence, afterShell;
    fence, afterFence, isShell, afterShell := BothLooks(g, cfg, range, line, line, cfg.done, raw);
  }

  lemma LastLineReads(g: Grammar, cfg: Config)
    requires cfg.Consistent() && cfg.buffer != "" && LineEnd(cfg.buffer, 0) == |cfg.buffer|
    ensures ReadsLine(g, cfg.done, LeftOf(cfg), StretchOf(g.markdown, FinishLine(g, cfg)))
  {
    var raw, line := cfg.buffer, StripCr(cfg.buffer);
    LastLineOfBuffer(raw, line);
    var fence, isShell := LastLineLooks(g, cfg, raw, line);
    PieceOfLine(g, cfg.done, LeftOf(cfg), raw, line, fence, isShell);
  }

  // Blocks.

  lemma {:induction false} ClosingFenceEnds(input: Text, from: nat, closes: Text -> bool, allowEndOfStream: bool)
    requires from <= |input| && ClosingFence(input, from, closes, allowEndOfStream).Some?
    ensures var (start, consumed) := ClosingFence(input, from, closes, allowEndOfStream).value;
            consumed == if LineEnd(input, start) < |input| then LineEnd(input, start) + 1 else LineEnd(input, start)
    decreases |input| - from
  {
    var e := LineEnd(input, from);
    if !closes(input[from..e]) {
      ClosingFenceEnds(input, e + 1, closes, allowEndOfStream);
    }
  }

  lemma LineOfPrefix(input: Text, from: nat, end: nat)
    requires from <= end <= |input| && LineEnd(input[..end], from) < end
    ensures LineEnd(input, from) == LineEnd(input[..end], from)
    ensures input[from..LineEnd(input, from)] == input[..end][from..LineEnd(input, from)]
  {
    var e := LineEnd(input[..end], from);
    assert input[..end][e] == input[e] && forall i | from <= i < e :: input[..end][i] == input[i];
    LineEndIsUnique(input, from, e);
  }

  /** What precedes the first closing line has no closing line. */
  lemma NoneBefore(input: Text, start: nat, closes: Text -> bool)
    requires start <= |input|
    requires forall i: nat | i < start :: !ClosesAt(input, i, closes, false)
    ensures NoLineCloses(input[..start], closes)
  {
    var body := input[..start];
    forall i: nat | i < |body| && IsLineStart(body, i) && LineEnd(body, i) < |body|
      ensures !closes(body[i..LineEnd(body, i)])
    {
      LineOfPrefix(input, i, start);
      assert !ClosesAt(input, i, closes, false);
    }
  }

  lemma CodeOfBody(input: Text, start: nat)
    requires IsLineStart(input, start)
    ensures HasCode(input[..start], StripCr(input[..CodeEnd(input, start)]))
    ensures input[..start] == "" || EndsWith(input[..start], '\n')
  {
    var body, content := input[..start], input[..CodeEnd(input, start)];
    var code := StripCr(content);
    if start > 0 {
      assert body == content + "\n";
      assert code != content ==> content == code + "\r";
      assert code + "\r" + "\n" == code + "\r\n";
    }
  }

  lemma LineAt(input: Text, start: nat, e: nat)
    requires start <= |input| && e == LineEnd(input, start)
    ensures '\n' !in input[start..e]
    ensures e < |input| ==> input[..e + 1] == input[..start] + input[start..e] + "\n"
    ensures e == |input| ==> input == input[..start] + input[start..e]
  {
    assert forall i | 0 <= i < e - start :: input[start..e][i] == input[start + i];
  }

  lemma BlockReads(g: Grammar, fenceLen: nat, cfg: Config)
    requires BlockStep(cfg, g.closes(fenceLen)).Some?
    ensures ReadsBlock(g, fenceLen, StretchOf(g.markdown, BlockStep(cfg, g.closes(fenceLen)).value.1))
  {
    var input, closes := cfg.buffer, g.closes(fenceLen);
    var (start, consumed) := ClosingFence(input, 0, closes, false).value;
    var e := LineEnd(input, start);
    ClosingFenceIsFirst(input, 0, closes, false);
    ClosingFenceEnds(input, 0, closes, false);
    NoneBefore(input, start, closes);
    CodeOfBody(input, start);
    LineAt(input, start, e);
    var code := StripCr(input[..CodeEnd(input, start)]);
    assert IsExecuted(g, fenceLen, StretchOf(g.markdown, FenceBody(input[..consumed], code)), input[..start],
                      input[start..e], code);
  }

  function LastLineStart(s: Text): (k: nat)
    ensures IsLineStart(s, k) && forall i | k <= i < |s| :: s[i] != '\n'
  {
    if s == "" || s[|s| - 1] == '\n' then |s| else LastLineStart(s[..|s| - 1])
  }

  lemma LastLineEnds(s: Text, k: nat)
    requires k <= |s| && forall i | k <= i < |s| :: s[i] != '\n'
    ensures LineEnd(s, k) == |s|
  {}

  lemma RestOfStream(s: Text)
    ensures HasRest(s, StripCr(s))
  {
    if s != "" && s[|s| - 1] == '\r' {
      assert s == s[..|s| - 1] + "\r";
    }
  }

  /** The closing line found at the end of the stream, if any, is the unfinished last line. */
  lemma FoundInTheLastLine(input: Text, closes: Text -> bool, k: nat)
    requires ClosingFence(input, 0, closes, false).None?
    requires IsLineStart(input, k) && forall i | k <= i < |input| :: input[i] != '\n'
    ensures NoLineCloses(input[..k], closes)
    ensures var range := ClosingFence(input, 0, closes, true);
            if closes(input[k..]) then range.Some? && range.value.0 == k else range.None?
  {
    ClosingFenceIsFirst(input, 0, closes, false);
    ClosingFenceIsFirst(input, 0, closes, true);
    LastLineEnds(input, k);
    NoneBefore(input, k, closes);
    assert input[k..LineEnd(input, k)] == input[k..];
    assert closes(input[k..]) <==> ClosesAt(input, k, closes, true);
    var range := ClosingFence(input, 0, closes, true);
    if range.Some? {
      OnlyTheLastLineCloses(input, closes, range.value.0, k);
    }
  }

  lemma TailIsFlushed(g: Grammar, fenceLen: nat, input: Text, k: nat, code: Text)
    requires IsLineStart(input, k) && forall i | k <= i < |input| :: input[i] != '\n'
    requires NoLineCloses(input[..k], g.closes(fenceLen))
    requires if g.closes(fenceLen)(input[k..]) then HasCode(input[..k], code) else HasRest(input, code)
    ensures ReadsRest(g, fenceLen, StretchOf(g.markdown, FenceTail(input, code)))
  {
    CodeOfBody(input, k);
    assert input == input[..k] + input[k..];
    assert IsFlushed(g, fenceLen, StretchOf(g.markdown, FenceTail(input, code)), input[..k], input[k..], code);
  }

  lemma RestReads(g: Grammar, fenceLen: nat, cfg: Config)
    requires cfg.mode == InExecuteBlock(fenceLen) && ClosingFence(cfg.buffer, 0, g.closes(fenceLen), false).None?
    ensures |Finish(g, cfg)| == 1 && ReadsRest(g, fenceLen, StretchOf(g.markdown, Finish(g, cfg)[0]))
  {
    var input, k := cfg.buffer, LastLineStart(cfg.buffer);
    FoundInTheLastLine(input, g.closes(fenceLen), k);
    if g.closes(fenceLen)(input[k..]) {
      CodeOfBody(input, k);
      TailIsFlushed(g, fenceLen, input, k, StripCr(input[..CodeEnd(input, k)]));
    } else {
      RestOfStream(input);
      assert input[..|input|] == input;
      TailIsFlushed(g, fenceLen, input, k, StripCr(input));
    }
  }

  lemma OnlyTheLastLineCloses(input: Text, closes: Text -> bool, start: nat, k: nat)
    requires ClosesAt(input, start, closes, true) && !ClosesAt(input, start, closes, false)
    requires IsLineStart(input, k) && forall i | k <= i < |input| :: input[i] != '\n'
    ensures start == k
  {
    if start < k {
      LineStartsAreAtLineEnds(input, start, k);
    } else if k < start {
      LineStartsAreAtLineEnds(input, k, start);
    }
  }

  // Runs of the parser.

  ghost predicate StepIsRead(g: Grammar, cfg: Config, next: Config, piece: Piece) {
    match cfg.mode
    case Normal => LineIsRead(g, cfg, next, piece)
    case InExecuteBlock(fenceLen) =>
      && ReadsBlock(g, fenceLen, StretchOf(g.markdown, piece)) && EndsWith(piece.raw, '\n')
      && ReaderOf(next) == Reader(Normal, LeftOf(cfg))
  }

  ghost predicate StepsAreRead(step: Stepper, g: Grammar) {
    forall cfg: Config | cfg.Consistent() && step(cfg).Some? ::
      StepIsRead(g, cfg, step(cfg).value.0, step(cfg).value.1)
  }

  lemma BlockIsRead(g: Grammar, cfg: Config, fenceLen: nat)
    requires cfg.mode == InExecuteBlock(fenceLen) && BlockStep(cfg, g.closes(fenceLen)).Some?
    ensures StepIsRead(g, cfg, BlockStep(cfg, g.closes(fenceLen)).value.0, BlockStep(cfg, g.closes(fenceLen)).value.1)
  {
    BlockReads(g, fenceLen, cfg);
    var x := StretchOf(g.markdown, BlockStep(cfg, g.closes(fenceLen)).value.1);
    var body, closing, code :| IsExecuted(g, fenceLen, x, body, closing, code);
  }

  lemma SteppingIsRead(g: Grammar)
    ensures StepsAreRead(Stepping(g), g)
  {
    var step := Stepping(g);
    forall cfg: Config | cfg.Consistent() && step(cfg).Some?
      ensures StepIsRead(g, cfg, step(cfg).value.0, step(cfg).value.1)
    {
      if cfg.mode.Normal? {
        LineReads(g, cfg, LineEnd(cfg.buffer, 0));
      } else {
        BlockIsRead(g, cfg, cfg.mode.fenceLen);
      }
    }
  }

  /** What a turn takes, and what it gives, is a stretch of a reading. */
  ghost predicate TurnIsRead(g: Grammar, cfg: Config, raw: Text, actions: seq<EmulatorAction>) {
    Reads(g, |cfg.Received()|, cfg.done, ReaderOf(cfg), Stretch(raw, actions), false)
  }

  lemma TurnReads(g: Grammar, cfg: Config)
    requires cfg.Consistent() && Step(g, cfg).Some?
    ensures var (next, piece) := Step(g, cfg).value;
            TurnIsRead(g, cfg, piece.raw, PieceActions(g.markdown, piece)) && cfg.buffer == piece.raw + next.buffer
  {
    var step := Stepping(g);
    var (next, piece) := Step(g, cfg).value;
    SteppingIsRead(g);
    SteppingExtendsAndKeeps(g);
    assert step(cfg) == Step(g, cfg) && Moves(cfg, next, piece);
    RestIsTheBuffer(cfg, next, piece.raw);
    assert LeftFor(|cfg.Received()|, cfg.done, ReaderOf(cfg), piece.raw) == LeftOf(cfg);
  }

  function Stretches(md: Markdown, pieces: seq<Piece>): (xs: seq<Stretch>)
    ensures |xs| == |pieces|
  {
    if pieces == [] then [] else [StretchOf(md, pieces[0])] + Stretches(md, pieces[1..])
  }

  lemma {:induction false} StretchesOfPieces(md: Markdown, pieces: seq<Piece>)
    ensures Raws(Stretches(md, pieces)) == Raw(pieces) && Given(Stretches(md, pieces)) == Actions(md, pieces)
  {
    if pieces != [] {
      StretchesOfPieces(md, pieces[1..]);
      var xs := Stretches(md, pieces);
      assert xs[1..] == Stretches(md, pieces[1..]);
    }
  }

  lemma {:induction false} StretchesConcat(md: Markdown, a: seq<Piece>, b: seq<Piece>)
    ensures Stretches(md, a + b) == Stretches(md, a) + Stretches(md, b)
  {
    if a == [] {
      assert a + b == b;
    } else {
      assert (a + b)[1..] == a[1..] + b;
      StretchesConcat(md, a[1..], b);
    }
  }

  /** One more stretch, read by a step of the parser, in front of a reading. */
  lemma ReadsFirst(g: Grammar, cut: nat, cfg: Config, next: Config, piece: Piece, xs: seq<Stretch>, ended: bool)
    requires StepIsRead(g, cfg, next, piece) && Moves(cfg, next, piece)
    requires cfg.context ==> |cfg.Received()| <= cut
    requires IsReading(g, cut, next.done, ReaderOf(next), xs, ended)
    ensures IsReading(g, cut, cfg.done, ReaderOf(cfg), [StretchOf(g.markdown, piece)] + xs, ended)
  {
    var all := [StretchOf(g.markdown, piece)] + xs;
    assert all[1..] == xs;
    assert |cfg.done| + |piece.raw| <= |cfg.Received()|;
    assert LeftFor(cut, cfg.done, ReaderOf(cfg), piece.raw) == LeftOf(cfg);
  }

  lemma DrainedStretches(step: Stepper, md: Markdown, cfg: Config, rest: seq<Stretch>)
    requires step(cfg).Some?
    ensures Stretches(md, Drain(step, cfg).1) + rest
         == [StretchOf(md, step(cfg).value.1)] + (Stretches(md, Drain(step, step(cfg).value.0).1) + rest)
  {
    var (next, piece) := step(cfg).value;
    var pieces := Drain(step, cfg).1;
    assert pieces[0] == piece && pieces[1..] == Drain(step, next).1;
  }

  /** What the parser drains and a reading of what follows are a reading. */
  lemma {:induction false} DrainReads(step: Stepper, g: Grammar, cut: nat, cfg: Config, rest: seq<Stretch>, ended: bool)
    requires StepsAreRead(step, g) && Keeps(step) && cfg.Consistent()
    requires cfg.context ==> |cfg.Received()| <= cut
    requires IsReading(g, cut, Drain(step, cfg).0.done, ReaderOf(Drain(step, cfg).0), rest, ended)
    ensures IsReading(g, cut, cfg.done, ReaderOf(cfg), Stretches(g.markdown, Drain(step, cfg).1) + rest, ended)
    decreases |cfg.buffer|
  {
    if step(cfg).None? {
      assert [] + rest == rest;
    } else {
      var (next, piece) := step(cfg).value;
      DrainReads(step, g, cut, next, rest, ended);
      ReadsFirst(g, cut, cfg, next, piece, Stretches(g.markdown, Drain(step, next).1) + rest, ended);
      DrainedStretches(step, g.markdown, cfg, rest);
    }
  }

  /** The end of the stream. */
  lemma FinishReads(g: Grammar, cut: nat, cfg: Config)
    requires cfg.Consistent() && Drained(Stepping(g), cfg) && (cfg.context ==> |cfg.Received()| <= cut)
    ensures IsReading(g, cut, cfg.done, ReaderOf(cfg), Stretches(g.markdown, Finish(g, cfg)), true)
    ensures Raw(Finish(g, cfg)) == cfg.buffer
  {
    var pieces := Finish(g, cfg);
    if cfg.mode.InExecuteBlock? {
      RestReads(g, cfg.mode.fenceLen, cfg);
      LastStretchIsReading(g, cut, cfg, pieces[0]);
    } else if cfg.buffer != "" {
      LastLineReads(g, cfg);
      LastStretchIsReading(g, cut, cfg, pieces[0]);
    }
  }

  lemma LastStretchIsReading(g: Grammar, cut: nat, cfg: Config, piece: Piece)
    requires piece.raw == cfg.buffer && (cfg.context ==> |cfg.Received()| <= cut)
    requires match cfg.mode
             case Normal =>
               ReadsLine(g, cfg.done, LeftOf(cfg), StretchOf(g.markdown, piece)) && !EndsWith(piece.raw, '\n')
             case InExecuteBlock(fenceLen) => ReadsRest(g, fenceLen, StretchOf(g.markdown, piece))
    ensures IsReading(g, cut, cfg.done, ReaderOf(cfg), Stretches(g.markdown, [piece]), true)
    ensures Raw([piece]) == cfg.buffer
  {
    var xs := Stretches(g.markdown, [piece]);
    assert [piece][1..] == [] && xs[1..] == [] && xs[0] == StretchOf(g.markdown, piece);
    assert LeftFor(cut, cfg.done, ReaderOf(cfg), piece.raw) == LeftOf(cfg);
    assert piece.raw + "" == piece.raw;
  }

  // ---------------------------------------------------------------- streams

  /** A drained parser at the end of the stream only finishes. */
  lemma FlushOfDrained(g: Grammar, cfg: Config)
    requires Drained(Stepping(g), cfg) && (cfg.context ==> |cfg.Received()| <= MAX_MARKDOWN_CONTEXT_BYTES)
    ensures Flush(g, cfg) == Finish(g, cfg)
  {
    ExtendTwice(cfg, "", "");
    assert Feed(Stepping(g), cfg, "") == (cfg, []);
    assert [] + Finish(g, cfg) == Finish(g, cfg);
  }

  /** Beyond the cut it does not matter whether the context was there before. */
  lemma SameBeyondTheCut(g: Grammar, cut: nat, before: Text, s: Reader, t: Reader, xs: seq<Stretch>, ended: bool)
    requires s.mode == t.mode && xs != [] && |before| + |xs[0].raw| > cut
    requires IsReading(g, cut, before, s, xs, ended)
    ensures IsReading(g, cut, before, t, xs, ended)
  {
    assert LeftFor(cut, before, s, xs[0].raw) == LeftFor(cut, before, t, xs[0].raw);
  }

  ghost predicate LongSteps(step: Stepper, cfg: Config, more: Text) {
    var d := cfg.Extend(more).Disable();
    step(d).Some? ==> |step(d).value.1.raw| > |cfg.buffer|
  }

  /** A drained parser goes on with a stretch that ends in what is new. */
  lemma StepsEndInWhatIsNew(g: Grammar, cfg: Config, more: Text)
    requires Drained(Stepping(g), cfg)
    ensures LongSteps(Stepping(g), cfg, more)
  {
    var d := cfg.Extend(more).Disable();
    if cfg.mode.Normal? {
      assert LineEnd(cfg.buffer, 0) == |cfg.buffer|;
      assert forall i | 0 <= i < |cfg.buffer| :: d.buffer[i] == cfg.buffer[i];
    } else {
      ClosingLineIsNew(cfg.buffer, more, g.closes(cfg.mode.fenceLen));
    }
  }

  lemma ClosingLineIsNew(input: Text, more: Text, closes: Text -> bool)
    requires ClosingFence(input, 0, closes, false).None?
    ensures var r := ClosingFence(input + more, 0, closes, false); r.Some? ==> r.value.1 > |input|
  {
    var r := ClosingFence(input + more, 0, closes, false);
    if r.Some? && r.value.1 <= |input| {
      ClosingFenceIsFirst(input + more, 0, closes, false);
      ClosingFenceEnds(input + more, 0, closes, false);
      ClosingFenceIsFirst(input, 0, closes, false);
      ClosesInPrefix(input, more, r.value.0, closes);
    }
  }

  lemma ClosesInPrefix(input: Text, more: Text, i: nat, closes: Text -> bool)
    requires ClosesAt(input + more, i, closes, false) && LineEnd(input + more, i) < |input|
    ensures ClosesAt(input, i, closes, false)
  {
    var e := LineEnd(input + more, i);
    assert input[e] == (input + more)[e] && forall k | i <= k < e :: input[k] == (input + more)[k];
    LineEndIsUnique(input, i, e);
    assert input[i..e] == (input + more)[i..e];
    assert i > 0 ==> input[i - 1] == (input + more)[i - 1];
  }

  /** What is read from a configuration on, and then at the end of the stream. */
  lemma RestOfStreamReads(g: Grammar, cut: nat, cfg: Config)
    requires cfg.Consistent() && (cfg.context ==> |cfg.Received()| <= cut)
    ensures var (last, pieces) := Drain(Stepping(g), cfg);
            IsReading(g, cut, cfg.done, ReaderOf(cfg), Stretches(g.markdown, pieces + Finish(g, last)), true)
            && Raw(pieces + Finish(g, last)) == cfg.buffer && Drained(Stepping(g), last)
  {
    var (last, pieces) := Drain(Stepping(g), cfg);
    SteppingExtendsAndKeeps(g);
    SteppingIsRead(g);
    DrainIsDrained(Stepping(g), cfg);
    DrainKeeps(Stepping(g), cfg);
    FinishReads(g, cut, last);
    DrainReads(Stepping(g), g, cut, cfg, Stretches(g.markdown, Finish(g, last)), true);
    StretchesConcat(g.markdown, pieces, Finish(g, last));
    RawConcat(pieces, Finish(g, last));
    RestIsTheBuffer(cfg, last, Raw(pieces));
  }

  lemma RestIsTheBuffer(cfg: Config, last: Config, raw: Text)
    requires last.Received() == cfg.Received() && last.done == cfg.done + raw
    ensures raw + last.buffer == cfg.buffer
  {
    assert cfg.done + (raw + last.buffer) == cfg.done + cfg.buffer;
    assert (cfg.done + (raw + last.buffer))[|cfg.done|..] == raw + last.buffer;
    assert (cfg.done + cfg.buffer)[|cfg.done|..] == cfg.buffer;
  }

  lemma {:induction false} FirstStretch(step: Stepper, md: Markdown, cfg: Config, more: seq<Piece>)
    requires step(cfg).Some?
    ensures var xs := Stretches(md, Drain(step, cfg).1 + more); xs != [] && xs[0].raw == step(cfg).value.1.raw
  {
    var pieces := Drain(step, cfg).1 + more;
    assert pieces[0] == step(cfg).value.1;
  }

  /** The same after the context was lost at the cut. */
  lemma BeyondTheCutReads(g: Grammar, mid: Config, more: Text)
    requires mid.Consistent() && Drained(Stepping(g), mid) && more != ""
    ensures var d := mid.Extend(more).Disable();
            var (last, pieces) := Drain(Stepping(g), d);
            PiecesRead(g, |mid.Received()|, mid, pieces + Finish(g, last), true)
  {
    var d, step := mid.Extend(more).Disable(), Stepping(g);
    RestOfStreamReads(g, |mid.Received()|, d);
    var (last, pieces) := Drain(step, d);
    var all := pieces + Finish(g, last);
    var xs := Stretches(g.markdown, all);
    if step(d).Some? {
      StepsEndInWhatIsNew(g, mid, more);
      FirstStretch(step, g.markdown, d, Finish(g, last));
    } else {
      assert all == Finish(g, d);
      OnlyStretch(g, d);
    }
    SameBeyondTheCut(g, |mid.Received()|, mid.done, ReaderOf(d), ReaderOf(mid), xs, true);
  }

  lemma OnlyStretch(g: Grammar, cfg: Config)
    requires cfg.buffer != ""
    ensures var xs := Stretches(g.markdown, Finish(g, cfg)); xs != [] && xs[0].raw == cfg.buffer
  {}

  ghost predicate PiecesRead(g: Grammar, cut: nat, cfg: Config, pieces: seq<Piece>, ended: bool) {
    IsReading(g, cut, cfg.done, ReaderOf(cfg), Stretches(g.markdown, pieces), ended)
  }

  /** The whole stream, parsed at once with the context up to the cut. */
  lemma BatchReads(g: Grammar, text: Text, cut: nat)
    requires cut <= |text| && cut <= MAX_MARKDOWN_CONTEXT_BYTES
    ensures var (last, pieces) := Batch(Stepping(g), INITIAL, text, cut);
            PiecesRead(g, cut, INITIAL, pieces + Flush(g, last), true)
  {
    var step, start := Stepping(g), INITIAL.Extend(text[..cut]);
    var (mid, first) := Drain(step, start);
    assert start.Received() == text[..cut];
    if cut == |text| {
      RestOfStreamReads(g, cut, start);
      SteppingExtendsAndKeeps(g);
      DrainKeeps(step, start);
      FlushOfDrained(g, mid);
    } else {
      LongBatchReads(g, text, cut, start);
    }
  }

  lemma DrainThenRest(step: Stepper, g: Grammar, cut: nat, cfg: Config, rest: seq<Piece>)
    requires StepsAreRead(step, g) && Keeps(step) && cfg.Consistent()
    requires cfg.context ==> |cfg.Received()| <= cut
    requires PiecesRead(g, cut, Drain(step, cfg).0, rest, true)
    ensures PiecesRead(g, cut, cfg, Drain(step, cfg).1 + rest, true)
  {
    DrainReads(step, g, cut, cfg, Stretches(g.markdown, rest), true);
    StretchesConcat(g.markdown, Drain(step, cfg).1, rest);
  }

  lemma FlushBeyondTheCut(g: Grammar, mid: Config, more: Text)
    requires mid.Consistent() && Drained(Stepping(g), mid) && more != ""
    ensures var (last, pieces) := Drain(Stepping(g), mid.Extend(more).Disable());
            PiecesRead(g, |mid.Received()|, mid, pieces + Flush(g, last), true)
  {
    var d := mid.Extend(more).Disable();
    BeyondTheCutReads(g, mid, more);
    SteppingExtendsAndKeeps(g);
    DrainKeeps(Stepping(g), d);
    DrainIsDrained(Stepping(g), d);
    FlushOfDrained(g, Drain(Stepping(g), d).0);
  }

  ghost predicate BatchIsRead(g: Grammar, cut: nat, cfg: Config, batch: (Config, seq<Piece>)) {
    PiecesRead(g, cut, cfg, batch.1 + Flush(g, batch.0), true)
  }

  lemma BatchInTwo(g: Grammar, step: Stepper, text: Text, cut: nat, start: Config, mid: Config, first: seq<Piece>)
    requires cut < |text| && start == INITIAL.Extend(text[..cut]) && (mid, first) == Drain(step, start)
    requires var (last, second) := Drain(step, mid.Extend(text[cut..]).Disable());
             PiecesRead(g, cut, start, first + (second + Flush(g, last)), true)
    ensures BatchIsRead(g, cut, INITIAL, Batch(step, INITIAL, text, cut))
  {
    var (last, second) := Drain(step, mid.Extend(text[cut..]).Disable());
    assert (first + second) + Flush(g, last) == first + (second + Flush(g, last));
  }

  lemma LongBatchReads(g: Grammar, text: Text, cut: nat, start: Config)
    requires cut < |text| && cut <= MAX_MARKDOWN_CONTEXT_BYTES && start == INITIAL.Extend(text[..cut])
    ensures BatchIsRead(g, cut, INITIAL, Batch(Stepping(g), INITIAL, text, cut))
  {
    var step := Stepping(g);
    var (mid, first) := Drain(step, start);
    assert start.Received() == text[..cut];
    SteppingExtendsAndKeeps(g);
    SteppingIsRead(g);
    DrainKeeps(step, start);
    DrainIsDrained(step, start);
    FlushBeyondTheCut(g, mid, text[cut..]);
    var (last, second) := Drain(step, mid.Extend(text[cut..]).Disable());
    DrainThenRest(step, g, cut, start, second + Flush(g, last));
    BatchInTwo(g, step, text, cut, start, mid, first);
  }

  /** What a stream gives is a reading of its text, with the context up to the cut. */
  lemma StreamIsRead(g: Grammar, chunks: seq<Text>)
    ensures ReadAs(g, Cut(0, chunks), "", FRESH, Flatten(chunks), true, StreamActions(g, chunks))
  {
    var pieces := StreamPieces(g, chunks);
    StreamIsBatch(g, chunks);
    CutIsWithinTheLimit(0, chunks);
    BatchReads(g, Flatten(chunks), Cut(0, chunks));
    NothingLostNothingDoubled(g, chunks);
    PiecesAreReadAs(g, Cut(0, chunks), INITIAL, pieces, true);
  }

  lemma PiecesAreReadAs(g: Grammar, cut: nat, cfg: Config, pieces: seq<Piece>, ended: bool)
    requires PiecesRead(g, cut, cfg, pieces, ended)
    ensures ReadAs(g, cut, cfg.done, ReaderOf(cfg), Raw(pieces), ended, Actions(g.markdown, pieces))
  {
    StretchesOfPieces(g.markdown, pieces);
  }

  /** The cut is the last end of a chunk within 256 KiB. */
  ghost predicate IsCut(chunks: seq<Text>, cut: nat) {
    exists k :: 0 <= k <= |chunks| && cut == |Flatten(chunks[..k])| <= 262144 && EndsBefore(chunks, k)
  }

  ghost predicate EndsBefore(chunks: seq<Text>, k: nat)
    requires k <= |chunks|
  {
    k < |chunks| ==> |Flatten(chunks[..k + 1])| > 262144
  }

  lemma {:induction false} CutIsWithinTheLimit(total: nat, chunks: seq<Text>)
    requires total <= MAX_MARKDOWN_CONTEXT_BYTES
    ensures Cut(total, chunks) <= MAX_MARKDOWN_CONTEXT_BYTES
    decreases |chunks|
  {
    if chunks != [] && total + |chunks[0]| <= MAX_MARKDOWN_CONTEXT_BYTES {
      CutIsWithinTheLimit(total + |chunks[0]|, chunks[1..]);
    }
  }

  lemma {:induction false} FlattenOneMore(chunks: seq<Text>, k: nat)
    requires k < |chunks|
    ensures Flatten(chunks[..k + 1]) == Flatten(chunks[..k]) + chunks[k]
  {
    if k == 0 {
      assert chunks[..1] == [chunks[0]];
      FlattenOne(chunks[0]);
    } else {
      FlattenOneMore(chunks[1..], k - 1);
      assert chunks[..k + 1][1..] == chunks[1..][..k] && chunks[..k][1..] == chunks[1..][..k - 1];
      var between := Flatten(chunks[1..][..k - 1]);
      assert chunks[0] + (between + chunks[k]) == chunks[0] + between + chunks[k];
    }
  }

  lemma {:induction false} CutFrom(chunks: seq<Text>, k: nat)
    requires k <= |chunks| && |Flatten(chunks[..k])| <= 262144
    ensures IsCut(chunks, Cut(|Flatten(chunks[..k])|, chunks[k..]))
    decreases |chunks| - k
  {
    if k < |chunks| {
      FlattenOneMore(chunks, k);
      assert chunks[k..][0] == chunks[k] && chunks[k..][1..] == chunks[k + 1..];
      if |Flatten(chunks[..k + 1])| <= 262144 {
        CutFrom(chunks, k + 1);
      } else {
        assert EndsBefore(chunks, k);
      }
    } else {
      assert EndsBefore(chunks, k);
    }
  }

  lemma CutIsACut(chunks: seq<Text>)
    ensures IsCut(chunks, Cut(0, chunks))
  {
    assert chunks[..0] == [] && chunks[0..] == chunks;
    CutFrom(chunks, 0);
  }

  lemma DrainIsRead(g: Grammar, cut: nat, cfg: Config)
    requires cfg.Consistent() && (cfg.context ==> |cfg.Received()| <= cut)
    ensures PiecesRead(g, cut, cfg, Drain(Stepping(g), cfg).1, false)
  {
    SteppingExtendsAndKeeps(g);
    SteppingIsRead(g);
    DrainReads(Stepping(g), g, cut, cfg, [], false);
    var xs := Stretches(g.markdown, Drain(Stepping(g), cfg).1);
    assert xs + [] == xs;
  }

  lemma DrainIsReadWithoutContext(g: Grammar, cfg: Config)
    requires cfg.Consistent()
    ensures PiecesRead(g, 0, cfg, Drain(Stepping(g), cfg.Disable()).1, false)
  {
    var start := cfg.Disable();
    var pieces := Drain(Stepping(g), start).1;
    DrainIsRead(g, 0, start);
    if pieces != [] {
      SteppingExtendsAndKeeps(g);
      DrainedPiecesAreNotEmpty(Stepping(g), start, 0);
      SameBeyondTheCut(g, 0, cfg.done, ReaderOf(start), ReaderOf(cfg), Stretches(g.markdown, pieces), false);
    }
  }

  /** The context lasts through a chunk exactly if all received is within 256 KiB. */
  ghost predicate IsReadOf(g: Grammar, cfg: Config, total: nat, text: Text, actions: seq<EmulatorAction>) {
    ReadAs(g, if total <= 262144 then total else 0, cfg.done, ReaderOf(cfg), text, false, actions)
  }

  lemma GrownIsRead(g: Grammar, cfg: Config, chunk: Text, cut: nat)
    requires cfg.Consistent()
    requires cut == if |cfg.Received()| + |chunk| <= 262144 then |cfg.Received()| + |chunk| else 0
    ensures PiecesRead(g, cut, cfg, Feed(Stepping(g), cfg, chunk).1, false)
  {
    var grown := cfg.Extend(chunk);
    assert |grown.Received()| == |cfg.Received()| + |chunk|;
    if |grown.Received()| <= 262144 || !cfg.context {
      DrainIsRead(g, cut, grown);
    } else {
      DrainIsReadWithoutContext(g, grown);
    }
  }

  /** What a chunk gives, from any state of the parser on. */
  lemma ChunkIsRead(g: Grammar, cfg: Config, chunk: Text)
    requires cfg.Consistent()
    ensures var (last, pieces) := Feed(Stepping(g), cfg, chunk);
            && IsReadOf(g, cfg, |cfg.Received()| + |chunk|, Raw(pieces), Actions(g.markdown, pieces))
            && last.done == cfg.done + Raw(pieces)
  {
    var total := |cfg.Received()| + |chunk|;
    SteppingExtendsAndKeeps(g);
    FeedKeeps(Stepping(g), cfg, chunk);
    var pieces := Feed(Stepping(g), cfg, chunk).1;
    GrownIsRead(g, cfg, chunk, if total <= 262144 then total else 0);
    PiecesAreReadAs(g, if total <= 262144 then total else 0, cfg, pieces, false);
  }

  /** What the end of the stream gives, from any state of the parser on. */
  lemma FlushIsRead(g: Grammar, cfg: Config)
    requires cfg.Consistent() && (cfg.context ==> |cfg.Received()| <= 262144)
    ensures ReadAs(g, 262144, cfg.done, ReaderOf(cfg), cfg.buffer, true, Actions(g.markdown, Flush(g, cfg)))
  {
    RestOfStreamReads(g, 262144, cfg);
    assert cfg.Extend("") == cfg;
    assert Feed(Stepping(g), cfg, "") == Drain(Stepping(g), cfg);
    PiecesAreReadAs(g, 262144, cfg, Flush(g, cfg), true);
  }

  /** All lines of the stretch, and all blocks closed in it, have been read. */
  lemma NothingIsHeldBack(g: Grammar, cfg: Config)
    requires Drained(Stepping(g), cfg)
    ensures HoldsNothingBack(g, cfg)
  {
    if cfg.mode.Normal? {
      assert LineEnd(cfg.buffer, 0) == |cfg.buffer|;
    } else {
      var closes := g.closes(cfg.mode.fenceLen);
      ClosingFenceIsFirst(cfg.buffer, 0, closes, false);
      NoneBefore(cfg.buffer, |cfg.buffer|, closes);
      assert cfg.buffer[..|cfg.buffer|] == cfg.buffer;
    }
  }

  ghost predicate HoldsNothingBack(g: Grammar, cfg: Config) {
    match cfg.mode
    case Normal => '\n' !in cfg.buffer
    case InExecuteBlock(fenceLen) => NoLineCloses(cfg.buffer, g.closes(fenceLen))
  }

  /** From one configuration to the next, with so many bytes received: the actions are those of the
      text taken, and all that can be taken is. */
  ghost predicate ChunkGives(g: Grammar, cfg: Config, next: Config, total: nat, actions: seq<EmulatorAction>) {
    && cfg.done <= next.done && IsReadOf(g, cfg, total, next.done[|cfg.done|..], actions)
    && HoldsNothingBack(g, next)
  }

  lemma FeedGives(g: Grammar, cfg: Config, chunk: Text)
    requires cfg.Consistent()
    ensures var (last, pieces) := Feed(Stepping(g), cfg, chunk);
            ChunkGives(g, cfg, last, |cfg.Received()| + |chunk|, Actions(g.markdown, pieces))
  {
    var grown := cfg.Extend(chunk);
    var (last, pieces) := Feed(Stepping(g), cfg, chunk);
    DrainIsDrained(Stepping(g), grown);
    DrainIsDrained(Stepping(g), grown.Disable());
    NothingIsHeldBack(g, last);
    ChunkIsRead(g, cfg, chunk);
    assert last.done[|cfg.done|..] == Raw(pieces);
  }

  lemma FeedIsDrain(g: Grammar, cfg: Config, chunk: Text, mid: Config)
    requires cfg.Consistent()
    requires mid == if cfg.context && |cfg.Received()| + |chunk| > MAX_MARKDOWN_CONTEXT_BYTES
                    then cfg.Extend(chunk).Disable() else cfg.Extend(chunk)
    ensures Feed(Stepping(g), cfg, chunk) == Drain(Stepping(g), mid)
    ensures var (last, pieces) := Drain(Stepping(g), mid);
            ChunkGives(g, cfg, last, |cfg.Received()| + |chunk|, Actions(g.markdown, pieces))
  {
    assert |cfg.Extend(chunk).Received()| == |cfg.Received()| + |chunk|;
    FeedGives(g, cfg, chunk);
  }

  // ---------------------------------------------------------------- there is only one reading

  /** How much of a line comes before its end. */
  function LengthOfLine(raw: Text): (n: int) {
    if EndsWith(raw, '\n') then (if EndsWith(raw[..|raw| - 1], '\r') then |raw| - 2 else |raw| - 1)
    else if EndsWith(raw, '\r') then |raw| - 1 else |raw|
  }

  lemma LineIsItsBeginning(raw: Text, a: Text)
    requires HasLine(raw, a)
    ensures |a| == LengthOfLine(raw) && a == raw[..|a|]
  {
    if raw == a + "\r\n" {
      assert raw[..|raw| - 1] == a + "\r";
    } else if raw == a + "\n" {
      assert raw[..|raw| - 1] == a;
    }
  }

  lemma SameLine(raw: Text, a: Text, b: Text)
    requires HasLine(raw, a) && HasLine(raw, b)
    ensures a == b
  {
    LineIsItsBeginning(raw, a);
    LineIsItsBeginning(raw, b);
  }

  lemma SameCode(body: Text, a: Text, b: Text)
    requires HasCode(body, a) && HasCode(body, b)
    ensures a == b
  {
    assert body == a || body[..|body| - 1] == a || body[..|body| - 2] == a;
    assert body == b || body[..|body| - 1] == b || body[..|body| - 2] == b;
    assert body != a ==> body[|a|] == '\n' || body[|a|] == '\r';
    assert body != b ==> body[|b|] == '\n' || body[|b|] == '\r';
  }

  lemma SameRest(rest: Text, a: Text, b: Text)
    requires HasRest(rest, a) && HasRest(rest, b)
    ensures a == b
  {
    assert rest == a || rest[..|rest| - 1] == a;
    assert rest == b || rest[..|rest| - 1] == b;
  }

  /** A closed block does not fit into lines none of which closes it. */
  lemma ClosedDoesNotFit(raw: Text, body: Text, closing: Text, text: Text, closes: Text -> bool)
    requires IsClosed(raw, body, closing, closes) && raw <= text
    ensures !NoLineCloses(text, closes)
  {
    var i := |body|;
    assert IsLineStart(raw, i) && IsLineStart(text, i) by { assert i > 0 ==> raw[i - 1] == body[i - 1] == text[i - 1]; }
    assert raw[|raw| - 1] == '\n' && text[|raw| - 1] == '\n';
    assert forall k | i <= k < |raw| - 1 :: text[k] == raw[k] == closing[k - i];
    LineEndIsUnique(text, i, |raw| - 1);
    assert text[i..|raw| - 1] == closing;
  }

  /** Complete lines and an unfinished one: there is one way to cut a text so. */
  lemma {:induction false} CutAtTheLastLine(raw: Text, body: Text, line: Text)
    requires raw == body + line && '\n' !in line && (body == "" || EndsWith(body, '\n'))
    ensures |body| == LastLineStart(raw) && body == raw[..LastLineStart(raw)] && line == raw[LastLineStart(raw)..]
    decreases |line|
  {
    if line == "" {
      assert raw == body;
    } else {
      var last := |line| - 1;
      assert raw[..|raw| - 1] == body + line[..last] && raw[|raw| - 1] == line[last];
      CutAtTheLastLine(raw[..|raw| - 1], body, line[..last]);
    }
  }

  lemma SameClosing(raw: Text, body: Text, closing: Text, closes: Text -> bool)
    requires IsClosed(raw, body, closing, closes)
    ensures body == raw[..LastLineStart(raw[..|raw| - 1])] && closing == raw[LastLineStart(raw[..|raw| - 1])..|raw| - 1]
  {
    assert raw[..|raw| - 1] == body + closing;
    CutAtTheLastLine(raw[..|raw| - 1], body, closing);
  }

  lemma OneExecution(g: Grammar, fenceLen: nat, x: Stretch, y: Stretch)
    requires x.raw == y.raw && ReadsBlock(g, fenceLen, x) && ReadsBlock(g, fenceLen, y)
    ensures x == y
  {
    var body, closing, code :| IsExecuted(g, fenceLen, x, body, closing, code);
    var body', closing', code' :| IsExecuted(g, fenceLen, y, body', closing', code');
    SameClosing(x.raw, body, closing, g.closes(fenceLen));
    SameClosing(x.raw, body', closing', g.closes(fenceLen));
    SameCode(body, code, code');
  }

  lemma OneFlush(g: Grammar, fenceLen: nat, x: Stretch, y: Stretch)
    requires x.raw == y.raw && ReadsRest(g, fenceLen, x) && ReadsRest(g, fenceLen, y)
    ensures x == y
  {
    var body, line, code :| IsFlushed(g, fenceLen, x, body, line, code);
    var body', line', code' :| IsFlushed(g, fenceLen, y, body', line', code');
    CutAtTheLastLine(x.raw, body, line);
    CutAtTheLastLine(x.raw, body', line');
    if g.closes(fenceLen)(line) {
      SameCode(body, code, code');
    } else {
      SameRest(x.raw, code, code');
    }
  }

  lemma OneLine(g: Grammar, before: Text, left: Option<nat>, x: Stretch, y: Stretch)
    requires x.raw == y.raw && ReadsLine(g, before, left, x) && ReadsLine(g, before, left, y)
    ensures x == y
  {
    if !OpensBlock(g, before, left, x.raw) && IsCommand(g, before, left, x.raw) {
      var c :| IsRun(g.markdown, x, c);
      var d :| IsRun(g.markdown, y, d);
      SameLine(x.raw, "$" + c, "$" + d);
      assert ("$" + c)[1..] == c && ("$" + d)[1..] == d;
    }
  }

  lemma LinesOfOneText(a: Text, b: Text, more: Text, more': Text)
    requires IsALine(a) && IsALine(b) && a + more == b + more'
    requires EndsWith(a, '\n') || more == ""
    requires EndsWith(b, '\n') || more' == ""
    ensures a == b
  {
    var text := a + more;
    assert a == text[..|a|] && b == text[..|b|];
    assert EndsWith(a, '\n') ==> text[|a| - 1] == '\n';
    assert EndsWith(b, '\n') ==> text[|b| - 1] == '\n';
  }

  lemma ClosedOfOneText(g: Grammar, fenceLen: nat, x: Stretch, y: Stretch)
    requires x.raw <= y.raw && ReadsBlock(g, fenceLen, x) && ReadsBlock(g, fenceLen, y)
    ensures x.raw == y.raw
  {
    var body, closing, code :| IsExecuted(g, fenceLen, x, body, closing, code);
    var body', closing', code' :| IsExecuted(g, fenceLen, y, body', closing', code');
    var n := |x.raw|;
    assert x.raw[n - 1] == '\n';
    if n <= |body'| {
      assert x.raw <= body';
      ClosedDoesNotFit(x.raw, body, closing, body', g.closes(fenceLen));
    }
  }

  lemma ClosedIsNotRest(g: Grammar, fenceLen: nat, x: Stretch, y: Stretch)
    requires x.raw <= y.raw && ReadsBlock(g, fenceLen, x)
    ensures !ReadsRest(g, fenceLen, y)
  {
    var body, closing, code :| IsExecuted(g, fenceLen, x, body, closing, code);
    forall body', line, code' ensures !IsFlushed(g, fenceLen, y, body', line, code') {
      if y.raw == body' + line && '\n' !in line {
        var n := |x.raw|;
        assert x.raw[n - 1] == '\n' == y.raw[n - 1];
        assert x.raw <= body';
        ClosedDoesNotFit(x.raw, body, closing, body', g.closes(fenceLen));
      }
    }
  }

  lemma SameFirstStretch(g: Grammar, cut: nat, before: Text, s: Reader, x: Stretch, y: Stretch, more: Text, more': Text,
                         lastX: bool, lastY: bool)
    requires Reads(g, cut, before, s, x, lastX) && Reads(g, cut, before, s, y, lastY)
    requires x.raw + more == y.raw + more' && (lastX ==> more == "") && (lastY ==> more' == "")
    ensures x == y
  {
    var text := x.raw + more;
    assert x.raw == text[..|x.raw|] && y.raw == text[..|y.raw|];
    match s.mode {
      case Normal =>
        LinesOfOneText(x.raw, y.raw, more, more');
        OneLine(g, before, LeftFor(cut, before, s, x.raw), x, y);
      case InExecuteBlock(n) =>
        BlocksOfOneText(g, n, x, y, lastX, lastY);
    }
  }

  lemma BlocksOfOneText(g: Grammar, n: nat, x: Stretch, y: Stretch, lastX: bool, lastY: bool)
    requires ReadsBlock(g, n, x) || (lastX && ReadsRest(g, n, x))
    requires ReadsBlock(g, n, y) || (lastY && ReadsRest(g, n, y))
    requires (lastX ==> y.raw <= x.raw) && (lastY ==> x.raw <= y.raw) && (x.raw <= y.raw || y.raw <= x.raw)
    ensures x == y
  {
    if ReadsBlock(g, n, x) && ReadsBlock(g, n, y) {
      if x.raw <= y.raw { ClosedOfOneText(g, n, x, y); } else { ClosedOfOneText(g, n, y, x); }
      OneExecution(g, n, x, y);
    } else if ReadsBlock(g, n, x) {
      ClosedIsNotRest(g, n, x, y);
    } else if ReadsBlock(g, n, y) {
      ClosedIsNotRest(g, n, y, x);
    } else {
      OneFlush(g, n, x, y);
    }
  }

  lemma BlockEndsItsLine(g: Grammar, n: nat, x: Stretch)
    ensures ReadsBlock(g, n, x) ==> EndsWith(x.raw, '\n')
  {
    if ReadsBlock(g, n, x) {
      var body, closing, code :| IsExecuted(g, n, x, body, closing, code);
    }
  }

  lemma SomethingReadsSomething(g: Grammar, cut: nat, before: Text, s: Reader, xs: seq<Stretch>, ended: bool)
    requires IsReading(g, cut, before, s, xs, ended) && (ended ==> s.mode.Normal?)
    ensures xs != [] ==> Raws(xs) != ""
  {
    if xs != [] && s.mode.InExecuteBlock? {
      BlockEndsItsLine(g, s.mode.fenceLen, xs[0]);
    }
  }

  lemma RestIsEmpty(g: Grammar, cut: nat, before: Text, s: Reader, xs: seq<Stretch>, ended: bool)
    requires xs != [] && IsReading(g, cut, before, s, xs, ended)
    ensures Raws(xs) == xs[0].raw + Raws(xs[1..])
    ensures ended && |xs| == 1 ==> Raws(xs[1..]) == ""
  {}

  lemma UnfinishedIsLast(g: Grammar, cut: nat, before: Text, s: Reader, xs: seq<Stretch>, ended: bool)
    requires xs != [] && IsReading(g, cut, before, s, xs, ended)
    ensures EndsWith(xs[0].raw, '\n') || xs[1..] == []
  {
    if s.mode.InExecuteBlock? {
      BlockEndsItsLine(g, s.mode.fenceLen, xs[0]);
    }
  }

  /** A text is read in one way only: the parser cannot give anything else. */
  lemma {:induction false} OneReading(
    g: Grammar, cut: nat, before: Text, s: Reader, xs: seq<Stretch>, ys: seq<Stretch>, ended: bool)
    requires IsReading(g, cut, before, s, xs, ended) && IsReading(g, cut, before, s, ys, ended) && Raws(xs) == Raws(ys)
    ensures xs == ys
    decreases |xs|
  {
    if xs == [] {
      SomethingReadsSomething(g, cut, before, s, ys, ended);
    } else if ys == [] {
      SomethingReadsSomething(g, cut, before, s, xs, ended);
    } else {
      RestIsEmpty(g, cut, before, s, xs, ended);
      RestIsEmpty(g, cut, before, s, ys, ended);
      SameFirstStretch(g, cut, before, s, xs[0], ys[0], Raws(xs[1..]), Raws(ys[1..]),
                       ended && |xs| == 1, ended && |ys| == 1);
      assert Raws(xs[1..]) == Raws(xs)[|xs[0].raw|..] && Raws(ys[1..]) == Raws(ys)[|ys[0].raw|..];
      if EndsWith(xs[0].raw, '\n') {
        OneReading(g, cut, before + xs[0].raw, After(g, cut, before, s, xs[0].raw), xs[1..], ys[1..], ended);
      } else {
        UnfinishedIsLast(g, cut, before, s, xs, ended);
        UnfinishedIsLast(g, cut, before, s, ys, ended);
      }
      assert xs == [xs[0]] + xs[1..] && ys == [ys[0]] + ys[1..];
    }
  }
}

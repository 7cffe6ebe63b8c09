/** `StreamingEmulatorParser`: the mutable parser, proved to be the batch parser of `ToolEmulation`. */
module StreamingParser {
  import opened ToolEmulation
  import opened ChunkInvariance
  import opened ActionMeaning
  import opened Wrappers

  class StreamingEmulatorParser {
    const grammar: Grammar
    var buffer: Text
    var document: Text
    var markdownContextAvailable: bool
    var markdownParseBytesRemaining: nat
    var state: ParserState

    /** Everything received since the parser was created or last flushed. */
    ghost var received: Text
    /** The bytes handed to the Markdown library in that time. */
    ghost var parsed: nat

    /** The buffer is a suffix of what was received; while the context lasts the document is all of
        it; and the Markdown library never sees more than its budget. */
    ghost predicate Valid()
      reads this
    {
      && |buffer| <= |received| && received[|received| - |buffer|..] == buffer
      && (markdownContextAvailable ==> document == received && |document| <= MAX_MARKDOWN_CONTEXT_BYTES)
      && (!markdownContextAvailable ==> document == "" && markdownParseBytesRemaining == 0)
      && parsed + markdownParseBytesRemaining <= MAX_MARKDOWN_PARSE_BYTES
    }

    ghost function Abs(): Config
      reads this
      requires Valid()
    {
      Config(received[..|received| - |buffer|], buffer, state, markdownContextAvailable, markdownParseBytesRemaining)
    }

    constructor (markdown: Markdown, codeModeEnabled: bool)
      ensures Valid() && Abs() == INITIAL && received == ""
      ensures grammar == EmulatorGrammar(markdown, codeModeEnabled)
    {
      grammar := EmulatorGrammar(markdown, codeModeEnabled);
      buffer := "";
      document := "";
      markdownContextAvailable := true;
      markdownParseBytesRemaining := MAX_MARKDOWN_PARSE_BYTES;
      state := Normal;
      received := "";
      parsed := 0;
    }

    method DisableMarkdownEmulation()
      requires Valid()
      modifies this
      ensures Valid() && Abs() == old(Abs()).Disable()
      ensures received == old(received) && parsed == old(parsed)
    {
      document := "";
      markdownContextAvailable := false;
      markdownParseBytesRemaining := 0;
    }

    /** Called with the chunk already in the buffer: `Valid` may not hold in between. */
    method AppendMarkdownContext(chunk: Text)
      requires |buffer| <= |received| && received[|received| - |buffer|..] == buffer
      requires |chunk| <= |received| && received[|received| - |chunk|..] == chunk
      requires markdownContextAvailable ==>
                 document == received[..|received| - |chunk|] && |document| <= MAX_MARKDOWN_CONTEXT_BYTES
      requires !markdownContextAvailable ==> document == "" && markdownParseBytesRemaining == 0
      requires parsed + markdownParseBytesRemaining <= MAX_MARKDOWN_PARSE_BYTES
      modifies this`document, this`markdownContextAvailable, this`markdownParseBytesRemaining
      ensures Valid()
      ensures markdownContextAvailable == (old(markdownContextAvailable) && |received| <= MAX_MARKDOWN_CONTEXT_BYTES)
      ensures markdownContextAvailable == old(markdownContextAvailable) ==>
                markdownParseBytesRemaining == old(markdownParseBytesRemaining)
    {
      if !markdownContextAvailable {
        return;
      }
      if |document| + |chunk| > MAX_MARKDOWN_CONTEXT_BYTES {
        document := "";
        markdownContextAvailable := false;
        markdownParseBytesRemaining := 0;
      } else {
        document := document + chunk;
      }
    }

    method ConsumeMarkdownParseBudget(bytes: nat) returns (ok: bool)
      requires Valid()
      modifies this
      ensures Valid() && received == old(received)
      ensures ok == (bytes <= old(markdownParseBytesRemaining))
      ensures !ok ==> Abs() == old(Abs()).Disable() && parsed == old(parsed)
      ensures ok ==> Abs() == old(Abs()).(budget := old(markdownParseBytesRemaining) - bytes)
      ensures ok ==> parsed == old(parsed) + bytes && markdownContextAvailable == old(markdownContextAvailable)
    {
      if bytes > markdownParseBytesRemaining {
        DisableMarkdownEmulation();
        ok := false;
      } else {
        markdownParseBytesRemaining := markdownParseBytesRemaining - bytes;
        parsed := parsed + bytes;
        ok := true;
      }
    }

    method MarkdownMatches(range: Option<(nat, nat)>, predicate_: (Text, nat) -> bool) returns (r: bool)
      requires Valid()
      requires range.Some? ==> 0 < range.value.1 <= |received|
      modifies this
      ensures Valid() && received == old(received)
      ensures range.Some? ==> range.value.1 <= |old(Abs()).Received()|
      ensures (r, Abs()) == Matches(old(Abs()), range, predicate_)
    {
      AbsReceived();
      if range.None? {
        return false;
      }
      var (lineStart, markdownEnd) := range.value;
      var ok := ConsumeMarkdownParseBudget(markdownEnd);
      if !ok {
        return false;
      }
      var text := document[..markdownEnd];
      r := predicate_(text, lineStart);
    }

    lemma AbsReceived()
      requires Valid()
      ensures Abs().Received() == received
    {
      assert received[..|received| - |buffer|] + received[|received| - |buffer|..] == received;
    }

    /** Takes the first line out of the buffer. */
    method TakeLine(lineEnd: nat) returns (range: Option<(nat, nat)>, line: Text, lineWithNewline: Text)
      requires Valid() && lineEnd < |buffer|
      modifies this`buffer
      ensures Valid()
      ensures line == old(buffer)[..lineEnd] && lineWithNewline == old(buffer)[..lineEnd + 1]
      ensures Abs() == old(Abs()).(done := old(Abs()).done + lineWithNewline, buffer := old(buffer)[lineEnd + 1..])
      ensures range == if old(Abs()).context
                       then Some((|old(Abs()).done|, |old(Abs()).done| + lineEnd + 1)) else None
      ensures range.Some? ==> 0 < range.value.1 <= |received|
    {
      ghost var lineStart := |received| - |buffer|;
      range := None;
      if markdownContextAvailable {
        range := Some((|document| - |buffer|, |document| - |buffer| + lineEnd + 1));
      }
      line := buffer[..lineEnd];
      lineWithNewline := buffer[..lineEnd + 1];
      buffer := buffer[lineEnd + 1..];
      assert received[..|received| - |buffer|] == received[..lineStart] + lineWithNewline;
    }

    /** A line in Normal mode. */
    method ProcessLine(lineEnd: nat) returns (actions: seq<EmulatorAction>)
      requires Valid() && state.Normal?
      requires lineEnd < |buffer|
      modifies this
      ensures Valid() && received == old(received)
      ensures Abs() == LineStep(grammar, old(Abs()), lineEnd).0
      ensures actions == PieceActions(grammar.markdown, LineStep(grammar, old(Abs()), lineEnd).1)
    {
      var range, line, lineWithNewline := TakeLine(lineEnd);
      AbsReceived();
      var fence := TryFence(range, line);
      if fence.Some? {
        state := InExecuteBlock(fence.value);
        return [];
      }
      actions := ProcessPlainLine(range, line, lineWithNewline);
    }

    /** A line that opens no fence. */
    method ProcessPlainLine(range: Option<(nat, nat)>, line: Text, lineWithNewline: Text)
      returns (actions: seq<EmulatorAction>)
      requires Valid()
      requires range.Some? ==> 0 < range.value.1 <= |received|
      modifies this
      ensures Valid() && received == old(received)
      ensures range.Some? ==> range.value.1 <= |old(Abs()).Received()|
      ensures var (isShell, next) := ToolEmulation.TryShell(grammar, old(Abs()), range, StripCr(line));
              && Abs() == next
              && actions == PieceActions(grammar.markdown,
                   if isShell then ShellLine(lineWithNewline, StripCr(line)) else TextLine(lineWithNewline))
    {
      var lineWithoutCr := StripCr(line);
      var isShell := TryShell(range, lineWithoutCr);
      if isShell {
        var command := grammar.markdown.trim(lineWithoutCr[1..]);
        return if command == [] then [] else [ShellCommand(command)];
      }
      return [Text(lineWithNewline)];
    }

    method TryFence(range: Option<(nat, nat)>, line: Text) returns (fence: Option<nat>)
      requires Valid()
      requires range.Some? ==> 0 < range.value.1 <= |received|
      modifies this
      ensures Valid() && received == old(received)
      ensures range.Some? ==> range.value.1 <= |old(Abs()).Received()|
      ensures (fence, Abs()) == ToolEmulation.TryFence(grammar, old(Abs()), range, line)
    {
      AbsReceived();
      fence := None;
      if grammar.codeMode {
        var fenceLen := grammar.executeFenceLen(line);
        if fenceLen.Some? {
          var isFence := MarkdownMatches(range, grammar.markdown.topLevelExecuteFence);
          if isFence {
            fence := fenceLen;
          }
        }
      }
    }

    method TryShell(range: Option<(nat, nat)>, line: Text) returns (isShell: bool)
      requires Valid()
      requires range.Some? ==> 0 < range.value.1 <= |received|
      modifies this
      ensures Valid() && received == old(received)
      ensures range.Some? ==> range.value.1 <= |old(Abs()).Received()|
      ensures (isShell, Abs()) == ToolEmulation.TryShell(grammar, old(Abs()), range, line)
      ensures isShell ==> "$" <= line
    {
      AbsReceived();
      isShell := false;
      if "$" <= line {
        isShell := MarkdownMatches(range, grammar.markdown.topLevelParagraphLine);
      }
    }

    /** Takes a closed block out of the buffer. */
    method TakeBlock(closingStart: nat, consumed: nat) returns (code: Text)
      requires Valid() && closingStart <= consumed <= |buffer|
      modifies this`buffer, this`state
      ensures Valid() && code == StripCr(old(buffer)[..CodeEnd(old(buffer), closingStart)])
      ensures Abs() == old(Abs()).(done := old(Abs()).done + old(buffer)[..consumed],
                                   buffer := old(buffer)[consumed..], mode := Normal)
    {
      ghost var start := |received| - |buffer|;
      ghost var block := buffer[..consumed];
      var codeEnd := CodeEnd(buffer, closingStart);
      code := StripCr(buffer[..codeEnd]);
      buffer := buffer[consumed..];
      state := Normal;
      assert received[..|received| - |buffer|] == received[..start] + block;
    }

    /** A closed execute block: lines 344-357 of the loop. */
    method CloseBlock(closingStart: nat, consumed: nat) returns (actions: seq<EmulatorAction>)
      requires Valid() && state.InExecuteBlock?
      requires ClosingFence(buffer, 0, grammar.closes(state.fenceLen), false) == Some((closingStart, consumed))
      modifies this
      ensures Valid() && received == old(received)
      ensures BlockStep(old(Abs()), grammar.closes(old(state.fenceLen))) .Some?
      ensures var (next, piece) := BlockStep(old(Abs()), grammar.closes(old(state.fenceLen))).value;
              Abs() == next && actions == PieceActions(grammar.markdown, piece)
      ensures ReadsBlock(grammar, old(state.fenceLen), Stretch(old(buffer)[..consumed], actions))
    {
      BlockReads(grammar, state.fenceLen, Abs());
      var code := TakeBlock(closingStart, consumed);
      actions := if grammar.markdown.trim(code) == [] then [] else [ExecuteCode(code)];
    }

    /** Takes the chunk into the buffer and, while it lasts, the context. */
    method Receive(chunk: Text)
      requires Valid()
      modifies this
      ensures Valid() && received == old(received) + chunk
      ensures |received| == |old(Abs()).Received()| + |chunk|
      ensures Abs() == if old(Abs()).context && |old(Abs()).Received()| + |chunk| > MAX_MARKDOWN_CONTEXT_BYTES
                       then old(Abs()).Extend(chunk).Disable() else old(Abs()).Extend(chunk)
    {
      AbsReceived();
      ghost var cfg := Abs();
      buffer := buffer + chunk;
      received := received + chunk;
      assert received[|received| - |buffer|..] == buffer;
      AppendMarkdownContext(chunk);
      assert Abs().done == cfg.done;
    }

    method ProcessChunk(chunk: Text) returns (results: seq<EmulatorAction>)
      requires Valid()
      modifies this
      ensures Valid() && received == old(received) + chunk
      ensures var (last, pieces) := Feed(Stepping(grammar), old(Abs()), chunk);
              Abs() == last && results == Actions(grammar.markdown, pieces)
      ensures ChunkGives(grammar, old(Abs()), Abs(), |received|, results)
    {
      ghost var cfg := Abs();
      Receive(chunk);
      FeedIsDrain(grammar, cfg, chunk, Abs());
      results := DrainBuffer();
    }

    /** One turn of the loop; `more` is whether there is another. */
    method Turn() returns (more: bool, actions: seq<EmulatorAction>)
      requires Valid()
      modifies this
      ensures Valid() && received == old(received)
      ensures more == Step(grammar, old(Abs())).Some?
      ensures !more ==> Abs() == old(Abs())
      ensures more ==> |buffer| < |old(buffer)|
      ensures more ==> var (next, piece) := Step(grammar, old(Abs())).value;
                Abs() == next && actions == PieceActions(grammar.markdown, piece)
      ensures more ==>
                TurnIsRead(grammar, old(Abs()), old(buffer)[..|old(buffer)| - |buffer|], actions)
    {
      ghost var cfg := Abs();
      if Step(grammar, cfg).Some? {
        TurnReads(grammar, cfg);
      }
      if state.InExecuteBlock? {
        var range := ClosingFenceRange(buffer, grammar.closes(state.fenceLen), false);
        if range.None? {
          return false, [];
        }
        actions := CloseBlock(range.value.0, range.value.1);
      } else {
        var lineEnd := LineEnd(buffer, 0);
        if lineEnd == |buffer| {
          return false, [];
        }
        actions := ProcessLine(lineEnd);
      }
      more := true;
    }

    method DrainBuffer() returns (results: seq<EmulatorAction>)
      requires Valid()
      modifies this
      ensures Valid() && received == old(received)
      ensures var (last, pieces) := Drain(Stepping(grammar), old(Abs()));
              Abs() == last && results == Actions(grammar.markdown, pieces)
    {
      ghost var step := Stepping(grammar);
      ghost var (last, all) := Drain(step, Abs());
      results := [];
      var more := true;
      while more
        invariant Valid() && received == old(received)
        invariant Drain(step, Abs()).0 == last
        invariant results + Actions(grammar.markdown, Drain(step, Abs()).1) == Actions(grammar.markdown, all)
        invariant !more ==> step(Abs()).None?
        decreases more, |buffer|
      {
        ghost var before := results;
        var actions;
        more, actions := Turn();
        if more {
          results := results + actions;
          assert before + (actions + Actions(grammar.markdown, Drain(step, Abs()).1))
              == results + Actions(grammar.markdown, Drain(step, Abs()).1);
        }
      }
    }

    /** The unfinished last line. */
    method FlushLine() returns (actions: seq<EmulatorAction>)
      requires Valid() && state.Normal? && buffer != []
      modifies this
      ensures actions == PieceActions(grammar.markdown, FinishLine(grammar, old(Abs())))
    {
      AbsReceived();
      var range := None;
      if markdownContextAvailable {
        range := Some((|document| - |buffer|, |document|));
      }
      actions := FlushLineAt(range, StripCr(buffer), buffer);
    }

    method FlushLineAt(range: Option<(nat, nat)>, line: Text, text: Text) returns (actions: seq<EmulatorAction>)
      requires Valid()
      requires range.Some? ==> 0 < range.value.1 <= |received|
      modifies this
      ensures range.Some? ==> range.value.1 <= |old(Abs()).Received()|
      ensures actions == PieceActions(grammar.markdown, FinishLineAt(grammar, old(Abs()), range, line, text))
    {
      var fence := TryFence(range, line);
      if fence.Some? {
        return [];
      }
      actions := FlushPlainLine(range, line, text);
    }

    method FlushPlainLine(range: Option<(nat, nat)>, line: Text, text: Text) returns (actions: seq<EmulatorAction>)
      requires Valid()
      requires range.Some? ==> 0 < range.value.1 <= |received|
      modifies this
      ensures range.Some? ==> range.value.1 <= |old(Abs()).Received()|
      ensures actions == PieceActions(grammar.markdown,
                if ToolEmulation.TryShell(grammar, old(Abs()), range, line).0 then ShellLine(text, line)
                else TextLine(text))
    {
      var isShell := TryShell(range, line);
      if isShell {
        var command := grammar.markdown.trim(line[1..]);
        return if command == [] then [] else [ShellCommand(command)];
      }
      return [Text(text)];
    }

    method FlushBlock() returns (actions: seq<EmulatorAction>)
      requires Valid() && state.InExecuteBlock?
      ensures actions == Actions(grammar.markdown, Finish(grammar, Abs()))
    {
      var range := ClosingFenceRange(buffer, grammar.closes(state.fenceLen), true);
      var codeEnd := if range.Some? then CodeEnd(buffer, range.value.0) else |buffer|;
      var code := grammar.markdown.trim(StripCr(buffer[..codeEnd]));
      actions := if code == [] then [] else [ExecuteCode(code)];
    }

    method FlushRest() returns (rest: seq<EmulatorAction>)
      requires Valid()
      modifies this
      ensures rest == Actions(grammar.markdown, Finish(grammar, old(Abs())))
    {
      rest := [];
      if state.InExecuteBlock? {
        rest := FlushBlock();
      } else if buffer != [] {
        rest := FlushLine();
      }
    }

    method Flush() returns (results: seq<EmulatorAction>)
      requires Valid()
      modifies this
      ensures Valid() && Abs() == INITIAL && received == ""
      ensures results == Actions(grammar.markdown, ToolEmulation.Flush(grammar, old(Abs())))
      ensures ReadAs(grammar, 262144, old(Abs()).done, ReaderOf(old(Abs())), old(buffer), true, results)
    {
      AbsReceived();
      FlushIsRead(grammar, Abs());
      ghost var pieces := Feed(Stepping(grammar), Abs(), "").1;
      results := ProcessChunk("");
      ActionsConcat(grammar.markdown, pieces, Finish(grammar, Abs()));
      var rest := FlushRest();
      results := results + rest;
      Reset();
    }

    method Reset()
      modifies this
      ensures Valid() && Abs() == INITIAL && received == ""
    {
      buffer := "";
      document := "";
      markdownContextAvailable := true;
      markdownParseBytesRemaining := MAX_MARKDOWN_PARSE_BYTES;
      state := Normal;
      received := "";
      parsed := 0;
    }
  }

  lemma FeedAllTakesAChunk(step: Stepper, cfg: Config, chunks: seq<Text>, i: nat, md: Markdown)
    requires i < |chunks|
    ensures var (next, pieces) := Feed(step, cfg, chunks[i]);
            && FeedAll(step, cfg, chunks[i..]).0 == FeedAll(step, next, chunks[i + 1..]).0
            && Actions(md, FeedAll(step, cfg, chunks[i..]).1)
            == Actions(md, pieces) + Actions(md, FeedAll(step, next, chunks[i + 1..]).1)
  {
    assert chunks[i..][1..] == chunks[i + 1..] && chunks[i..][0] == chunks[i];
    var (next, pieces) := Feed(step, cfg, chunks[i]);
    ActionsConcat(md, pieces, FeedAll(step, next, chunks[i + 1..]).1);
  }

  /** A whole stream, fed chunk by chunk to a fresh parser and flushed. */
  method ParseChunks(markdown: Markdown, codeMode: bool, chunks: seq<Text>) returns (actions: seq<EmulatorAction>)
    ensures actions == StreamActions(EmulatorGrammar(markdown, codeMode), chunks)
    ensures |Flatten(chunks)| <= MAX_MARKDOWN_CONTEXT_BYTES ==>
              actions == StreamActions(EmulatorGrammar(markdown, codeMode), [Flatten(chunks)])
    ensures exists cut :: IsCut(chunks, cut)
              && ReadAs(EmulatorGrammar(markdown, codeMode), cut, "", FRESH, Flatten(chunks), true, actions)
  {
    var parser := new StreamingEmulatorParser(markdown, codeMode);
    actions := Drive(parser, chunks);
    if |Flatten(chunks)| <= MAX_MARKDOWN_CONTEXT_BYTES {
      ChunksDoNotMatter(parser.grammar, chunks);
    }
    CutIsACut(chunks);
    StreamIsRead(parser.grammar, chunks);
  }

  method Drive(parser: StreamingEmulatorParser, chunks: seq<Text>) returns (actions: seq<EmulatorAction>)
    requires parser.Valid() && parser.Abs() == INITIAL
    modifies parser
    ensures parser.Valid() && parser.Abs() == INITIAL
    ensures actions == StreamActions(parser.grammar, chunks)
  {
    ghost var step := Stepping(parser.grammar);
    ghost var (last, all) := FeedAll(step, INITIAL, chunks);
    actions := FeedChunks(parser, chunks);
    ActionsConcat(parser.grammar.markdown, all, Flush(parser.grammar, last));
    var rest := parser.Flush();
    actions := actions + rest;
  }

  method FeedChunks(parser: StreamingEmulatorParser, chunks: seq<Text>) returns (actions: seq<EmulatorAction>)
    requires parser.Valid()
    modifies parser
    ensures parser.Valid()
    ensures var (last, all) := FeedAll(Stepping(parser.grammar), old(parser.Abs()), chunks);
            parser.Abs() == last && actions == Actions(parser.grammar.markdown, all)
  {
    ghost var step, md := Stepping(parser.grammar), parser.grammar.markdown;
    ghost var (last, all) := FeedAll(step, parser.Abs(), chunks);
    actions := [];
    assert chunks[0..] == chunks;
    for i := 0 to |chunks|
      invariant parser.Valid()
      invariant FeedAll(step, parser.Abs(), chunks[i..]).0 == last
      invariant actions + Actions(md, FeedAll(step, parser.Abs(), chunks[i..]).1) == Actions(md, all)
    {
      ghost var cfg := parser.Abs();
      var more := parser.ProcessChunk(chunks[i]);
      FeedAllTakesAChunk(step, cfg, chunks, i, md);
      assert actions + (more + Actions(md, FeedAll(step, parser.Abs(), chunks[i + 1..]).1))
          == (actions + more) + Actions(md, FeedAll(step, parser.Abs(), chunks[i + 1..]).1);
      actions := actions + more;
    }
  }
}

/** Why each piece of a parsed stream is what it is, in terms of the text before it. */
module PieceMeaning {
  import opened ToolEmulation
  import opened ChunkInvariance
  import opened RecognisedLines
  import opened Wrappers

  predicate IsOneLine(raw: Text) {
    raw != "" && forall i | 0 <= i < |raw| - 1 :: raw[i] != '\n'
  }

  /** A line without its newline. */
  function Content(raw: Text): Text {
    if raw != "" && raw[|raw| - 1] == '\n' then raw[..|raw| - 1] else raw
  }

  function ModeAfter(mode: ParserState, piece: Piece): ParserState {
    match piece
    case FenceOpen(_, fenceLen) => InExecuteBlock(fenceLen)
    case FenceBody(_, _) => Normal
    case _ => mode
  }

  /** `before` is all the text ahead of the piece, `mode` whether it lies in an execute block.
      A shell line starts with `$` where the Markdown library sees a top-level paragraph; a fence
      opens only in code mode, where the library sees a top-level execute fence; a body ends with
      the first line that closes its fence, and its code is what precedes that line; at the end of the
      stream the last line may close it without a line end, and if none does all of the rest is code. */
  predicate Justified(g: Grammar, before: Text, mode: ParserState, piece: Piece) {
    match piece
    case TextLine(raw) => mode.Normal? && IsOneLine(raw)
    case ShellLine(raw, line) =>
      && mode.Normal? && IsOneLine(raw)
      && line == StripCr(Content(raw)) && "$" <= line
      && g.markdown.topLevelParagraphLine(before + raw, |before|)
    case FenceOpen(raw, fenceLen) =>
      && mode.Normal? && IsOneLine(raw) && g.codeMode
      && (g.executeFenceLen(Content(raw)) == Some(fenceLen)
          || g.executeFenceLen(StripCr(Content(raw))) == Some(fenceLen))
      && g.markdown.topLevelExecuteFence(before + raw, |before|)
    case FenceBody(raw, code) => mode.InExecuteBlock? && IsBody(raw, code, g.closes(mode.fenceLen))
    case FenceTail(raw, code) => mode.InExecuteBlock? && IsTail(raw, code, g.closes(mode.fenceLen))
  }

  predicate IsBody(raw: Text, code: Text, closes: Text -> bool) {
    var closing := ClosingFence(raw, 0, closes, false);
    closing.Some? && closing.value.1 == |raw| && code == StripCr(raw[..CodeEnd(raw, closing.value.0)])
  }

  predicate IsTail(raw: Text, code: Text, closes: Text -> bool) {
    var closing := ClosingFence(raw, 0, closes, true);
    && ClosingFence(raw, 0, closes, false).None?
    && code == StripCr(raw[..if closing.Some? then CodeEnd(raw, closing.value.0) else |raw|])
  }

  /** Neither of the two looks takes the line for more than text. */
  predicate NothingToRecognise(g: Grammar, before: Text, raw: Text) {
    && !(LooksLikeFence(g, Content(raw)) && g.markdown.topLevelExecuteFence(before + raw, |before|))
    && !(LooksLikeCommand(Content(raw)) && g.markdown.topLevelParagraphLine(before + raw, |before|))
  }

  type Judge = (Text, ParserState, Piece) -> bool

  function Justifying(g: Grammar): Judge {
    (before: Text, mode: ParserState, piece: Piece) => Justified(g, before, mode, piece)
  }

  /** The judge while the Markdown context lasts: text is also what neither look recognises. */
  function JustifyingExactly(g: Grammar): Judge {
    (before: Text, mode: ParserState, piece: Piece) =>
      Justified(g, before, mode, piece) && (piece.TextLine? ==> NothingToRecognise(g, before, piece.raw))
  }

  ghost predicate AllJustified(ok: Judge, before: Text, mode: ParserState, pieces: seq<Piece>)
    decreases |pieces|
  {
    pieces == [] ||
    (ok(before, mode, pieces[0])
     && AllJustified(ok, before + pieces[0].raw, ModeAfter(mode, pieces[0]), pieces[1..]))
  }

  function ModeAfterAll(mode: ParserState, pieces: seq<Piece>): ParserState
    decreases |pieces|
  {
    if pieces == [] then mode else ModeAfterAll(ModeAfter(mode, pieces[0]), pieces[1..])
  }

  lemma {:induction false} AllJustifiedConcat(ok: Judge, before: Text, mode: ParserState, a: seq<Piece>, b: seq<Piece>)
    requires AllJustified(ok, before, mode, a)
    requires AllJustified(ok, before + Raw(a), ModeAfterAll(mode, a), b)
    ensures AllJustified(ok, before, mode, a + b)
    decreases |a|
  {
    if a == [] {
      assert a + b == b;
      assert before + "" == before;
    } else {
      assert (a + b)[1..] == a[1..] + b;
      assert (before + a[0].raw) + Raw(a[1..]) == before + Raw(a);
      AllJustifiedConcat(ok, before + a[0].raw, ModeAfter(mode, a[0]), a[1..], b);
    }
  }

  /** Every step is justified; with `inContext`, every step that keeps the context. */
  ghost predicate StepsAreJustified(step: Stepper, ok: Judge, inContext: bool) {
    forall cfg: Config :: step(cfg).Some? ==>
      && ((inContext ==> step(cfg).value.0.context) ==> ok(cfg.done, cfg.mode, step(cfg).value.1))
      && step(cfg).value.0.mode == ModeAfter(cfg.mode, step(cfg).value.1)
  }

  lemma LineStepIsJustified(g: Grammar, cfg: Config, e: nat)
    requires cfg.mode.Normal? && e == LineEnd(cfg.buffer, 0) < |cfg.buffer|
    ensures var (next, piece) := LineStep(g, cfg, e);
            && Justified(g, cfg.done, cfg.mode, piece) && next.mode == ModeAfter(cfg.mode, piece)
            && (next.context && piece.TextLine? ==> NothingToRecognise(g, cfg.done, piece.raw))
  {
    var raw := cfg.buffer[..e + 1];
    assert Content(raw) == cfg.buffer[..e];
    assert forall i | 0 <= i < e :: raw[i] == cfg.buffer[i];
    assert (cfg.done + raw + cfg.buffer[e + 1..])[..|cfg.done| + e + 1] == cfg.done + raw;
  }

  lemma LineOfPrefix(input: Text, from: nat, e: nat, end: nat)
    requires from <= |input| && LineEnd(input, from) == e < end <= |input|
    ensures LineEnd(input[..end], from) == e && input[..end][from..e] == input[from..e]
  {
    LineEndIsUnique(input[..end], from, e);
  }

  /** The closing line found in a buffer is found in the part of it that ends with that line. */
  lemma {:induction false} ClosingFenceRestricts(input: Text, from: nat, end: nat, closes: Text -> bool)
    requires from <= |input| && ClosingFence(input, from, closes, false).Some?
    requires end == ClosingFence(input, from, closes, false).value.1
    ensures ClosingFence(input[..end], from, closes, false) == ClosingFence(input, from, closes, false)
    decreases |input| - from
  {
    var e := LineEnd(input, from);
    if !closes(input[from..e]) {
      ClosingFenceRestricts(input, e + 1, end, closes);
    }
    LineOfPrefix(input, from, e, end);
  }

  lemma BlockStepIsBody(cfg: Config, closes: Text -> bool)
    requires BlockStep(cfg, closes).Some?
    ensures var (next, piece) := BlockStep(cfg, closes).value;
            piece.FenceBody? && next.mode.Normal? && IsBody(piece.raw, piece.code, closes)
  {
    var (start, consumed) := ClosingFence(cfg.buffer, 0, closes, false).value;
    ClosingFenceRestricts(cfg.buffer, 0, consumed, closes);
    var raw := cfg.buffer[..consumed];
    assert raw[..CodeEnd(raw, start)] == cfg.buffer[..CodeEnd(cfg.buffer, start)];
  }

  lemma SteppingIsJustified(g: Grammar)
    ensures StepsAreJustified(Stepping(g), Justifying(g), false)
    ensures StepsAreJustified(Stepping(g), JustifyingExactly(g), true)
  {
    var step, ok, exactly := Stepping(g), Justifying(g), JustifyingExactly(g);
    forall cfg: Config | step(cfg).Some?
      ensures ok(cfg.done, cfg.mode, step(cfg).value.1)
      ensures step(cfg).value.0.context ==> exactly(cfg.done, cfg.mode, step(cfg).value.1)
      ensures step(cfg).value.0.mode == ModeAfter(cfg.mode, step(cfg).value.1)
    {
      if cfg.mode.Normal? {
        LineStepIsJustified(g, cfg, LineEnd(cfg.buffer, 0));
      } else {
        BlockStepIsBody(cfg, g.closes(cfg.mode.fenceLen));
      }
    }
  }

  /** The pieces of a run are justified one after the other, and lead to the run's last mode. */
  ghost predicate RunIsJustified(ok: Judge, inContext: bool, cfg: Config, run: (Config, seq<Piece>)) {
    && ((inContext ==> run.0.context) ==> AllJustified(ok, cfg.done, cfg.mode, run.1))
    && run.0.mode == ModeAfterAll(cfg.mode, run.1)
  }

  lemma {:induction false} DrainIsJustified(step: Stepper, ok: Judge, inContext: bool, cfg: Config)
    requires StepsAreJustified(step, ok, inContext) && Keeps(step) && cfg.Consistent()
    ensures RunIsJustified(ok, inContext, cfg, Drain(step, cfg))
    decreases |cfg.buffer|
  {
    if step(cfg).Some? {
      var (next, piece) := step(cfg).value;
      DrainIsJustified(step, ok, inContext, next);
      DrainKeeps(step, next);
      var rest := Drain(step, next).1;
      assert ([piece] + rest)[1..] == rest;
      assert Drain(step, cfg).1 == [piece] + rest;
    }
  }

  lemma {:induction false} FeedAllIsJustified(
    step: Stepper, ok: Judge, inContext: bool, cfg: Config, chunks: seq<Text>)
    requires StepsAreJustified(step, ok, inContext) && Keeps(step) && cfg.Consistent()
    ensures RunIsJustified(ok, inContext, cfg, FeedAll(step, cfg, chunks))
    ensures FeedAll(step, cfg, chunks).0.context ==> cfg.context
    decreases |chunks|
  {
    if chunks != [] {
      FeedIsJustified(step, ok, inContext, cfg, chunks[0]);
      var (next, first) := Feed(step, cfg, chunks[0]);
      FeedAllIsJustified(step, ok, inContext, next, chunks[1..]);
      var (last, rest) := FeedAll(step, next, chunks[1..]);
      RunsInARow(ok, inContext, cfg, next, first, last, rest);
    }
  }

  lemma RunsInARow(
    ok: Judge, inContext: bool, cfg: Config, next: Config, first: seq<Piece>, last: Config, rest: seq<Piece>)
    requires RunIsJustified(ok, inContext, cfg, (next, first)) && RunIsJustified(ok, inContext, next, (last, rest))
    requires next.done == cfg.done + Raw(first) && (last.context ==> next.context)
    ensures RunIsJustified(ok, inContext, cfg, (last, first + rest))
  {
    ModeAfterAllConcat(cfg.mode, first, rest);
    if inContext ==> last.context {
      AllJustifiedConcat(ok, cfg.done, cfg.mode, first, rest);
    }
  }

  lemma {:induction false} ModeAfterAllConcat(mode: ParserState, a: seq<Piece>, b: seq<Piece>)
    ensures ModeAfterAll(mode, a + b) == ModeAfterAll(ModeAfterAll(mode, a), b)
    decreases |a|
  {
    if a == [] {
      assert a + b == b;
    } else {
      assert (a + b)[1..] == a[1..] + b;
      ModeAfterAllConcat(ModeAfter(mode, a[0]), a[1..], b);
    }
  }

  lemma FeedIsJustified(step: Stepper, ok: Judge, inContext: bool, cfg: Config, chunk: Text)
    requires StepsAreJustified(step, ok, inContext) && Keeps(step) && cfg.Consistent()
    ensures RunIsJustified(ok, inContext, cfg, Feed(step, cfg, chunk))
    ensures Feed(step, cfg, chunk).0.done == cfg.done + Raw(Feed(step, cfg, chunk).1)
    ensures Feed(step, cfg, chunk).0.Consistent() && (Feed(step, cfg, chunk).0.context ==> cfg.context)
  {
    FeedKeeps(step, cfg, chunk);
    var grown := cfg.Extend(chunk);
    DrainKeeps(step, grown);
    DrainKeeps(step, grown.Disable());
    DrainIsJustified(step, ok, inContext, grown);
    DrainIsJustified(step, ok, inContext, grown.Disable());
  }

  lemma FinishIsJustified(g: Grammar, cfg: Config)
    requires Drained(Stepping(g), cfg)
    ensures AllJustified(Justifying(g), cfg.done, cfg.mode, Finish(g, cfg))
  {
    var pieces := Finish(g, cfg);
    if pieces != [] {
      FinishPieceIsJustified(g, cfg);
      assert pieces[1..] == [];
    }
  }

  lemma FinishPieceIsJustified(g: Grammar, cfg: Config)
    requires Drained(Stepping(g), cfg)
    requires Finish(g, cfg) != []
    ensures Justified(g, cfg.done, cfg.mode, Finish(g, cfg)[0])
  {
    assert cfg.Received()[..|cfg.Received()|] == cfg.done + cfg.buffer;
  }

  /** Every piece of a stream is justified by the text before it, however the stream was chunked. */
  lemma EveryPieceIsJustified(g: Grammar, chunks: seq<Text>)
    ensures AllJustified(Justifying(g), "", Normal, StreamPieces(g, chunks))
  {
    var step, ok := Stepping(g), Justifying(g);
    SteppingIsJustified(g);
    SteppingExtendsAndKeeps(g);
    FeedAllIsJustified(step, ok, false, INITIAL, chunks);
    FeedAllKeeps(step, INITIAL, chunks);
    var (cfg, pieces) := FeedAll(step, INITIAL, chunks);
    FlushIsJustified(g, cfg);
    AllJustifiedConcat(ok, INITIAL.done, INITIAL.mode, pieces, Flush(g, cfg));
  }

  lemma FlushIsJustified(g: Grammar, cfg: Config)
    requires cfg.Consistent()
    ensures AllJustified(Justifying(g), cfg.done, cfg.mode, Flush(g, cfg))
  {
    var step, ok := Stepping(g), Justifying(g);
    SteppingIsJustified(g);
    SteppingExtendsAndKeeps(g);
    FeedIsJustified(step, ok, false, cfg, "");
    var (last, pieces) := Feed(step, cfg, "");
    FeedIsDrained(step, cfg, "");
    FinishIsJustified(g, last);
    AllJustifiedConcat(ok, cfg.done, cfg.mode, pieces, Finish(g, last));
  }

  lemma FeedIsDrained(step: Stepper, cfg: Config, chunk: Text)
    ensures Drained(step, Feed(step, cfg, chunk).0)
  {
    DrainIsDrained(step, cfg.Extend(chunk));
    DrainIsDrained(step, cfg.Extend(chunk).Disable());
  }

  /** As long as the stream keeps its context, a line is text if and only if neither look recognises
      it: all that precedes the flush is justified exactly. */
  lemma TextIsWhatIsNotRecognised(g: Grammar, chunks: seq<Text>)
    requires FeedAll(Stepping(g), INITIAL, chunks).0.context
    ensures AllJustified(JustifyingExactly(g), "", Normal, FeedAll(Stepping(g), INITIAL, chunks).1)
  {
    SteppingIsJustified(g);
    SteppingExtendsAndKeeps(g);
    FeedAllIsJustified(Stepping(g), JustifyingExactly(g), true, INITIAL, chunks);
  }

  /** The last line of a stream, with context and budget left, is text if and only if neither look
      recognises it. */
  lemma LastLineIsTextExactlyWhen(g: Grammar, cfg: Config)
    requires cfg.mode.Normal? && cfg.context && 2 * |cfg.Received()| <= cfg.budget
    ensures FinishLine(g, cfg).TextLine?
       <==> !(LooksLikeFence(g, StripCr(cfg.buffer)) && g.markdown.topLevelExecuteFence(cfg.Received(), |cfg.done|))
            && !(LooksLikeCommand(cfg.buffer) && g.markdown.topLevelParagraphLine(cfg.Received(), |cfg.done|))
  {
    assert cfg.Received()[..|cfg.Received()|] == cfg.Received();
    assert LooksLikeCommand(cfg.buffer) <==> "$" <= StripCr(cfg.buffer);
  }
}

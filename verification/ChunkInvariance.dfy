/** What the streaming parser owes to its caller: the actions depend on the text, not on how it was
    cut into chunks, except for where the size limit on the Markdown context falls. */
module ChunkInvariance {
  import opened ToolEmulation
  import opened Wrappers

  // ---------------------------------------------------------------- more input changes nothing done

  /** A step taken is taken again, with the same piece, when the buffer is longer. */
  ghost predicate Extends(step: Stepper) {
    forall cfg: Config, more {:trigger step(cfg.Extend(more))} :: step(cfg).Some? ==>
      step(cfg.Extend(more)) == Some((step(cfg).value.0.Extend(more), step(cfg).value.1))
  }

  lemma StepExtends(g: Grammar, cfg: Config, more: Text)
    requires Step(g, cfg).Some?
    ensures var (next, piece) := Step(g, cfg).value;
            Step(g, cfg.Extend(more)) == Some((next.Extend(more), piece))
  {
    if cfg.mode.Normal? {
      var e := LineEnd(cfg.buffer, 0);
      LineEndIsUnique(cfg.buffer + more, 0, e);
      LineStepExtends(g, cfg, e, more);
    } else {
      BlockStepExtends(cfg, g.closes(cfg.mode.fenceLen), more);
    }
  }

  lemma BlockStepExtends(cfg: Config, closes: Text -> bool, more: Text)
    requires BlockStep(cfg, closes).Some?
    ensures var (next, piece) := BlockStep(cfg, closes).value;
            BlockStep(cfg.Extend(more), closes) == Some((next.Extend(more), piece))
  {
    ClosingFenceExtends(cfg.buffer, more, 0, closes);
    var (start, consumed) := ClosingFence(cfg.buffer, 0, closes, false).value;
    var longer := cfg.buffer + more;
    assert longer[..consumed] == cfg.buffer[..consumed];
    assert longer[consumed..] == cfg.buffer[consumed..] + more;
    assert longer[..CodeEnd(cfg.buffer, start)] == cfg.buffer[..CodeEnd(cfg.buffer, start)];
  }

  lemma LineStepExtends(g: Grammar, cfg: Config, e: nat, more: Text)
    requires e < |cfg.buffer|
    ensures var (next, piece) := LineStep(g, cfg, e);
            LineStep(g, cfg.Extend(more), e) == (next.Extend(more), piece)
  {
    var longer := cfg.Extend(more);
    assert longer.buffer[..e] == cfg.buffer[..e];
    assert longer.buffer[..e + 1] == cfg.buffer[..e + 1];
    assert longer.buffer[e + 1..] == cfg.buffer[e + 1..] + more;
    var next := cfg.(done := cfg.done + cfg.buffer[..e + 1], buffer := cfg.buffer[e + 1..]);
    var end := |cfg.done| + e + 1;
    assert next.Received()[..end] == next.done;
    assert next.Extend(more).Received()[..end] == next.done;
  }

  /** Draining a longer buffer drains the shorter one first. */
  lemma {:induction false} DrainExtends(step: Stepper, cfg: Config, more: Text)
    requires Extends(step)
    ensures var (mid, first) := Drain(step, cfg);
            var (last, second) := Drain(step, mid.Extend(more));
            Drain(step, cfg.Extend(more)) == (last, first + second)
    decreases |cfg.buffer|
  {
    match step(cfg)
    case None =>
      var (last, second) := Drain(step, cfg.Extend(more));
      assert [] + second == second;
    case Some((next, piece)) =>
      DrainExtends(step, next, more);
      var (mid, first) := Drain(step, next);
      var (last, second) := Drain(step, mid.Extend(more));
      assert [piece] + (first + second) == ([piece] + first) + second;
  }

  ghost predicate Drained(step: Stepper, cfg: Config) { step(cfg).None? }

  lemma {:induction false} DrainIsDrained(step: Stepper, cfg: Config)
    ensures Drained(step, Drain(step, cfg).0)
    decreases |cfg.buffer|
  {
    if step(cfg).Some? {
      DrainIsDrained(step, step(cfg).value.0);
    }
  }

  // ---------------------------------------------------------------- what a step keeps

  /** A step only moves text from the buffer to a piece, and never brings the context back. */
  ghost predicate Moves(cfg: Config, next: Config, piece: Piece) {
    && next.Received() == cfg.Received() && next.Consistent()
    && (next.context ==> cfg.context)
    && next.done == cfg.done + piece.raw && piece.raw != ""
  }

  ghost predicate Keeps(step: Stepper) {
    forall cfg: Config :: cfg.Consistent() && step(cfg).Some? ==> Moves(cfg, step(cfg).value.0, step(cfg).value.1)
  }

  lemma BlockStepKeeps(cfg: Config, closes: Text -> bool)
    requires cfg.Consistent() && BlockStep(cfg, closes).Some?
    ensures var (next, piece) := BlockStep(cfg, closes).value; Moves(cfg, next, piece)
  {
    var (next, piece) := BlockStep(cfg, closes).value;
    assert cfg.buffer == piece.raw + next.buffer;
    assert (cfg.done + piece.raw) + next.buffer == cfg.done + (piece.raw + next.buffer);
  }

  lemma SteppingExtendsAndKeeps(g: Grammar)
    ensures Extends(Stepping(g)) && Keeps(Stepping(g))
  {
    var step := Stepping(g);
    forall cfg: Config, more | step(cfg).Some?
      ensures step(cfg.Extend(more)) == Some((step(cfg).value.0.Extend(more), step(cfg).value.1))
    {
      StepExtends(g, cfg, more);
    }
    forall cfg: Config | cfg.Consistent() && step(cfg).Some?
      ensures Moves(cfg, step(cfg).value.0, step(cfg).value.1)
    {
      if cfg.mode.InExecuteBlock? {
        BlockStepKeeps(cfg, g.closes(cfg.mode.fenceLen));
      }
    }
  }

  function Raw(pieces: seq<Piece>): Text {
    if pieces == [] then "" else pieces[0].raw + Raw(pieces[1..])
  }

  lemma {:induction false} RawConcat(a: seq<Piece>, b: seq<Piece>)
    ensures Raw(a + b) == Raw(a) + Raw(b)
  {
    if a == [] {
      assert a + b == b;
    } else {
      assert (a + b)[1..] == a[1..] + b;
      RawConcat(a[1..], b);
    }
  }

  lemma {:induction false} DrainKeeps(step: Stepper, cfg: Config)
    requires Keeps(step)
    requires cfg.Consistent()
    ensures var (last, pieces) := Drain(step, cfg);
            && last.Received() == cfg.Received() && last.Consistent()
            && (last.context ==> cfg.context)
            && last.done == cfg.done + Raw(pieces)
    decreases |cfg.buffer|
  {
    match step(cfg)
    case None =>
    case Some((next, piece)) =>
      DrainKeeps(step, next);
      var (last, rest) := Drain(step, next);
      var pieces := [piece] + rest;
      assert pieces[1..] == rest;
      assert (cfg.done + piece.raw) + Raw(rest) == cfg.done + (piece.raw + Raw(rest));
  }

  // ---------------------------------------------------------------- the batch parser and its cut

  /** How many leading bytes arrive before the context outgrows its limit, `total` having arrived. */
  function Cut(total: nat, chunks: seq<Text>): (cut: nat)
    ensures total <= cut <= total + |Flatten(chunks)|
    decreases |chunks|
  {
    if chunks == [] || total + |chunks[0]| > MAX_MARKDOWN_CONTEXT_BYTES then total
    else Cut(total + |chunks[0]|, chunks[1..])
  }

  /** Parses `text` in one go: the first `cut` bytes with the Markdown context, the rest without. */
  function Batch(step: Stepper, cfg: Config, text: Text, cut: nat): (Config, seq<Piece>)
    requires cut <= |text|
  {
    var (mid, first) := Drain(step, cfg.Extend(text[..cut]));
    if cut == |text| then (mid, first)
    else
      var (last, second) := Drain(step, mid.Extend(text[cut..]).Disable());
      (last, first + second)
  }

  lemma ExtendTwice(cfg: Config, a: Text, b: Text)
    ensures cfg.Extend(a).Extend(b) == cfg.Extend(a + b)
    ensures cfg.Extend("") == cfg
  {
    assert cfg.buffer + a + b == cfg.buffer + (a + b);
    assert cfg.buffer + "" == cfg.buffer;
  }

  /** Without the context, chunks only ever lengthen the buffer. */
  lemma {:induction false} FeedAllWithoutContext(step: Stepper, cfg: Config, chunks: seq<Text>)
    requires Extends(step) && Keeps(step)
    requires !cfg.context && cfg.Consistent() && Drained(step, cfg)
    ensures FeedAll(step, cfg, chunks) == Drain(step, cfg.Extend(Flatten(chunks)))
    decreases |chunks|
  {
    if chunks == [] {
      ExtendTwice(cfg, "", "");
    } else {
      var grown := cfg.Extend(chunks[0]);
      var (next, first) := Drain(step, grown);
      DrainKeeps(step, grown);
      DrainIsDrained(step, grown);
      FeedAllWithoutContext(step, next, chunks[1..]);
      DrainExtends(step, grown, Flatten(chunks[1..]));
      ExtendTwice(cfg, chunks[0], Flatten(chunks[1..]));
    }
  }

  ghost predicate IsBatchOf(step: Stepper, cfg: Config, chunks: seq<Text>, cut: nat) {
    cut <= |Flatten(chunks)| && FeedAll(step, cfg, chunks) == Batch(step, cfg, Flatten(chunks), cut)
  }

  /** The chunk-fed parser is the batch parser: chunking matters only through the cut. */
  lemma {:induction false} FeedAllIsBatch(step: Stepper, cfg: Config, chunks: seq<Text>) returns (cut: nat)
    requires Extends(step) && Keeps(step)
    requires cfg.Consistent() && Drained(step, cfg)
    requires |cfg.Received()| <= MAX_MARKDOWN_CONTEXT_BYTES
    ensures |cfg.Received()| + cut == Cut(|cfg.Received()|, chunks)
    ensures IsBatchOf(step, cfg, chunks, cut)
    decreases |chunks|, 1
  {
    if chunks == [] || |cfg.Received()| + |chunks[0]| > MAX_MARKDOWN_CONTEXT_BYTES {
      FeedAtTheCut(step, cfg, chunks);
      cut := 0;
    } else {
      cut := FeedWithinTheLimit(step, cfg, chunks);
    }
  }

  lemma {:induction false} FeedWithinTheLimit(step: Stepper, cfg: Config, chunks: seq<Text>) returns (cut: nat)
    requires Extends(step) && Keeps(step)
    requires cfg.Consistent() && Drained(step, cfg)
    requires chunks != [] && |cfg.Received()| + |chunks[0]| <= MAX_MARKDOWN_CONTEXT_BYTES
    ensures |cfg.Received()| + cut == Cut(|cfg.Received()|, chunks)
    ensures IsBatchOf(step, cfg, chunks, cut)
    decreases |chunks|, 0
  {
    var next := AfterTheChunk(step, cfg, chunks[0]);
    var rest := FeedAllIsBatch(step, next, chunks[1..]);
    cut := AddChunk(step, cfg, next, chunks, rest);
  }

  lemma AddChunk(step: Stepper, cfg: Config, next: Config, chunks: seq<Text>, rest: nat) returns (cut: nat)
    requires Extends(step)
    requires chunks != [] && |cfg.Received()| + |chunks[0]| <= MAX_MARKDOWN_CONTEXT_BYTES
    requires next == Drain(step, cfg.Extend(chunks[0])).0 && next.Received() == cfg.Received() + chunks[0]
    requires |next.Received()| + rest == Cut(|next.Received()|, chunks[1..])
    requires IsBatchOf(step, next, chunks[1..], rest)
    ensures |cfg.Received()| + cut == Cut(|cfg.Received()|, chunks)
    ensures IsBatchOf(step, cfg, chunks, cut)
  {
    cut := |chunks[0]| + rest;
    FeedThenBatch(step, cfg, chunks, rest);
  }

  lemma FeedAtTheCut(step: Stepper, cfg: Config, chunks: seq<Text>)
    requires Extends(step) && Keeps(step)
    requires cfg.Consistent() && Drained(step, cfg) && |cfg.Received()| <= MAX_MARKDOWN_CONTEXT_BYTES
    requires chunks == [] || |cfg.Received()| + |chunks[0]| > MAX_MARKDOWN_CONTEXT_BYTES
    ensures IsBatchOf(step, cfg, chunks, 0) && Cut(|cfg.Received()|, chunks) == |cfg.Received()|
  {
    if chunks == [] {
      FeedNothing(step, cfg);
    } else {
      FeedBeyondTheLimit(step, cfg, chunks);
    }
  }

  lemma AfterTheChunk(step: Stepper, cfg: Config, chunk: Text) returns (next: Config)
    requires Keeps(step) && cfg.Consistent()
    ensures next == Drain(step, cfg.Extend(chunk)).0
    ensures next.Consistent() && Drained(step, next) && next.Received() == cfg.Received() + chunk
  {
    var grown := cfg.Extend(chunk);
    DrainKeeps(step, grown);
    DrainIsDrained(step, grown);
    next := Drain(step, grown).0;
  }

  lemma FeedNothing(step: Stepper, cfg: Config)
    requires Drained(step, cfg)
    ensures FeedAll(step, cfg, []) == Batch(step, cfg, Flatten([]), 0)
  {
    ExtendTwice(cfg, "", "");
    assert Flatten([]) == "" && ""[..0] == "";
  }

  lemma FeedThenBatch(step: Stepper, cfg: Config, chunks: seq<Text>, cut: nat)
    requires Extends(step) && chunks != []
    requires |cfg.Received()| + |chunks[0]| <= MAX_MARKDOWN_CONTEXT_BYTES
    requires IsBatchOf(step, Drain(step, cfg.Extend(chunks[0])).0, chunks[1..], cut)
    ensures IsBatchOf(step, cfg, chunks, |chunks[0]| + cut)
  {
    BatchExtends(step, cfg, chunks[0], Flatten(chunks[1..]), cut);
  }

  lemma BatchExtends(step: Stepper, cfg: Config, head: Text, tail: Text, cut: nat)
    requires Extends(step)
    requires cut <= |tail|
    ensures var (mid, first) := Drain(step, cfg.Extend(head));
            var (last, second) := Batch(step, mid, tail, cut);
            Batch(step, cfg, head + tail, |head| + cut) == (last, first + second)
  {
    var text := head + tail;
    assert text[..|head| + cut] == head + tail[..cut];
    assert text[|head| + cut..] == tail[cut..];
    ExtendTwice(cfg, head, tail[..cut]);
    DrainExtends(step, cfg.Extend(head), tail[..cut]);
    var (mid, first) := Drain(step, cfg.Extend(head));
    var (mid2, second) := Drain(step, mid.Extend(tail[..cut]));
    if cut < |tail| {
      var (last, third) := Drain(step, mid2.Extend(tail[cut..]).Disable());
      assert (first + second) + third == first + (second + third);
    }
  }

  lemma FeedBeyondTheLimit(step: Stepper, cfg: Config, chunks: seq<Text>)
    requires Extends(step) && Keeps(step)
    requires cfg.Consistent() && Drained(step, cfg)
    requires chunks != [] && |cfg.Received()| + |chunks[0]| > MAX_MARKDOWN_CONTEXT_BYTES
    requires |cfg.Received()| <= MAX_MARKDOWN_CONTEXT_BYTES
    ensures FeedAll(step, cfg, chunks) == Batch(step, cfg, Flatten(chunks), 0)
  {
    var text := Flatten(chunks);
    var grown := cfg.Extend(chunks[0]).Disable();
    assert Feed(step, cfg, chunks[0]) == Drain(step, grown);
    var (next, first) := Drain(step, grown);
    DrainKeeps(step, grown);
    DrainIsDrained(step, grown);
    FeedAllWithoutContext(step, next, chunks[1..]);
    DrainExtends(step, grown, Flatten(chunks[1..]));
    ExtendTwice(cfg.Disable(), chunks[0], Flatten(chunks[1..]));
    assert text[..0] == "" && text[0..] == text;
    ExtendTwice(cfg, "", "");
    var (last, second) := Drain(step, cfg.Extend(text).Disable());
    assert [] + second == second;
  }

  lemma {:induction false} CutOfAShortText(total: nat, chunks: seq<Text>)
    requires total + |Flatten(chunks)| <= MAX_MARKDOWN_CONTEXT_BYTES
    ensures Cut(total, chunks) == total + |Flatten(chunks)|
    decreases |chunks|
  {
    if chunks != [] {
      CutOfAShortText(total + |chunks[0]|, chunks[1..]);
    }
  }

  lemma FlattenOne(text: Text)
    ensures Flatten([text]) == text
  {
    assert [text][1..] == [];
    assert Flatten([text]) == text + "";
  }

  /** Two ways of cutting the same text with the same cut give the same actions, at any length. */
  lemma SameCutSameActions(g: Grammar, a: seq<Text>, b: seq<Text>)
    requires Flatten(a) == Flatten(b) && Cut(0, a) == Cut(0, b)
    ensures StreamPieces(g, a) == StreamPieces(g, b)
    ensures StreamActions(g, a) == StreamActions(g, b)
  {
    StreamIsBatch(g, a);
    StreamIsBatch(g, b);
  }

  lemma FeedAllFromNothing(step: Stepper, cfg: Config, chunks: seq<Text>)
    requires Extends(step) && Keeps(step)
    requires Drained(step, cfg) && cfg.Consistent() && cfg.Received() == ""
    ensures FeedAll(step, cfg, chunks) == Batch(step, cfg, Flatten(chunks), Cut(0, chunks))
  {
    var cut := FeedAllIsBatch(step, cfg, chunks);
  }

  lemma StreamIsBatch(g: Grammar, chunks: seq<Text>)
    ensures FeedAll(Stepping(g), INITIAL, chunks)
         == Batch(Stepping(g), INITIAL, Flatten(chunks), Cut(0, chunks))
  {
    SteppingExtendsAndKeeps(g);
    FeedAllFromNothing(Stepping(g), INITIAL, chunks);
  }

  /** Up to 256 KiB, the actions do not depend on the chunks at all. */
  lemma ChunksDoNotMatter(g: Grammar, chunks: seq<Text>)
    requires |Flatten(chunks)| <= MAX_MARKDOWN_CONTEXT_BYTES
    ensures StreamActions(g, chunks) == StreamActions(g, [Flatten(chunks)])
  {
    FlattenOne(Flatten(chunks));
    CutOfAShortText(0, chunks);
    CutOfAShortText(0, [Flatten(chunks)]);
    SameCutSameActions(g, chunks, [Flatten(chunks)]);
  }

  // ---------------------------------------------------------------- no text lost, none doubled

  lemma {:induction false} FeedAllKeeps(step: Stepper, cfg: Config, chunks: seq<Text>)
    requires Keeps(step) && cfg.Consistent()
    ensures var (last, pieces) := FeedAll(step, cfg, chunks);
            && last.Received() == cfg.Received() + Flatten(chunks) && last.Consistent()
            && last.done == cfg.done + Raw(pieces)
    decreases |chunks|
  {
    if chunks == [] {
      assert cfg.Received() + "" == cfg.Received();
    } else {
      FeedKeeps(step, cfg, chunks[0]);
      var (next, first) := Feed(step, cfg, chunks[0]);
      FeedAllKeeps(step, next, chunks[1..]);
      var (last, rest) := FeedAll(step, next, chunks[1..]);
      KeepsAcross(cfg, next, last, first, rest, chunks[0], Flatten(chunks[1..]));
    }
  }

  lemma KeepsAcross(
    cfg: Config, next: Config, last: Config, first: seq<Piece>, rest: seq<Piece>, chunk: Text, more: Text)
    requires next.Received() == cfg.Received() + chunk && last.Received() == next.Received() + more
    requires next.done == cfg.done + Raw(first) && last.done == next.done + Raw(rest)
    ensures last.Received() == cfg.Received() + (chunk + more) && last.done == cfg.done + Raw(first + rest)
  {
    RawConcat(first, rest);
    assert (cfg.done + Raw(first)) + Raw(rest) == cfg.done + (Raw(first) + Raw(rest));
  }

  lemma FeedKeeps(step: Stepper, cfg: Config, chunk: Text)
    requires Keeps(step) && cfg.Consistent()
    ensures var (last, pieces) := Feed(step, cfg, chunk);
            && last.Received() == cfg.Received() + chunk && last.Consistent()
            && last.done == cfg.done + Raw(pieces)
  {
    var grown := cfg.Extend(chunk);
    DrainKeeps(step, grown);
    DrainKeeps(step, grown.Disable());
  }

  lemma FlushKeeps(g: Grammar, cfg: Config)
    requires cfg.Consistent()
    ensures cfg.done + Raw(Flush(g, cfg)) == cfg.Received()
  {
    SteppingExtendsAndKeeps(g);
    var last := Feed(Stepping(g), cfg, "").0;
    FeedThenRest(Stepping(g), cfg, Finish(g, last));
  }

  lemma FeedThenRest(step: Stepper, cfg: Config, rest: seq<Piece>)
    requires Keeps(step) && cfg.Consistent() && Raw(rest) == Feed(step, cfg, "").0.buffer
    ensures cfg.done + Raw(Feed(step, cfg, "").1 + rest) == cfg.Received()
  {
    FeedKeeps(step, cfg, "");
    var (last, pieces) := Feed(step, cfg, "");
    RawConcat(pieces, rest);
    assert cfg.Received() + "" == cfg.Received();
    assert (cfg.done + Raw(pieces)) + last.buffer == cfg.done + (Raw(pieces) + last.buffer);
  }

  lemma FeedAllThenRest(step: Stepper, cfg: Config, chunks: seq<Text>, rest: seq<Piece>)
    requires Keeps(step) && cfg.Consistent() && cfg.Received() == ""
    requires var last := FeedAll(step, cfg, chunks).0; last.done + Raw(rest) == last.Received()
    ensures Raw(FeedAll(step, cfg, chunks).1 + rest) == Flatten(chunks)
  {
    FeedAllKeeps(step, cfg, chunks);
    RawConcat(FeedAll(step, cfg, chunks).1, rest);
    assert cfg.done == "";
    assert "" + Raw(FeedAll(step, cfg, chunks).1) == Raw(FeedAll(step, cfg, chunks).1);
    assert "" + Flatten(chunks) == Flatten(chunks);
  }

  /** The pieces of a stream, put end to end, are the text that was fed, however it was chunked. */
  lemma NothingLostNothingDoubled(g: Grammar, chunks: seq<Text>)
    ensures Raw(StreamPieces(g, chunks)) == Flatten(chunks)
  {
    SteppingExtendsAndKeeps(g);
    FeedAllKeeps(Stepping(g), INITIAL, chunks);
    var cfg := FeedAll(Stepping(g), INITIAL, chunks).0;
    FlushKeeps(g, cfg);
    FeedAllThenRest(Stepping(g), INITIAL, chunks, Flush(g, cfg));
  }

  // ---------------------------------------------------------------- beyond 256 KiB

  ghost predicate AllText(pieces: seq<Piece>) { forall i | 0 <= i < |pieces| :: pieces[i].TextLine? }

  /** A line left as text is left as text without the context too; without it every line is. */
  ghost predicate FailsClosed(step: Stepper) {
    && (forall cfg: Config :: cfg.mode.Normal? && step(cfg).Some? && step(cfg).value.1.TextLine? ==>
          && step(cfg).value.0.mode.Normal?
          && step(cfg.Disable()) == Some((step(cfg).value.0.Disable(), step(cfg).value.1)))
    && (forall cfg: Config :: cfg.mode.Normal? && step(cfg.Disable()).Some? ==>
          step(cfg.Disable()).value.1.TextLine?)
    && (forall cfg: Config :: step(cfg).None? ==> step(cfg.Disable()).None?)
  }

  lemma LineStepFailsClosed(g: Grammar, cfg: Config, e: nat)
    requires e < |cfg.buffer| && cfg.mode.Normal?
    ensures LineStep(g, cfg.Disable(), e).1.TextLine?
    ensures var (next, piece) := LineStep(g, cfg, e);
            piece.TextLine? ==>
              next.mode.Normal? && LineStep(g, cfg.Disable(), e) == (next.Disable(), piece)
  {}

  lemma SteppingFailsClosed(g: Grammar)
    ensures FailsClosed(Stepping(g))
  {
    var step := Stepping(g);
    forall cfg: Config | cfg.mode.Normal? && LineEnd(cfg.buffer, 0) < |cfg.buffer|
      ensures step(cfg.Disable()).Some? && step(cfg.Disable()).value.1.TextLine?
      ensures step(cfg).Some? && (step(cfg).value.1.TextLine? ==>
                && step(cfg).value.0.mode.Normal?
                && step(cfg.Disable()) == Some((step(cfg).value.0.Disable(), step(cfg).value.1)))
    {
      LineStepFailsClosed(g, cfg, LineEnd(cfg.buffer, 0));
    }
    forall cfg: Config | step(cfg).None? ensures step(cfg.Disable()).None? {
      if cfg.mode.InExecuteBlock? {
        assert BlockStep(cfg, g.closes(cfg.mode.fenceLen)).None?;
      }
    }
  }

  lemma {:induction false} DrainWithoutContext(step: Stepper, cfg: Config)
    requires FailsClosed(step) && cfg.mode.Normal? && cfg == cfg.Disable()
    ensures var (last, pieces) := Drain(step, cfg);
            AllText(pieces) && last.mode.Normal? && last == last.Disable()
    decreases |cfg.buffer|
  {
    if step(cfg).Some? {
      DrainWithoutContext(step, step(cfg).value.0);
    }
  }

  lemma {:induction false} DrainOfPlainText(step: Stepper, cfg: Config)
    requires FailsClosed(step) && cfg.mode.Normal? && AllText(Drain(step, cfg).1)
    ensures var (last, pieces) := Drain(step, cfg);
            last.mode.Normal? && Drain(step, cfg.Disable()) == (last.Disable(), pieces)
    decreases |cfg.buffer|
  {
    if step(cfg).Some? {
      var (next, piece) := step(cfg).value;
      var rest := Drain(step, next).1;
      assert Drain(step, cfg).1 == [piece] + rest;
      assert piece == ([piece] + rest)[0];
      assert forall i | 0 <= i < |rest| :: rest[i] == ([piece] + rest)[i + 1];
      DrainOfPlainText(step, next);
    }
  }

  /** When the first `cut` bytes held nothing but text, losing the context from the start changes nothing. */
  lemma BatchOfPlainText(step: Stepper, cfg: Config, text: Text, cut: nat)
    requires FailsClosed(step) && Extends(step)
    requires cfg.mode.Normal? && Drained(step, cfg) && cut < |text|
    requires AllText(Drain(step, cfg.Extend(text[..cut])).1)
    ensures Batch(step, cfg, text, cut) == Batch(step, cfg, text, 0)
  {
    var head, tail := text[..cut], text[cut..];
    assert text == head + tail && text[..0] == "" && text[0..] == text;
    ExtendTwice(cfg, "", "");
    ExtendTwice(cfg.Disable(), head, tail);
    DrainOfPlainText(step, cfg.Extend(head));
    DrainExtends(step, cfg.Extend(head).Disable(), tail);
    var (last, pieces) := Drain(step, cfg.Extend(text).Disable());
    assert [] + pieces == pieces;
  }

  // How much text the actions carry tells whether anything was taken out of it.

  function TextLength(actions: seq<EmulatorAction>): nat {
    if actions == [] then 0
    else (if actions[0].Text? then |actions[0].text| else 0) + TextLength(actions[1..])
  }

  function TextRawLength(pieces: seq<Piece>): nat {
    if pieces == [] then 0
    else (if pieces[0].TextLine? then |pieces[0].raw| else 0) + TextRawLength(pieces[1..])
  }

  lemma {:induction false} TextLengthConcat(a: seq<EmulatorAction>, b: seq<EmulatorAction>)
    ensures TextLength(a + b) == TextLength(a) + TextLength(b)
  {
    if a == [] {
      assert a + b == b;
    } else {
      assert (a + b)[1..] == a[1..] + b;
      TextLengthConcat(a[1..], b);
    }
  }

  lemma {:induction false} TextLengthOfActions(md: Markdown, pieces: seq<Piece>)
    ensures TextLength(Actions(md, pieces)) == TextRawLength(pieces)
  {
    if pieces != [] {
      TextLengthConcat(PieceActions(md, pieces[0]), Actions(md, pieces[1..]));
      TextLengthOfActions(md, pieces[1..]);
      assert TextLength(PieceActions(md, pieces[0])) == if pieces[0].TextLine? then |pieces[0].raw| else 0;
    }
  }

  lemma {:induction false} TextRawLengthIsAtMost(pieces: seq<Piece>)
    ensures TextRawLength(pieces) <= |Raw(pieces)|
    ensures AllText(pieces) ==> TextRawLength(pieces) == |Raw(pieces)|
    ensures (exists i | 0 <= i < |pieces| :: !pieces[i].TextLine? && pieces[i].raw != "") ==>
              TextRawLength(pieces) < |Raw(pieces)|
  {
    if pieces != [] {
      TextRawLengthIsAtMost(pieces[1..]);
      forall i | 0 < i < |pieces| ensures pieces[i] == pieces[1..][i - 1] {}
    }
  }

  lemma {:induction false} DrainedPiecesAreNotEmpty(step: Stepper, cfg: Config, i: nat)
    requires Keeps(step) && cfg.Consistent() && i < |Drain(step, cfg).1|
    ensures Drain(step, cfg).1[i].raw != ""
    decreases |cfg.buffer|
  {
    var (next, piece) := step(cfg).value;
    if i > 0 {
      DrainedPiecesAreNotEmpty(step, next, i - 1);
      assert Drain(step, cfg).1 == [piece] + Drain(step, next).1;
    }
  }

  lemma FlushOfPlainText(g: Grammar, cfg: Config)
    requires cfg.mode.Normal? && cfg == cfg.Disable()
    ensures AllText(Flush(g, cfg))
  {
    SteppingFailsClosed(g);
    ExtendTwice(cfg, "", "");
    DrainWithoutContext(Stepping(g), cfg);
  }

  /** Once the context is gone, outside an execute block, everything that follows is text. */
  lemma WithoutContextEverythingIsText(g: Grammar, cfg: Config, chunks: seq<Text>)
    requires cfg.mode.Normal? && cfg == cfg.Disable() && Drained(Stepping(g), cfg)
    ensures var (last, pieces) := FeedAll(Stepping(g), cfg, chunks);
            AllText(pieces + Flush(g, last))
  {
    SteppingExtendsAndKeeps(g);
    SteppingFailsClosed(g);
    FeedAllWithoutContext(Stepping(g), cfg, chunks);
    DrainWithoutContext(Stepping(g), cfg.Extend(Flatten(chunks)));
    FlushOfPlainText(g, FeedAll(Stepping(g), cfg, chunks).0);
  }

  /** A text longer than 256 KiB, given as one chunk, comes back as text. */
  lemma OneLongChunkIsText(g: Grammar, text: Text)
    requires |text| > MAX_MARKDOWN_CONTEXT_BYTES
    ensures AllText(StreamPieces(g, [text]))
  {
    var step := Stepping(g);
    FlattenOne(text);
    StreamIsBatch(g, [text]);
    SteppingFailsClosed(g);
    BatchWithoutContext(step, INITIAL, text);
    FlushOfPlainText(g, Batch(step, INITIAL, text, 0).0);
  }

  lemma BatchWithoutContext(step: Stepper, cfg: Config, text: Text)
    requires FailsClosed(step) && cfg.mode.Normal? && Drained(step, cfg) && text != ""
    ensures var (last, pieces) := Batch(step, cfg, text, 0);
            AllText(pieces) && last.mode.Normal? && last == last.Disable()
  {
    assert text[..0] == "" && text[0..] == text;
    ExtendTwice(cfg, "", "");
    DrainWithoutContext(step, cfg.Extend(text).Disable());
    var pieces := Drain(step, cfg.Extend(text).Disable()).1;
    assert [] + pieces == pieces;
  }

  /** The pieces recognised while the context lasts. */
  function PiecesBeforeTheCut(g: Grammar, chunks: seq<Text>): seq<Piece> {
    Drain(Stepping(g), INITIAL.Extend(Flatten(chunks)[..Cut(0, chunks)])).1
  }

  /** Beyond 256 KiB, chunks change the actions exactly when something was recognised before the cut. */
  lemma ChunksMatterExactlyWhenSomethingWasRecognised(g: Grammar, chunks: seq<Text>)
    requires |Flatten(chunks)| > MAX_MARKDOWN_CONTEXT_BYTES
    ensures StreamActions(g, chunks) == StreamActions(g, [Flatten(chunks)])
       <==> AllText(PiecesBeforeTheCut(g, chunks))
  {
    var text := Flatten(chunks);
    if AllText(PiecesBeforeTheCut(g, chunks)) {
      PlainPrefixMakesChunksIrrelevant(g, chunks);
    } else {
      SomethingRecognisedShortensTheText(g, chunks);
      OneLongChunkIsText(g, text);
      FlattenOne(text);
      NothingLostNothingDoubled(g, [text]);
      TextRawLengthIsAtMost(StreamPieces(g, [text]));
      TextLengthOfActions(g.markdown, StreamPieces(g, chunks));
      TextLengthOfActions(g.markdown, StreamPieces(g, [text]));
    }
  }

  lemma {:induction false} CutOfALongText(total: nat, chunks: seq<Text>)
    requires total + |Flatten(chunks)| > MAX_MARKDOWN_CONTEXT_BYTES >= total
    ensures Cut(total, chunks) < total + |Flatten(chunks)|
    decreases |chunks|
  {
    if chunks != [] && total + |chunks[0]| <= MAX_MARKDOWN_CONTEXT_BYTES {
      CutOfALongText(total + |chunks[0]|, chunks[1..]);
    }
  }

  lemma PlainPrefixMakesChunksIrrelevant(g: Grammar, chunks: seq<Text>)
    requires |Flatten(chunks)| > MAX_MARKDOWN_CONTEXT_BYTES
    requires AllText(PiecesBeforeTheCut(g, chunks))
    ensures StreamPieces(g, chunks) == StreamPieces(g, [Flatten(chunks)])
  {
    var text := Flatten(chunks);
    FlattenOne(text);
    StreamIsBatch(g, chunks);
    StreamIsBatch(g, [text]);
    CutOfALongText(0, chunks);
    SteppingExtendsAndKeeps(g);
    SteppingFailsClosed(g);
    BatchOfPlainText(Stepping(g), INITIAL, text, Cut(0, chunks));
  }

  lemma SomethingRecognisedShortensTheText(g: Grammar, chunks: seq<Text>)
    requires |Flatten(chunks)| > MAX_MARKDOWN_CONTEXT_BYTES
    requires !AllText(PiecesBeforeTheCut(g, chunks))
    ensures TextRawLength(StreamPieces(g, chunks)) < |Flatten(chunks)|
  {
    var first := PiecesBeforeTheCut(g, chunks);
    var all := StreamPieces(g, chunks);
    StreamIsBatch(g, chunks);
    CutOfALongText(0, chunks);
    SteppingExtendsAndKeeps(g);
    var i: nat :| i < |first| && !first[i].TextLine?;
    DrainedPiecesAreNotEmpty(Stepping(g), INITIAL.Extend(Flatten(chunks)[..Cut(0, chunks)]), i);
    assert first <= all;
    assert all[i] == first[i];
    TextRawLengthIsAtMost(all);
    NothingLostNothingDoubled(g, chunks);
  }

  // ---------------------------------------------------------------- a text the limit does not treat alike

  function Padding(): Text { seq(MAX_MARKDOWN_CONTEXT_BYTES, _ => 'a') }

  function PermissiveMarkdown(): Markdown {
    Markdown((text, start) => true, (text, start) => true, (text: Text) => text)
  }

  /** `$ls` on a line of its own, then 256 KiB of padding: in two chunks the command is run, in one it is text. */
  lemma LongTextsDependOnTheirChunks()
    ensures StreamActions(EmulatorGrammar(PermissiveMarkdown(), false), ["$ls\n", Padding()])
         != StreamActions(EmulatorGrammar(PermissiveMarkdown(), false), ["$ls\n" + Padding()])
  {
    var g := EmulatorGrammar(PermissiveMarkdown(), false);
    var pad := Padding();
    var chunks := ["$ls\n", pad];
    var text := "$ls\n" + pad;
    assert chunks[1..] == [pad];
    FlattenOne(pad);
    assert Flatten(chunks) == text;
    assert Cut(0, chunks) == 4;
    assert text[..4] == "$ls\n";
    CommandIsRecognised(g, INITIAL.Extend("$ls\n"));
    ChunksMatterExactlyWhenSomethingWasRecognised(g, chunks);
  }

  lemma CommandIsRecognised(g: Grammar, cfg: Config)
    requires g == EmulatorGrammar(PermissiveMarkdown(), false)
    requires cfg.buffer == "$ls\n" && cfg.mode.Normal? && cfg.context
    requires |cfg.done| + 4 <= cfg.budget
    ensures !AllText(Drain(Stepping(g), cfg).1)
  {
    var step := Stepping(g);
    LineEndIsUnique(cfg.buffer, 0, 3);
    assert step(cfg) == Some(LineStep(g, cfg, 3));
    var (next, piece) := LineStep(g, cfg, 3);
    assert "$" <= StripCr(cfg.buffer[..3]);
    assert piece.ShellLine?;
    assert Drain(step, cfg).1[0] == piece;
  }
}

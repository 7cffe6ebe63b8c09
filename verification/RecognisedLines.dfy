/** Which lines of a text the streaming parser takes for more than text, said of the text alone. */
module RecognisedLines {
  import opened ToolEmulation
  import opened ChunkInvariance
  import opened Wrappers

  /** In code mode, a line with the shape of an execute fence. */
  predicate LooksLikeFence(g: Grammar, line: Text) { g.codeMode && g.executeFenceLen(line).Some? }

  predicate LooksLikeCommand(line: Text) { line != "" && line[0] == '$' }

  /** The bytes the Markdown library is asked to parse for a line that ends before `end`: the text up
      to there, once for each of the two looks. */
  function AskedFor(g: Grammar, line: Text, end: nat): nat {
    (if LooksLikeFence(g, line) then end else 0) + (if LooksLikeCommand(line) then end else 0)
  }

  /** The bytes asked for by the complete lines from `from` up to `at`. */
  function Asked(g: Grammar, text: Text, from: nat, at: nat): nat
    requires from <= |text|
    decreases |text| - from
  {
    var e := LineEnd(text, from);
    if from >= at || e == |text| then 0 else AskedFor(g, text[from..e], e + 1) + Asked(g, text, e + 1, at)
  }

  /** The complete line at `start` is a top-level execute fence in code mode, or a `$` line at a
      top-level paragraph, and the parse budget lasts for asking. */
  predicate Recognised(g: Grammar, text: Text, start: nat)
    requires start <= |text|
  {
    var e := LineEnd(text, start);
    e < |text| && RecognisedLine(g, text[..e + 1], start, text[start..e], Asked(g, text, 0, start))
  }

  predicate RecognisedLine(g: Grammar, context: Text, start: nat, line: Text, asked: nat) {
    || (LooksLikeFence(g, line) && asked + |context| <= MAX_MARKDOWN_PARSE_BYTES
        && g.markdown.topLevelExecuteFence(context, start))
    || (LooksLikeCommand(line) && asked + AskedFor(g, line, |context|) <= MAX_MARKDOWN_PARSE_BYTES
        && g.markdown.topLevelParagraphLine(context, start))
  }

  ghost predicate NoneRecognised(g: Grammar, text: Text, from: nat) {
    forall start: nat | from <= start <= |text| && IsLineStart(text, start) :: !Recognised(g, text, start)
  }

  // ---------------------------------------------------------------- the parser on plain text

  /** The parser after it has taken `text[..start]` for text. */
  function PlainConfig(text: Text, start: nat, asked: nat): Config
    requires start <= |text|
  {
    Config(text[..start], text[start..], Normal, asked <= MAX_MARKDOWN_PARSE_BYTES,
           if asked <= MAX_MARKDOWN_PARSE_BYTES then MAX_MARKDOWN_PARSE_BYTES - asked else 0)
  }

  /** The parser after it has taken its first line for text, having asked for `asked` bytes in all. */
  function AfterText(cfg: Config, e: nat, asked: nat): Config
    requires e < |cfg.buffer|
  {
    Config(cfg.done + cfg.buffer[..e + 1], cfg.buffer[e + 1..], Normal, asked <= MAX_MARKDOWN_PARSE_BYTES,
           if asked <= MAX_MARKDOWN_PARSE_BYTES then MAX_MARKDOWN_PARSE_BYTES - asked else 0)
  }

  /** A line is taken for text exactly if it is not recognised, and then only its bytes are asked for. */
  ghost predicate TakenForText(r: (Config, Piece), recognised: bool, after: Config) {
    (r.1.TextLine? <==> !recognised) && (r.1.TextLine? ==> r.0 == after)
  }

  lemma LineStepOfPlainText(g: Grammar, cfg: Config, e: nat, asked: nat)
    requires e < |cfg.buffer| && cfg.mode.Normal?
    requires cfg.context <==> asked <= MAX_MARKDOWN_PARSE_BYTES
    requires cfg.budget == if cfg.context then MAX_MARKDOWN_PARSE_BYTES - asked else 0
    ensures var line, context := cfg.buffer[..e], cfg.done + cfg.buffer[..e + 1];
            TakenForText(LineStep(g, cfg, e), RecognisedLine(g, context, |cfg.done|, line, asked),
                         AfterText(cfg, e, asked + AskedFor(g, line, |context|)))
  {
    var context := cfg.done + cfg.buffer[..e + 1];
    assert (context + cfg.buffer[e + 1..])[..|context|] == context;
    assert LooksLikeCommand(cfg.buffer[..e]) <==> "$" <= StripCr(cfg.buffer[..e]);
  }

  lemma LinesOfPlainConfig(text: Text, start: nat, asked: nat, e: nat, after: nat)
    requires start <= |text| && e == LineEnd(text, start) < |text|
    ensures var cfg := PlainConfig(text, start, asked);
            && LineEnd(cfg.buffer, 0) == e - start < |cfg.buffer| && cfg.buffer[..e - start] == text[start..e]
            && cfg.done + cfg.buffer[..e - start + 1] == text[..e + 1]
            && AfterText(cfg, e - start, after) == PlainConfig(text, e + 1, after)
  {
    var cfg := PlainConfig(text, start, asked);
    LineEndIsUnique(cfg.buffer, 0, e - start);
    assert cfg.buffer[e - start + 1..] == text[e + 1..];
  }

  lemma StepOfPlainText(g: Grammar, text: Text, start: nat, asked: nat, e: nat) returns (r: (Config, Piece))
    requires start <= |text| && e == LineEnd(text, start) < |text|
    ensures Stepping(g)(PlainConfig(text, start, asked)) == Some(r)
    ensures TakenForText(r, RecognisedLine(g, text[..e + 1], start, text[start..e], asked),
                         PlainConfig(text, e + 1, asked + AskedFor(g, text[start..e], e + 1)))
  {
    var cfg := PlainConfig(text, start, asked);
    LinesOfPlainConfig(text, start, asked, e, asked + AskedFor(g, text[start..e], e + 1));
    LineStepOfPlainText(g, cfg, e - start, asked);
    r := LineStep(g, cfg, e - start);
  }

  lemma {:induction false} AskedGrows(g: Grammar, text: Text, from: nat, at: nat)
    requires from <= at <= |text| && IsLineStart(text, from) && IsLineStart(text, at) && LineEnd(text, at) < |text|
    ensures var e := LineEnd(text, at);
            Asked(g, text, from, e + 1) == Asked(g, text, from, at) + AskedFor(g, text[at..e], e + 1)
    decreases |text| - from
  {
    if from < at {
      LineStartsAreAtLineEnds(text, from, at);
      AskedGrows(g, text, LineEnd(text, from) + 1, at);
    }
  }

  lemma FirstIsText(step: Stepper, cfg: Config, r: (Config, Piece))
    requires step(cfg) == Some(r)
    ensures AllText(Drain(step, cfg).1) <==> r.1.TextLine? && AllText(Drain(step, r.0).1)
  {
    var rest := Drain(step, r.0).1;
    assert Drain(step, cfg).1 == [r.1] + rest;
    if AllText([r.1] + rest) {
      assert ([r.1] + rest)[0] == r.1;
      assert forall i | 0 <= i < |rest| :: rest[i] == ([r.1] + rest)[i + 1];
    }
  }

  /** The parser, at the line at `start`: `at(start)` is its state if all before was taken for text, and
      `plain(start)` says that no line from there on is recognised. */
  ghost predicate ScansLine(step: Stepper, text: Text, at: nat -> Config, plain: nat -> bool, start: nat)
    requires start <= |text|
  {
    var e, r := LineEnd(text, start), step(at(start));
    && (e == |text| ==> r.None? && plain(start))
    && (e < |text| ==>
          && r.Some? && (plain(start) <==> r.value.1.TextLine? && plain(e + 1))
          && (r.value.1.TextLine? ==> r.value.0 == at(e + 1)))
  }

  ghost predicate ScansLines(step: Stepper, text: Text, at: nat -> Config, plain: nat -> bool) {
    forall start: nat | start <= |text| && IsLineStart(text, start) :: ScansLine(step, text, at, plain, start)
  }

  lemma {:induction false} EveryLineIsScanned(
    step: Stepper, text: Text, at: nat -> Config, plain: nat -> bool, start: nat)
    requires ScansLines(step, text, at, plain) && start <= |text| && IsLineStart(text, start)
    ensures AllText(Drain(step, at(start)).1) <==> plain(start)
    decreases |text| - start
  {
    assert ScansLine(step, text, at, plain, start);
    var e, r := LineEnd(text, start), step(at(start));
    if r.Some? {
      FirstIsText(step, at(start), r.value);
      EveryLineIsScanned(step, text, at, plain, e + 1);
    }
  }

  function PlainAt(g: Grammar, text: Text): nat -> Config {
    (start: nat) => PlainConfig(text, if start <= |text| then start else 0, Asked(g, text, 0, start))
  }

  ghost function PlainBehind(g: Grammar, text: Text): nat -> bool { (start: nat) => NoneRecognised(g, text, start) }

  /** The step on plain text: it waits for a complete line, and takes it for text or recognises it. */
  ghost predicate PlainStep(r: Option<(Config, Piece)>, g: Grammar, text: Text, start: nat, asked: nat)
    requires start <= |text|
  {
    var e := LineEnd(text, start);
    && (e == |text| ==> r.None?)
    && (e < |text| ==>
          && r.Some?
          && TakenForText(r.value, RecognisedLine(g, text[..e + 1], start, text[start..e], asked),
                          PlainConfig(text, e + 1, asked + AskedFor(g, text[start..e], e + 1))))
  }

  lemma SteppingStepsPlainly(g: Grammar, text: Text, start: nat, asked: nat)
    requires start <= |text|
    ensures PlainStep(Stepping(g)(PlainConfig(text, start, asked)), g, text, start, asked)
  {
    var e, cfg := LineEnd(text, start), PlainConfig(text, start, asked);
    if e == |text| {
      assert LineEnd(cfg.buffer, 0) == |cfg.buffer|;
    } else {
      var r := StepOfPlainText(g, text, start, asked, e);
    }
  }

  lemma PlainStepScans(
    step: Stepper, g: Grammar, text: Text, start: nat, asked: nat, at: nat -> Config, plain: nat -> bool)
    requires start <= |text| && PlainStep(step(at(start)), g, text, start, asked)
    requires LineEnd(text, start) == |text| ==> plain(start)
    requires LineEnd(text, start) < |text| ==> PlainGoesOn(g, text, start, LineEnd(text, start), asked, at, plain)
    ensures ScansLine(step, text, at, plain, start)
  {}

  ghost predicate PlainGoesOn(
    g: Grammar, text: Text, start: nat, e: nat, asked: nat, at: nat -> Config, plain: nat -> bool)
    requires start <= e < |text|
  {
    && at(e + 1) == PlainConfig(text, e + 1, asked + AskedFor(g, text[start..e], e + 1))
    && (plain(start) <==> !RecognisedLine(g, text[..e + 1], start, text[start..e], asked) && plain(e + 1))
  }

  lemma NextPlainAt(g: Grammar, text: Text, start: nat, e: nat)
    requires start <= |text| && IsLineStart(text, start) && e == LineEnd(text, start) < |text|
    ensures PlainAt(g, text)(e + 1)
         == PlainConfig(text, e + 1, Asked(g, text, 0, start) + AskedFor(g, text[start..e], e + 1))
  {
    AskedGrows(g, text, 0, start);
  }

  lemma NextPlainBehind(g: Grammar, text: Text, start: nat, e: nat)
    requires start <= |text| && IsLineStart(text, start) && e == LineEnd(text, start) < |text|
    ensures PlainBehind(g, text)(start)
       <==> !RecognisedLine(g, text[..e + 1], start, text[start..e], Asked(g, text, 0, start))
            && PlainBehind(g, text)(e + 1)
  {
    FirstOrLater(g, text, start, e);
  }

  lemma GoesOn(g: Grammar, text: Text, start: nat, e: nat)
    requires start <= |text| && IsLineStart(text, start) && e == LineEnd(text, start) < |text|
    ensures PlainGoesOn(g, text, start, e, Asked(g, text, 0, start), PlainAt(g, text), PlainBehind(g, text))
  {
    NextPlainAt(g, text, start, e);
    NextPlainBehind(g, text, start, e);
  }

  lemma SteppingScansLine(g: Grammar, text: Text, start: nat)
    requires start <= |text| && IsLineStart(text, start)
    ensures ScansLine(Stepping(g), text, PlainAt(g, text), PlainBehind(g, text), start)
  {
    var e, asked := LineEnd(text, start), Asked(g, text, 0, start);
    SteppingStepsPlainly(g, text, start, asked);
    if e == |text| {
      FirstOrLater(g, text, start, e);
    } else {
      GoesOn(g, text, start, e);
    }
    PlainStepScans(Stepping(g), g, text, start, asked, PlainAt(g, text), PlainBehind(g, text));
  }

  /** No line from `start` on is recognised if that one is not and none from the next line on is. */
  lemma FirstOrLater(g: Grammar, text: Text, start: nat, e: nat)
    requires start <= |text| && IsLineStart(text, start) && e == LineEnd(text, start)
    ensures NoneRecognised(g, text, start)
       <==> e == |text| || (!Recognised(g, text, start) && NoneRecognised(g, text, e + 1))
  {
    forall i: nat | start < i <= |text| && IsLineStart(text, i) ensures LineEnd(text, start) < i {
      LineStartsAreAtLineEnds(text, start, i);
    }
  }

  /** A text is taken for text throughout if and only if none of its complete lines is recognised. */
  lemma PlainExactlyWhenNoneRecognised(g: Grammar, text: Text)
    ensures AllText(Drain(Stepping(g), INITIAL.Extend(text)).1) <==> NoneRecognised(g, text, 0)
  {
    assert text[..0] == "" && text[0..] == text && "" + text == text;
    assert INITIAL.Extend(text) == PlainConfig(text, 0, 0);
    forall start: nat | start <= |text| && IsLineStart(text, start)
      ensures ScansLine(Stepping(g), text, PlainAt(g, text), PlainBehind(g, text), start)
    {
      SteppingScansLine(g, text, start);
    }
    EveryLineIsScanned(Stepping(g), text, PlainAt(g, text), PlainBehind(g, text), 0);
  }

  /** Beyond 256 KiB, the actions are those of one chunk if and only if no complete line before the
      cut is a top-level `$` line or, in code mode, a top-level execute fence, within the budget. */
  lemma ChunksMatterExactlyWhenALineIsRecognised(g: Grammar, chunks: seq<Text>)
    requires |Flatten(chunks)| > MAX_MARKDOWN_CONTEXT_BYTES
    ensures StreamActions(g, chunks) == StreamActions(g, [Flatten(chunks)])
       <==> NoneRecognised(g, Flatten(chunks)[..Cut(0, chunks)], 0)
  {
    ChunksMatterExactlyWhenSomethingWasRecognised(g, chunks);
    PlainExactlyWhenNoneRecognised(g, Flatten(chunks)[..Cut(0, chunks)]);
  }
}

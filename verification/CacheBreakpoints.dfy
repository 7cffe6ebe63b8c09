/** Where prompt-cache breakpoints go in a chat payload. */
module CacheBreakpoints {
  import opened FiniteSets
  import opened JsonRepair
  import opened Wrappers

  /** A content block: its type, its text when it is a text block, and its `cache_control` mark.
      A block that is no object, or a text block without text, is an `OtherBlock`. */
  datatype BlockKind = TextBlock(text: string) | ImageBlock | OtherBlock

  datatype Block = Block(kind: BlockKind, marked: bool)

  datatype Content = NoContent | Plain(text: string) | Blocks(blocks: seq<Block>)

  datatype Message = Message(isSystem: bool, content: Content, toolCalls: nat, hasReasoning: bool)

  datatype Tool = Tool(hasFunction: bool, marked: bool)

  const LOOKBACK_BLOCKS: nat := 20

  // ---------------------------------------------------------------- what the anchors depend on

  /** All that the choice of anchors sees of a message. */
  datatype Shape = Shape(cacheable: bool, blocks: nat, isSystem: bool)

  predicate IsBlank(text: string) {
    forall i | 0 <= i < |text| :: IsWhitespace(text[i])
  }

  /** A blank text is one that trims to nothing. */
  lemma BlankTextsTrimToNothing(text: string)
    ensures IsBlank(text) <==> Trim(text) == ""
  {
    var rest := TrimStart(text);
    assert rest != "" ==> rest[0] == text[|text| - |rest|];
    assert rest != "" ==> TrimEnd(rest) != "";
  }

  function BlockCount(m: Message): nat {
    (match m.content case Blocks(blocks) => |blocks| case Plain(_) => 1 case NoContent => 0)
    + m.toolCalls + if m.hasReasoning then 1 else 0
  }

  /** Whether a breakpoint can sit on the last block of a message. */
  predicate HasCacheableContent(m: Message) {
    match m.content
    case Plain(text) => !IsBlank(text)
    case Blocks(blocks) =>
      blocks != [] && (match blocks[|blocks| - 1].kind
                       case TextBlock(text) => !IsBlank(text)
                       case ImageBlock => true
                       case OtherBlock => false)
    case NoContent => false
  }

  function ShapeOf(m: Message): Shape {
    Shape(HasCacheableContent(m), BlockCount(m), m.isSystem)
  }

  function Shapes(messages: seq<Message>): (r: seq<Shape>)
    ensures |r| == |messages|
  {
    seq(|messages|, i requires 0 <= i < |messages| => ShapeOf(messages[i]))
  }

  function BlocksBefore(shapes: seq<Shape>, n: nat): nat
    requires n <= |shapes|
  {
    if n == 0 then 0 else BlocksBefore(shapes, n - 1) + shapes[n - 1].blocks
  }

  /** The blocks through the end of message `i`. */
  function Offset(shapes: seq<Shape>, i: nat): nat
    requires i < |shapes|
  {
    BlocksBefore(shapes, i + 1)
  }

  predicate AreOffsets(offsets: seq<nat>, shapes: seq<Shape>) {
    |offsets| <= |shapes| && forall i | 0 <= i < |offsets| :: offsets[i] == Offset(shapes, i)
  }

  method CumulativeBlockOffsets(messages: seq<Message>) returns (offsets: seq<nat>)
    ensures |offsets| == |messages| && AreOffsets(offsets, Shapes(messages))
  {
    offsets := [];
    ghost var shapes := Shapes(messages);
    var total: nat := 0;
    for i := 0 to |messages|
      invariant |offsets| == i && total == BlocksBefore(shapes, i)
      invariant AreOffsets(offsets, shapes)
    {
      total := total + BlockCount(messages[i]);
      assert total == Offset(shapes, i);
      offsets := offsets + [total];
    }
  }

  /** `mark_last_content_block`. */
  function Marked(m: Message): Message {
    if !HasCacheableContent(m) then m
    else match m.content
      case Plain(text) => m.(content := Blocks([Block(TextBlock(text), true)]))
      case Blocks(blocks) => m.(content := Blocks(blocks[|blocks| - 1 := blocks[|blocks| - 1].(marked := true)]))
      case NoContent => m
  }

  // ---------------------------------------------------------------- the anchors

  predicate FitsBehind(shapes: seq<Shape>, i: nat, target: nat)
    requires i < |shapes|
  {
    shapes[i].cacheable && Offset(shapes, i) <= target
  }

  /** The last cacheable message before `limit` with an offset of at most `target`. */
  function LastAnchor(shapes: seq<Shape>, limit: nat, target: nat): (r: Option<nat>)
    requires limit <= |shapes|
    ensures r.Some? ==> r.value < limit && FitsBehind(shapes, r.value, target)
    ensures forall i | (if r.Some? then r.value else -1) < i < limit :: !FitsBehind(shapes, i, target)
  {
    if limit == 0 then None
    else if FitsBehind(shapes, limit - 1, target) then Some(limit - 1)
    else LastAnchor(shapes, limit - 1, target)
  }

  function LastCacheable(shapes: seq<Shape>, limit: nat): (r: Option<nat>)
    requires limit <= |shapes|
    ensures r.Some? ==> r.value < limit && shapes[r.value].cacheable
    ensures forall i | (if r.Some? then r.value else -1) < i < limit :: !shapes[i].cacheable
  {
    if limit == 0 then None
    else if shapes[limit - 1].cacheable then Some(limit - 1)
    else LastCacheable(shapes, limit - 1)
  }

  function FirstSystem(shapes: seq<Shape>, from: nat): (r: Option<nat>)
    requires from <= |shapes|
    ensures r.Some? ==> from <= r.value < |shapes| && shapes[r.value].isSystem
    ensures forall i | from <= i < (if r.Some? then r.value else |shapes|) :: !shapes[i].isSystem
    decreases |shapes| - from
  {
    if from == |shapes| then None
    else if shapes[from].isSystem then Some(from)
    else FirstSystem(shapes, from + 1)
  }

  function Primary(shapes: seq<Shape>): (r: Option<nat>)
    ensures r.Some? ==> r.value < |shapes| && shapes[r.value].cacheable
    ensures forall i | (if r.Some? then r.value else -1) < i < |shapes| :: !shapes[i].cacheable
  {
    LastCacheable(shapes, |shapes|)
  }

  function Secondary(shapes: seq<Shape>): Option<nat> {
    var primary := Primary(shapes);
    if primary.None? then None
    else LastAnchor(shapes, primary.value, SaturatingSub(Offset(shapes, primary.value), LOOKBACK_BLOCKS))
  }

  function One(i: Option<nat>): set<nat> { if i.Some? then {i.value} else {} }

  /** The messages that may get a breakpoint. */
  function Anchors(shapes: seq<Shape>): set<nat> {
    One(Primary(shapes)) + One(Secondary(shapes)) + One(FirstSystem(shapes, 0))
  }

  function MarkedAt(messages: seq<Message>, anchors: set<nat>): (r: seq<Message>)
    ensures |r| == |messages|
  {
    seq(|messages|, i requires 0 <= i < |messages| => if i in anchors then Marked(messages[i]) else messages[i])
  }

  function LastToolMarked(tools: seq<Tool>): seq<Tool> {
    if tools == [] || !tools[|tools| - 1].hasFunction then tools
    else tools[|tools| - 1 := tools[|tools| - 1].(marked := true)]
  }

  // ---------------------------------------------------------------- the searches

  method FindPrimary(messages: seq<Message>) returns (r: Option<nat>)
    ensures r == Primary(Shapes(messages))
  {
    ghost var shapes := Shapes(messages);
    var n := |messages|;
    while n > 0
      invariant 0 <= n <= |messages|
      invariant Primary(shapes) == LastCacheable(shapes, n)
    {
      if HasCacheableContent(messages[n - 1]) {
        return Some(n - 1);
      }
      n := n - 1;
    }
    return None;
  }

  method FindSecondary(messages: seq<Message>, offsets: seq<nat>, primary: nat) returns (r: Option<nat>)
    requires primary < |messages| == |offsets| && AreOffsets(offsets, Shapes(messages))
    requires Primary(Shapes(messages)) == Some(primary)
    ensures r == Secondary(Shapes(messages))
  {
    ghost var shapes := Shapes(messages);
    var target := SaturatingSub(offsets[primary], LOOKBACK_BLOCKS);
    var n := primary;
    while n > 0
      invariant 0 <= n <= primary
      invariant LastAnchor(shapes, primary, target) == LastAnchor(shapes, n, target)
    {
      if offsets[n - 1] <= target && HasCacheableContent(messages[n - 1]) {
        assert FitsBehind(shapes, n - 1, target);
        return Some(n - 1);
      }
      n := n - 1;
    }
    return None;
  }

  method FindSystem(messages: seq<Message>) returns (r: Option<nat>)
    ensures r == FirstSystem(Shapes(messages), 0)
  {
    ghost var shapes := Shapes(messages);
    for i := 0 to |messages|
      invariant FirstSystem(shapes, 0) == FirstSystem(shapes, i)
    {
      if messages[i].isSystem {
        return Some(i);
      }
    }
    return None;
  }

  // ---------------------------------------------------------------- marking in place

  /** A payload; a missing or ill-typed list of messages or tools is empty here. */
  class Payload {
    var messages: seq<Message>
    var tools: seq<Tool>

    constructor (messages: seq<Message>, tools: seq<Tool>)
      ensures this.messages == messages && this.tools == tools
    {
      this.messages := messages;
      this.tools := tools;
    }

    method MarkLastContentBlock(index: nat)
      requires index < |messages|
      modifies this`messages
      ensures messages == old(messages)[index := Marked(old(messages)[index])]
    {
      var m := messages[index];
      if !HasCacheableContent(m) {
        return;
      }
      if m.content.Plain? {
        messages := messages[index := m.(content := Blocks([Block(TextBlock(m.content.text), true)]))];
      } else {
        var blocks := m.content.blocks;
        var last := |blocks| - 1;
        messages := messages[index := m.(content := Blocks(blocks[last := blocks[last].(marked := true)]))];
      }
    }

    /** Marks one more anchor. */
    method MarkAnchor(anchor: Option<nat>, ghost before: seq<Message>, ghost anchors: set<nat>)
      requires messages == MarkedAt(before, anchors)
      requires anchor.Some? ==> anchor.value < |before|
      modifies this`messages
      ensures messages == MarkedAt(before, anchors + One(anchor))
    {
      if anchor.Some? {
        MarkingTwiceIsMarkingOnce(before[anchor.value]);
        MarkLastContentBlock(anchor.value);
      }
      assert messages == MarkedAt(before, anchors + One(anchor));
    }

    /** Marks the anchors of the messages. */
    method MarkMessages()
      modifies this`messages
      ensures messages == MarkedAt(old(messages), Anchors(Shapes(old(messages))))
    {
      ghost var before := messages;
      assert messages == MarkedAt(before, {});
      var offsets := CumulativeBlockOffsets(messages);
      var primary := FindPrimary(messages);
      var secondary := None;
      if primary.Some? {
        secondary := FindSecondary(messages, offsets, primary.value);
      }
      MarkAnchor(primary, before, {});
      assert {} + One(primary) == One(primary);
      MarkAnchor(secondary, before, One(primary));
      MarkingKeepsShapes(before, One(primary) + One(secondary));
      var system := FindSystem(messages);
      MarkAnchor(system, before, One(primary) + One(secondary));
    }

    method ApplyChatPayloadBreakpoints()
      modifies this
      ensures messages == MarkedAt(old(messages), Anchors(Shapes(old(messages))))
      ensures tools == LastToolMarked(old(tools))
      ensures GetsMarks(old(messages), messages) && LastGetsMark(old(tools), tools)
    {
      AnchorsGetMarks(messages);
      LastToolGetsMark(tools);
      MarkMessages();
      MarkLastTool();
    }

    method MarkLastTool()
      modifies this`tools
      ensures tools == LastToolMarked(old(tools))
    {
      if tools != [] {
        var last := |tools| - 1;
        if tools[last].hasFunction {
          tools := tools[last := tools[last].(marked := true)];
        }
      }
    }
  }

  // ---------------------------------------------------------------- what marking keeps

  lemma MarkingTwiceIsMarkingOnce(m: Message)
    ensures Marked(Marked(m)) == Marked(m) && ShapeOf(Marked(m)) == ShapeOf(m)
  {}

  /** What the blocks of a message hold, a plain text counting as one block. */
  function Kinds(m: Message): seq<BlockKind> {
    match m.content
    case Plain(text) => [TextBlock(text)]
    case Blocks(blocks) => seq(|blocks|, i requires 0 <= i < |blocks| => blocks[i].kind)
    case NoContent => []
  }

  function Flags(m: Message): seq<bool> {
    match m.content
    case Plain(text) => [false]
    case Blocks(blocks) => seq(|blocks|, i requires 0 <= i < |blocks| => blocks[i].marked)
    case NoContent => []
  }

  /** Marking keeps what every block holds and adds one mark, to the last block, if it can hold one. */
  lemma MarkingOnlyMarksTheLastBlock(m: Message)
    ensures Kinds(Marked(m)) == Kinds(m)
    ensures !HasCacheableContent(m) ==> Flags(Marked(m)) == Flags(m)
    ensures HasCacheableContent(m) ==> Flags(m) != [] && Flags(Marked(m)) == Flags(m)[..|Flags(m)| - 1] + [true]
  {
    if HasCacheableContent(m) && m.content.Plain? {
      assert Flags(m)[..0] == [];
    }
  }

  lemma MarkingKeepsShapes(messages: seq<Message>, anchors: set<nat>)
    ensures Shapes(MarkedAt(messages, anchors)) == Shapes(messages)
  {
    forall i | 0 <= i < |messages| ensures ShapeOf(MarkedAt(messages, anchors)[i]) == ShapeOf(messages[i]) {
      MarkingTwiceIsMarkingOnce(messages[i]);
    }
  }

  /** Applying the breakpoints to a payload that has them changes nothing. */
  lemma ApplyingTwiceIsApplyingOnce(messages: seq<Message>, tools: seq<Tool>)
    ensures var once := MarkedAt(messages, Anchors(Shapes(messages))); MarkedAt(once, Anchors(Shapes(once))) == once
    ensures LastToolMarked(LastToolMarked(tools)) == LastToolMarked(tools)
  {
    var anchors := Anchors(Shapes(messages));
    MarkingKeepsShapes(messages, anchors);
    RemarkingTheAnchors(messages, anchors);
  }

  lemma RemarkingTheAnchors(messages: seq<Message>, anchors: set<nat>)
    ensures MarkedAt(MarkedAt(messages, anchors), anchors) == MarkedAt(messages, anchors)
  {
    forall i | 0 <= i < |messages| ensures Marked(Marked(messages[i])) == Marked(messages[i]) {
      MarkingTwiceIsMarkingOnce(messages[i]);
    }
  }

  // ---------------------------------------------------------------- the anchors are the right ones

  /** Content blocks, a plain text counting as one, tool calls and the reasoning, through message `i`. */
  function BlocksThrough(messages: seq<Message>, i: nat): nat
    requires i < |messages|
  {
    |Kinds(messages[i])| + messages[i].toolCalls + (if messages[i].hasReasoning then 1 else 0)
    + if i == 0 then 0 else BlocksThrough(messages, i - 1)
  }

  lemma {:induction false} OffsetCountsBlocks(messages: seq<Message>, i: nat)
    requires i < |messages|
    ensures Offset(Shapes(messages), i) == BlocksThrough(messages, i)
  {
    var shapes := Shapes(messages);
    assert shapes[i].blocks == BlockCount(messages[i]);
    assert Offset(shapes, i) == BlocksBefore(shapes, i) + shapes[i].blocks;
    if i > 0 {
      OffsetCountsBlocks(messages, i - 1);
      assert BlocksBefore(shapes, i) == Offset(shapes, i - 1);
    }
  }

  predicate CanHoldAMark(kind: BlockKind) { kind.ImageBlock? || (kind.TextBlock? && Trim(kind.text) != "") }

  /** The last block is an image, or a text that is not blank. */
  lemma CacheableExactlyWhen(m: Message)
    ensures HasCacheableContent(m) <==> Kinds(m) != [] && CanHoldAMark(Kinds(m)[|Kinds(m)| - 1])
  {
    var kinds := Kinds(m);
    if kinds != [] && kinds[|kinds| - 1].TextBlock? {
      BlankTextsTrimToNothing(kinds[|kinds| - 1].text);
    }
  }

  predicate IsLastCacheable(messages: seq<Message>, i: nat)
    requires i < |messages|
  {
    HasCacheableContent(messages[i]) && forall j | i < j < |messages| :: !HasCacheableContent(messages[j])
  }

  /** Cacheable, at least 20 blocks behind message `p`, and the last such. */
  predicate IsSecondFor(messages: seq<Message>, i: nat, p: nat)
    requires i < p < |messages|
  {
    && HasCacheableContent(messages[i]) && IsFarEnoughBehind(messages, i, p)
    && forall j | i < j < p :: !(HasCacheableContent(messages[j]) && IsFarEnoughBehind(messages, j, p))
  }

  /** The last cacheable message, the last one far enough behind it, and the first system message. */
  ghost predicate IsAnchor(messages: seq<Message>, i: nat)
    requires i < |messages|
  {
    || IsLastCacheable(messages, i)
    || (exists p | i < p < |messages| :: IsLastCacheable(messages, p) && IsSecondFor(messages, i, p))
    || (messages[i].isSystem && forall j | 0 <= j < i :: !messages[j].isSystem)
  }

  lemma PrimaryIsLastCacheable(messages: seq<Message>, i: nat)
    requires i < |messages|
    ensures Primary(Shapes(messages)) == Some(i) <==> IsLastCacheable(messages, i)
  {
    var shapes := Shapes(messages);
    assert forall j | 0 <= j < |messages| :: shapes[j] == ShapeOf(messages[j]);
  }

  lemma SecondaryIsSecond(messages: seq<Message>, i: nat)
    requires i < |messages|
    ensures Secondary(Shapes(messages)) == Some(i)
       <==> exists p | i < p < |messages| :: IsLastCacheable(messages, p) && IsSecondFor(messages, i, p)
  {
    var shapes := Shapes(messages);
    forall p | i < p < |messages| ensures Primary(shapes) == Some(p) <==> IsLastCacheable(messages, p) {
      PrimaryIsLastCacheable(messages, p);
    }
    if Primary(shapes).Some? {
      var p := Primary(shapes).value;
      PrimaryIsLastCacheable(messages, p);
      forall j: nat | j < p
        ensures FitsBehind(shapes, j, SaturatingSub(Offset(shapes, p), LOOKBACK_BLOCKS))
           <==> HasCacheableContent(messages[j]) && IsFarEnoughBehind(messages, j, p)
      {
        FitsFarEnoughBehind(messages, j, p);
      }
    }
  }

  lemma FitsFarEnoughBehind(messages: seq<Message>, i: nat, p: nat)
    requires i < p < |messages|
    ensures FitsBehind(Shapes(messages), i, SaturatingSub(Offset(Shapes(messages), p), LOOKBACK_BLOCKS))
       <==> HasCacheableContent(messages[i]) && IsFarEnoughBehind(messages, i, p)
  {
    var shapes := Shapes(messages);
    assert shapes[i] == ShapeOf(messages[i]);
    OffsetCountsBlocks(messages, i);
    OffsetCountsBlocks(messages, p);
    if HasCacheableContent(messages[i]) {
      assert Offset(shapes, i) >= 1;
    }
  }

  lemma AnchorsAreThese(messages: seq<Message>, i: nat)
    requires i < |messages|
    ensures i in Anchors(Shapes(messages)) <==> IsAnchor(messages, i)
  {
    PrimaryIsLastCacheable(messages, i);
    SecondaryIsSecond(messages, i);
    var shapes := Shapes(messages);
    assert forall j | 0 <= j < |messages| :: shapes[j] == ShapeOf(messages[j]);
  }

  /** A cacheable message gets a mark on its last block; nothing else about it changes. */
  ghost predicate GetsMark(m: Message, m': Message) {
    if !HasCacheableContent(m) then m' == m
    else
      && m'.content.Blocks? && m' == m.(content := m'.content) && Kinds(m') == Kinds(m)
      && Flags(m) != [] && Flags(m') == Flags(m)[..|Flags(m)| - 1] + [true]
  }

  ghost predicate GetsMarks(messages: seq<Message>, messages': seq<Message>) {
    && |messages'| == |messages|
    && forall i | 0 <= i < |messages| ::
         if IsAnchor(messages, i) then GetsMark(messages[i], messages'[i]) else messages'[i] == messages[i]
  }

  ghost predicate LastGetsMark(tools: seq<Tool>, tools': seq<Tool>) {
    && |tools'| == |tools|
    && forall i | 0 <= i < |tools| ::
         tools'[i] == Tool(tools[i].hasFunction, tools[i].marked || (i == |tools| - 1 && tools[i].hasFunction))
  }

  lemma LastToolGetsMark(tools: seq<Tool>)
    ensures LastGetsMark(tools, LastToolMarked(tools))
  {}

  lemma AnchorsGetMarks(messages: seq<Message>)
    ensures GetsMarks(messages, MarkedAt(messages, Anchors(Shapes(messages))))
  {
    forall i | 0 <= i < |messages|
      ensures i in Anchors(Shapes(messages)) <==> IsAnchor(messages, i)
      ensures GetsMark(messages[i], Marked(messages[i]))
    {
      AnchorsAreThese(messages, i);
      MarkingOnlyMarksTheLastBlock(messages[i]);
    }
  }

  /** The secondary anchor is the latest cacheable message at least the lookback behind the primary
      one, which is the last cacheable message. */
  lemma SecondaryIsTheLatestFarEnoughBehind(messages: seq<Message>, i: nat)
    requires Primary(Shapes(messages)).Some? && i < Primary(Shapes(messages)).value
    ensures var p, s := Primary(Shapes(messages)).value, Secondary(Shapes(messages));
            s == Some(i) ==> HasCacheableContent(messages[i]) && IsFarEnoughBehind(messages, i, p)
    ensures var p, s := Primary(Shapes(messages)).value, Secondary(Shapes(messages));
            HasCacheableContent(messages[i]) && IsFarEnoughBehind(messages, i, p) ==> s.Some? && i <= s.value < p
  {
    var shapes := Shapes(messages);
    var p, s := Primary(shapes).value, Secondary(shapes);
    assert shapes[i] == ShapeOf(messages[i]);
    OffsetCountsBlocks(messages, i);
    OffsetCountsBlocks(messages, p);
    if HasCacheableContent(messages[i]) {
      assert Offset(shapes, i) >= 1;
      assert FitsBehind(shapes, i, SaturatingSub(Offset(shapes, p), LOOKBACK_BLOCKS))
          == IsFarEnoughBehind(messages, i, p);
    }
  }

  predicate IsFarEnoughBehind(messages: seq<Message>, i: nat, p: nat)
    requires i < |messages| && p < |messages|
  {
    BlocksThrough(messages, i) + 20 <= BlocksThrough(messages, p)
  }

  /** No second anchor while no more than the lookback lies up to the primary one. */
  lemma NoSecondaryInShortPayloads(messages: seq<Message>)
    requires Primary(Shapes(messages)).Some?
    requires BlocksThrough(messages, Primary(Shapes(messages)).value) <= 20
    ensures Secondary(Shapes(messages)).None?
  {
    var shapes := Shapes(messages);
    OffsetCountsBlocks(messages, Primary(shapes).value);
    assert forall i | 0 <= i < |messages| :: shapes[i] == ShapeOf(messages[i]);
  }

  // ---------------------------------------------------------------- at most four marks

  function MarksIn(blocks: seq<Block>): nat {
    if blocks == [] then 0 else (if blocks[|blocks| - 1].marked then 1 else 0) + MarksIn(blocks[..|blocks| - 1])
  }

  function MessageMarks(m: Message): nat { if m.content.Blocks? then MarksIn(m.content.blocks) else 0 }

  function TotalMarks(messages: seq<Message>, n: nat): nat
    requires n <= |messages|
  {
    if n == 0 then 0 else TotalMarks(messages, n - 1) + MessageMarks(messages[n - 1])
  }

  function ToolMarks(tools: seq<Tool>): nat {
    if tools == [] then 0 else (if tools[|tools| - 1].marked then 1 else 0) + ToolMarks(tools[..|tools| - 1])
  }

  lemma MarkingAddsOne(m: Message)
    requires MessageMarks(m) == 0
    ensures MessageMarks(Marked(m)) == if HasCacheableContent(m) then 1 else 0
  {
    if HasCacheableContent(m) {
      var blocks := Marked(m).content.blocks;
      assert blocks[..|blocks| - 1] == if m.content.Plain? then [] else m.content.blocks[..|blocks| - 1];
      assert MarksIn(blocks) == 1 + MarksIn(blocks[..|blocks| - 1]);
    }
  }

  function Below(anchors: set<nat>, n: nat): set<nat> { set i | i in anchors && i < n }

  lemma {:induction false} TotalMarksIsAtMostTheAnchors(messages: seq<Message>, anchors: set<nat>, n: nat)
    requires n <= |messages| && forall i | 0 <= i < |messages| :: MessageMarks(messages[i]) == 0
    ensures TotalMarks(MarkedAt(messages, anchors), n) <= |Below(anchors, n)|
  {
    if n > 0 {
      TotalMarksIsAtMostTheAnchors(messages, anchors, n - 1);
      MarkingAddsOne(messages[n - 1]);
      assert Below(anchors, n) == Below(anchors, n - 1) + if n - 1 in anchors then {n - 1} else {};
    }
  }

  lemma {:induction false} UnmarkedTools(tools: seq<Tool>)
    requires forall i | 0 <= i < |tools| :: !tools[i].marked
    ensures ToolMarks(tools) == 0
  {
    if tools != [] {
      UnmarkedTools(tools[..|tools| - 1]);
    }
  }

  /** On a payload without marks, at most four are placed, and only on cacheable messages. */
  lemma AtMostFourMarks(messages: seq<Message>, tools: seq<Tool>)
    requires forall i | 0 <= i < |messages| :: MessageMarks(messages[i]) == 0
    requires forall i | 0 <= i < |tools| :: !tools[i].marked
    ensures var marked := MarkedAt(messages, Anchors(Shapes(messages)));
            && TotalMarks(marked, |marked|) + ToolMarks(LastToolMarked(tools)) <= 4
            && forall i | 0 <= i < |marked| && MessageMarks(marked[i]) > 0 :: HasCacheableContent(marked[i])
  {
    var anchors := Anchors(Shapes(messages));
    var marked := MarkedAt(messages, anchors);
    TotalMarksIsAtMostTheAnchors(messages, anchors, |messages|);
    SubsetHasFewer(Below(anchors, |messages|), anchors);
    forall i | 0 <= i < |marked| && MessageMarks(marked[i]) > 0 ensures HasCacheableContent(marked[i]) {
      MarkingAddsOne(messages[i]);
      MarkingTwiceIsMarkingOnce(messages[i]);
    }
    UnmarkedTools(tools);
    if tools != [] {
      var after := LastToolMarked(tools);
      UnmarkedTools(tools[..|tools| - 1]);
      assert after[..|after| - 1] == tools[..|tools| - 1];
    }
  }

}

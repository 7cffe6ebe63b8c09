/** Which tool responses are dropped to fit a history into the summarizer, and how often that is
    retried. */
module CompactionWindow {
  datatype Message = Message(hasToolResponse: bool, body: string)

  const REMOVAL_PERCENTAGES: seq<nat> := [0, 10, 20, 50, 100]

  /** The positions of the messages with a tool response. */
  function ToolIndices(messages: seq<Message>): (r: seq<nat>)
    ensures forall i | 0 <= i < |r| :: r[i] < |messages| && messages[r[i]].hasToolResponse
  {
    if messages == [] then []
    else
      var before := ToolIndices(messages[..|messages| - 1]);
      if messages[|messages| - 1].hasToolResponse then before + [|messages| - 1] else before
  }

  lemma {:induction false} ToolIndicesAreAll(messages: seq<Message>)
    ensures forall i | 0 <= i < |messages| && messages[i].hasToolResponse :: i in ToolIndices(messages)
    ensures forall x, y | 0 <= x < y < |ToolIndices(messages)| :: ToolIndices(messages)[x] < ToolIndices(messages)[y]
  {
    if messages != [] {
      ToolIndicesAreAll(messages[..|messages| - 1]);
    }
  }

  // ---------------------------------------------------------------- the window

  function Min(a: nat, b: nat): nat { if a <= b then a else b }

  function NumToRemove(n: nat, percent: nat): nat { if n * percent / 100 >= 1 then n * percent / 100 else 1 }

  /** Of `n` tool responses, `k` steps outwards from the middle reach those from `Low` to `High`. */
  function Low(n: nat, k: nat): nat { n / 2 - Min((k + 1) / 2, n / 2) }

  function High(n: nat, k: nat): nat { Min(n / 2 + k / 2, n) }

  ghost predicate InRange(tools: seq<nat>, low: nat, high: nat, i: nat)
    requires high <= |tools|
  {
    exists x :: low <= x < high && tools[x] == i
  }

  ghost predicate InWindow(messages: seq<Message>, k: nat, i: nat) {
    var tools := ToolIndices(messages);
    InRange(tools, Low(|tools|, k), High(|tools|, k), i)
  }

  /** The positions dropped at a percentage. */
  ghost predicate Dropped(messages: seq<Message>, percent: nat, i: nat) {
    percent > 0 && ToolIndices(messages) != [] && InWindow(messages, NumToRemove(|ToolIndices(messages)|, percent), i)
  }

  /** Of `n` tool responses, the one with number `x` is among as many as the percentage makes, rounded
      down but at least one, taken in turn to the left and to the right of the middle. */
  predicate IsNearTheMiddle(n: nat, percent: nat, x: nat) {
    var k := if n * percent < 100 then 1 else n * percent / 100;
    n / 2 - (k + 1) / 2 <= x < n / 2 + k / 2
  }

  ghost predicate Goes(messages: seq<Message>, percent: nat, i: nat) {
    var tools := ToolIndices(messages);
    percent > 0 && exists x | 0 <= x < |tools| :: tools[x] == i && IsNearTheMiddle(|tools|, percent, x)
  }

  lemma DroppedExactlyWhenNearTheMiddle(messages: seq<Message>, percent: nat, i: nat)
    ensures Dropped(messages, percent, i) <==> Goes(messages, percent, i)
  {
    var tools := ToolIndices(messages);
    var n := |tools|;
    if percent > 0 && n > 0 {
      var k := NumToRemove(n, percent);
      forall x | 0 <= x < n ensures IsNearTheMiddle(n, percent, x) <==> Low(n, k) <= x < High(n, k) {
        Reached(n, percent, x);
      }
    }
  }

  lemma Reached(n: nat, percent: nat, x: nat)
    requires x < n && percent > 0
    ensures var k := NumToRemove(n, percent); IsNearTheMiddle(n, percent, x) <==> Low(n, k) <= x < High(n, k)
  {
    assert n * percent / 100 >= 1 <==> n * percent >= 100;
  }

  /** `filter_tool_responses`, as the positions that stay. */
  method FilterToolResponses(messages: seq<Message>, removePercent: nat) returns (kept: seq<nat>)
    ensures forall x | 0 <= x < |kept| :: kept[x] < |messages| && !Dropped(messages, removePercent, kept[x])
    ensures forall i | 0 <= i < |messages| && !Dropped(messages, removePercent, i) :: i in kept
    ensures forall x, y | 0 <= x < y < |kept| :: kept[x] < kept[y]
    ensures forall i | 0 <= i < |messages| :: i in kept <==> !Goes(messages, removePercent, i)
  {
    forall i | 0 <= i < |messages| ensures Dropped(messages, removePercent, i) <==> Goes(messages, removePercent, i) {
      DroppedExactlyWhenNearTheMiddle(messages, removePercent, i);
    }
    var toRemove := [];
    var tools := ToolIndices(messages);
    if removePercent > 0 && tools != [] {
      toRemove := MiddleOut(tools, NumToRemove(|tools|, removePercent));
    }
    kept := [];
    for i := 0 to |messages|
      invariant forall x | 0 <= x < |kept| :: kept[x] < i && !Dropped(messages, removePercent, kept[x])
      invariant forall j | 0 <= j < i && !Dropped(messages, removePercent, j) :: j in kept
      invariant forall x, y | 0 <= x < y < |kept| :: kept[x] < kept[y]
    {
      if i !in toRemove {
        kept := kept + [i];
      }
    }
  }

  ghost predicate Covers(positions: seq<nat>, tools: seq<nat>, low: nat, high: nat)
    requires high <= |tools|
  {
    forall p: nat :: p in positions <==> InRange(tools, low, high, p)
  }

  /** The loop that walks from the middle outwards, left and right in turn. */
  method MiddleOut(tools: seq<nat>, k: nat) returns (toRemove: seq<nat>)
    ensures forall p: nat :: p in toRemove <==> InRange(tools, Low(|tools|, k), High(|tools|, k), p)
  {
    var n, middle := |tools|, |tools| / 2;
    toRemove := [];
    ghost var low, high := middle, middle;
    assert Covers(toRemove, tools, low, high);
    for i := 0 to k
      invariant low == Low(n, i) && high == High(n, i) && low <= middle <= high <= n
      invariant Covers(toRemove, tools, low, high)
    {
      var offset := i / 2;
      OneStepOutwards(n, i);
      if i % 2 == 0 {
        if middle > offset {
          CoversOneToTheLeft(toRemove, tools, low, high);
          toRemove := toRemove + [tools[middle - offset - 1]];
          low := low - 1;
        }
      } else if middle + offset < n {
        CoversOneToTheRight(toRemove, tools, low, high);
        toRemove := toRemove + [tools[middle + offset]];
        high := high + 1;
      }
    }
  }

  /** An even step goes one further to the left, an odd one to the right, as long as there is room. */
  lemma OneStepOutwards(n: nat, i: nat)
    ensures i % 2 == 0 ==> High(n, i + 1) == High(n, i)
    ensures i % 2 == 0 ==> Low(n, i + 1) == if n / 2 > i / 2 then Low(n, i) - 1 else Low(n, i)
    ensures i % 2 == 0 && n / 2 > i / 2 ==> Low(n, i) == n / 2 - i / 2
    ensures i % 2 == 1 ==> Low(n, i + 1) == Low(n, i)
    ensures i % 2 == 1 ==> High(n, i + 1) == if n / 2 + i / 2 < n then High(n, i) + 1 else High(n, i)
    ensures i % 2 == 1 && n / 2 + i / 2 < n ==> High(n, i) == n / 2 + i / 2
  {}

  lemma CoversOneToTheLeft(positions: seq<nat>, tools: seq<nat>, low: nat, high: nat)
    requires 0 < low <= high <= |tools| && Covers(positions, tools, low, high)
    ensures Covers(positions + [tools[low - 1]], tools, low - 1, high)
  {
    var longer, left := positions + [tools[low - 1]], low - 1;
    forall p: nat ensures p in longer <==> InRange(tools, left, high, p) {
      assert InRange(tools, left, high, p) <==> InRange(tools, low, high, p) || p == tools[left];
    }
  }

  lemma CoversOneToTheRight(positions: seq<nat>, tools: seq<nat>, low: nat, high: nat)
    requires low <= high < |tools| && Covers(positions, tools, low, high)
    ensures Covers(positions + [tools[high]], tools, low, high + 1)
  {
    var longer, right := positions + [tools[high]], high + 1;
    forall p: nat ensures p in longer <==> InRange(tools, low, right, p) {
      assert InRange(tools, low, right, p) <==> InRange(tools, low, high, p) || p == tools[high];
    }
  }

  // ---------------------------------------------------------------- what the window is

  lemma NumToRemoveIsAtMostAll(n: nat, percent: nat)
    requires n > 0 && percent <= 100
    ensures 1 <= NumToRemove(n, percent) <= n
  {
    assert n * percent <= n * 100;
  }

  /** Up to 100 percent, the window holds as many responses as asked for, but never the odd one out. */
  lemma WindowSize(n: nat, percent: nat)
    requires n > 0 && percent <= 100
    ensures var k := NumToRemove(n, percent);
            && High(n, k) == n / 2 + k / 2
            && High(n, k) - Low(n, k) == Min(k, 2 * (n / 2))
  {
    NumToRemoveIsAtMostAll(n, percent);
  }

  lemma NumToRemoveGrows(n: nat, p: nat, q: nat)
    requires p <= q
    ensures NumToRemove(n, p) <= NumToRemove(n, q)
  {
    assert n * p <= n * q;
    DivisionGrows(n * p, n * q);
  }

  lemma DivisionGrows(a: nat, b: nat)
    requires a <= b
    ensures a / 100 <= b / 100
  {}

  /** A higher percentage drops everything a lower one drops. */
  lemma WindowsAreNested(messages: seq<Message>, p: nat, q: nat, i: nat)
    requires p <= q && Dropped(messages, p, i)
    ensures Dropped(messages, q, i)
  {
    var tools := ToolIndices(messages);
    var n := |tools|;
    NumToRemoveGrows(n, p, q);
    var j, k := NumToRemove(n, p), NumToRemove(n, q);
    assert Low(n, k) <= Low(n, j) && High(n, j) <= High(n, k);
    var x :| Low(n, j) <= x < High(n, j) && tools[x] == i;
    assert Low(n, k) <= x < High(n, k);
  }

  /** A message without a tool response is never dropped. */
  lemma OtherMessagesStay(messages: seq<Message>, percent: nat, i: nat)
    requires i < |messages| && !messages[i].hasToolResponse
    ensures !Dropped(messages, percent, i)
  {}

  /** At 100 percent every tool response goes exactly when their number is even. */
  lemma HundredPercentDropsAllExactlyWhenEven(messages: seq<Message>)
    ensures (forall i | 0 <= i < |messages| && messages[i].hasToolResponse :: Dropped(messages, 100, i))
       <==> |ToolIndices(messages)| % 2 == 0
  {
    var tools := ToolIndices(messages);
    var n := |tools|;
    ToolIndicesAreAll(messages);
    if n > 0 {
      assert NumToRemove(n, 100) == n;
      if n % 2 == 0 {
        assert Low(n, n) == 0 && High(n, n) == n;
        forall i | 0 <= i < |messages| && messages[i].hasToolResponse ensures Dropped(messages, 100, i) {
          var x :| 0 <= x < n && tools[x] == i;
          assert Low(n, n) <= x < High(n, n);
        }
      } else {
        assert High(n, n) == n - 1;
        LastOneStays(messages);
      }
    }
  }

  /** An odd number leaves the last one. */
  lemma LastOneStays(messages: seq<Message>)
    requires var n := |ToolIndices(messages)|; n % 2 == 1
    ensures var tools := ToolIndices(messages); !Dropped(messages, 100, tools[|tools| - 1])
  {
    var tools := ToolIndices(messages);
    ToolIndicesAreAll(messages);
    assert NumToRemove(|tools|, 100) == |tools|;
  }

  /** A single response survives the removal of 100 percent. */
  lemma OneResponseStays(body: string)
    ensures ToolIndices([Message(true, body)]) == [0] && !Dropped([Message(true, body)], 100, 0)
  {
    var messages := [Message(true, body)];
    assert messages[..0] == [] && ToolIndices(messages) == [] + [0];
    LastOneStays(messages);
  }

  // ---------------------------------------------------------------- the retry ladder

  datatype Reply = Completed(summary: string) | Overflow | OtherError

  datatype Result = Summary(summary: string) | NothingToRemove | Exhausted | Failed

  /** `summarize`: what `complete` replies may depend on the attempt and the positions kept. */
  method Summarize(messages: seq<Message>, complete: (nat, seq<nat>) -> Reply)
    returns (r: Result, prompts: seq<seq<nat>>)
    ensures 1 <= |prompts| <= 5
    ensures forall a | 0 <= a < |prompts| :: IsPrompt(messages, [0, 10, 20, 50, 100][a], prompts[a])
    ensures forall a | 0 <= a < |prompts| - 1 :: complete(a, prompts[a]).Overflow?
    ensures match complete(|prompts| - 1, prompts[|prompts| - 1])
            case Completed(summary) => r == Summary(summary)
            case OtherError => r == Failed
            case Overflow =>
              if ToolIndices(messages) == [] then r == NothingToRemove && |prompts| == 1
              else r == Exhausted && |prompts| == 5
  {
    prompts := [];
    var hasToolResponses := ToolIndices(messages) != [];
    for attempt := 0 to |REMOVAL_PERCENTAGES|
      invariant |prompts| == attempt
      invariant forall a | 0 <= a < attempt :: IsPrompt(messages, REMOVAL_PERCENTAGES[a], prompts[a])
      invariant forall a | 0 <= a < attempt :: complete(a, prompts[a]).Overflow?
      invariant attempt > 0 ==> hasToolResponses && attempt < |REMOVAL_PERCENTAGES|
    {
      var filtered := FilterToolResponses(messages, REMOVAL_PERCENTAGES[attempt]);
      prompts := prompts + [filtered];
      match complete(attempt, filtered) {
        case Completed(summary) => return Summary(summary), prompts;
        case OtherError => return Failed, prompts;
        case Overflow =>
          if !hasToolResponses {
            return NothingToRemove, prompts;
          }
          if attempt == |REMOVAL_PERCENTAGES| - 1 {
            return Exhausted, prompts;
          }
      }
    }
    assert false;
  }

  ghost predicate IsPrompt(messages: seq<Message>, percent: nat, kept: seq<nat>) {
    forall i: nat :: i in kept <==> i < |messages| && !Dropped(messages, percent, i)
  }

  /** The last prompt of an exhausted run still holds a tool response exactly when their number is odd. */
  lemma ExhaustedPromptHoldsToolResponsesExactlyWhenOdd(messages: seq<Message>, kept: seq<nat>)
    requires IsPrompt(messages, 100, kept)
    ensures (exists i: nat :: i in kept && i < |messages| && messages[i].hasToolResponse)
       <==> |ToolIndices(messages)| % 2 == 1
  {
    HundredPercentDropsAllExactlyWhenEven(messages);
    if |ToolIndices(messages)| % 2 == 1 {
      LastOneStays(messages);
      var last := ToolIndices(messages)[|ToolIndices(messages)| - 1];
      assert last in kept;
    }
  }
}

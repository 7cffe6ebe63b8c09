/** The agent's steps on a conversation: dispatching tool calls, and answering what a cancellation
    leaves open.  A message is a role, a list of contents and whether the user sees it. */
module AgentLoop {
  import opened Wrappers

  datatype Role = User | Assistant

  /** A call that could not be parsed carries no tool name. */
  datatype ToolCall = Call(name: string) | Malformed(error: string)

  datatype ToolResult = Answered(text: string) | Failed(error: string) | Interrupted | CancelledBeforeExecution

  datatype Request = Request(id: string, call: ToolCall, executedExternally: bool)

  datatype Content =
    | Text(text: string)
    | ToolRequest(request: Request)
    | ToolResponse(id: string, result: ToolResult)

  datatype Message = Message(role: Role, content: seq<Content>, userVisible: bool)

  predicate IsToolResponse(m: Message) { exists i | 0 <= i < |m.content| :: m.content[i].ToolResponse? }

  // ---------------------------------------------------------------- requests and responses

  function RequestsOf(content: seq<Content>): seq<Request> {
    if content == [] then []
    else (if content[0].ToolRequest? then [content[0].request] else []) + RequestsOf(content[1..])
  }

  function Requests(messages: seq<Message>): seq<Request> {
    if messages == [] then [] else RequestsOf(messages[0].content) + Requests(messages[1..])
  }

  function ResponseIds(content: seq<Content>): set<string> {
    set i | 0 <= i < |content| && content[i].ToolResponse? :: content[i].id
  }

  function AnsweredIds(messages: seq<Message>): set<string> {
    if messages == [] then {} else ResponseIds(messages[0].content) + AnsweredIds(messages[1..])
  }

  lemma {:induction false} AppendedMessage(messages: seq<Message>, m: Message)
    ensures Requests(messages + [m]) == Requests(messages) + RequestsOf(m.content)
    ensures AnsweredIds(messages + [m]) == AnsweredIds(messages) + ResponseIds(m.content)
  {
    if messages == [] {
      assert [m][1..] == [] && [] + [m] == [m];
      assert RequestsOf(m.content) + [] == RequestsOf(m.content);
    } else {
      assert (messages + [m])[1..] == messages[1..] + [m];
      AppendedMessage(messages[1..], m);
    }
  }

  // ---------------------------------------------------------------- the turn

  /** The message a turn starts from: from the user, seen by the user, not a tool response. */
  predicate IsKickoff(m: Message) { m.role.User? && m.userVisible && !IsToolResponse(m) }

  function Kickoff(messages: seq<Message>): (r: Option<nat>)
    ensures r.Some? ==> r.value < |messages|
  {
    if messages == [] then None
    else if IsKickoff(messages[|messages| - 1]) then Some(|messages| - 1)
    else Kickoff(messages[..|messages| - 1])
  }

  lemma {:induction false} KickoffIsLast(messages: seq<Message>)
    ensures var k := Kickoff(messages);
            && (k.Some? ==> IsKickoff(messages[k.value]))
            && forall i | (if k.Some? then k.value else -1) < i < |messages| :: !IsKickoff(messages[i])
  {
    if messages != [] && !IsKickoff(messages[|messages| - 1]) {
      KickoffIsLast(messages[..|messages| - 1]);
    }
  }

  /** `messages_since_kickoff`. */
  function Turn(messages: seq<Message>): Option<seq<Message>> {
    match Kickoff(messages)
    case None => None
    case Some(k) => Some(messages[k..])
  }

  lemma ToolResponsesExtendTheTurn(messages: seq<Message>, m: Message)
    requires Turn(messages).Some? && !IsKickoff(m)
    ensures Kickoff(messages + [m]) == Kickoff(messages)
    ensures Turn(messages + [m]) == Some(Turn(messages).value + [m])
  {
    var longer := messages + [m];
    assert longer[..|longer| - 1] == messages;
    var k := Kickoff(messages).value;
    assert longer[k..] == messages[k..] + [m];
  }

  // ---------------------------------------------------------------- dispatching tools

  function Unanswered(requests: seq<Request>, answered: set<string>): seq<Request> {
    if requests == [] then []
    else
      (if !requests[0].executedExternally && requests[0].id !in answered then [requests[0]] else [])
      + Unanswered(requests[1..], answered)
  }

  function Pending(turn: seq<Message>): seq<Request> { Unanswered(Requests(turn), AnsweredIds(turn)) }

  predicate Offered(request: Request, tools: seq<string>) { request.call.Malformed? || request.call.name in tools }

  /** `pending_requests`: those for an offered tool, and the malformed ones. */
  function ForTools(requests: seq<Request>, tools: seq<string>): seq<Request> {
    if requests == [] then []
    else (if Offered(requests[0], tools) then [requests[0]] else []) + ForTools(requests[1..], tools)
  }

  function Flatten(lists: seq<seq<string>>): seq<string> {
    if lists == [] then [] else Flatten(lists[..|lists| - 1]) + lists[|lists| - 1]
  }

  /** `available_tools`: all tools in order, or None when a provider repeats a name. */
  method AvailableTools(registered: seq<string>, providers: seq<seq<string>>) returns (r: Option<seq<string>>)
    requires NoDuplicates(registered)
    ensures r.Some? <==> NoDuplicates(registered + Flatten(providers))
    ensures r.Some? ==> r.value == registered + Flatten(providers)
  {
    var available := registered;
    assert registered + Flatten(providers[..0]) == registered;
    for p := 0 to |providers|
      invariant available == registered + Flatten(providers[..p]) && NoDuplicates(available)
    {
      ghost var before := available;
      assert providers[..p + 1][..p] == providers[..p];
      assert registered + (Flatten(providers[..p]) + providers[p]) == before + providers[p];
      for q := 0 to |providers[p]|
        invariant available == before + providers[p][..q] && NoDuplicates(available)
      {
        var name := providers[p][q];
        if name in available {
          var i :| 0 <= i < |available| && available[i] == name;
          var all := before + providers[p];
          assert all[i] == name && all[|before| + q] == name;
          FlattenStartsWith(providers, p + 1);
          RepeatedInAPrefix(all, registered + Flatten(providers), i, |before| + q);
          return None;
        }
        available := available + [name];
      }
      assert providers[p][..|providers[p]|] == providers[p];
    }
    assert providers[..|providers|] == providers;
    r := Some(available);
  }

  lemma RepeatedInAPrefix(prefix: seq<string>, all: seq<string>, i: nat, j: nat)
    requires prefix <= all && i < j < |prefix| && prefix[i] == prefix[j]
    ensures !NoDuplicates(all)
  {
    assert all[i] == all[j];
  }

  lemma {:induction false} FlattenStartsWith(lists: seq<seq<string>>, n: nat)
    requires n <= |lists|
    ensures Flatten(lists[..n]) <= Flatten(lists)
    decreases |lists|
  {
    if n == |lists| {
      assert lists[..n] == lists;
    } else {
      FlattenStartsWith(lists[..|lists| - 1], n);
      assert lists[..|lists| - 1][..n] == lists[..n];
    }
  }

  datatype OperationResult = Error | NotApplicable | Applied(message: Message)

  /** The requests a run of the tool operation answers, by whether it was cancelled while listing
      the tools; none means it does not apply, and None that listing failed. */
  function Selected(turn: seq<Message>, tools: Option<seq<string>>, cancelledListing: bool): Option<seq<Request>> {
    if Pending(turn) == [] then Some([])
    else if cancelledListing then Some(Pending(turn))
    else match tools
      case None => None
      case Some(names) => Some(ForTools(Pending(turn), names))
  }

  /** A user message with one response for each request, in order, and nothing else. */
  ghost predicate Answers(m: Message, requests: seq<Request>) {
    && m.role.User? && m.userVisible && |m.content| == |requests|
    && forall i | 0 <= i < |requests| :: m.content[i].ToolResponse? && m.content[i].id == requests[i].id
  }

  /** When cancellation is noticed as request `i` comes up: not, before its call, or during it. */
  datatype Notice = NotYet | BeforeCall | DuringCall

  /** A malformed call is never started, so nothing can be noticed during it. */
  predicate Stops(request: Request, notice: Notice) {
    notice.BeforeCall? || (notice.DuringCall? && !request.call.Malformed?)
  }

  /** Cancellation was noticed with one of the first `n` requests. */
  predicate StoppedWithin(requests: seq<Request>, notices: nat -> Notice, n: nat)
    requires n <= |requests|
  {
    exists j | 0 <= j < n :: Stops(requests[j], notices(j))
  }

  lemma StoppedWithinOneMore(requests: seq<Request>, notices: nat -> Notice, n: nat)
    requires n < |requests|
    ensures StoppedWithin(requests, notices, n + 1)
       <==> StoppedWithin(requests, notices, n) || Stops(requests[n], notices(n))
  {
    if StoppedWithin(requests, notices, n + 1) {
      var j :| 0 <= j < n + 1 && Stops(requests[j], notices(j));
      assert j == n || j < n;
    }
  }

  /** When cancellation is noticed and what the tools return. */
  datatype Calls = Calls(cancelledListing: bool, notices: nat -> Notice, outcomes: nat -> ToolResult)

  /** The result of request `i`: interrupted from the first notice on, before that the parse error of
      a malformed call or what its tool returns. */
  function ResultOf(requests: seq<Request>, calls: Calls, i: nat): ToolResult
    requires i < |requests|
  {
    if calls.cancelledListing || StoppedWithin(requests, calls.notices, i + 1) then Interrupted
    else match requests[i].call
      case Malformed(error) => Failed(error)
      case Call(_) => calls.outcomes(i)
  }

  /** One response for each request, in order. */
  function AnswersTo(requests: seq<Request>, calls: Calls): (m: Message)
    ensures Answers(m, requests)
  {
    Message(User, seq(|requests|, i requires 0 <= i < |requests| =>
                        ToolResponse(requests[i].id, ResultOf(requests, calls, i))), true)
  }

  /** What a run of the tool operation comes to. */
  function ToolRun(messages: seq<Message>, tools: Option<seq<string>>, calls: Calls): OperationResult {
    if Turn(messages).None? then Error
    else
      match Selected(Turn(messages).value, tools, calls.cancelledListing)
      case None => Error
      case Some(selected) => if selected == [] then NotApplicable else Applied(AnswersTo(selected, calls))
  }

  // What appending the answers changes.

  lemma {:induction false} AnswersHoldNoRequests(content: seq<Content>)
    requires forall i | 0 <= i < |content| :: content[i].ToolResponse?
    ensures RequestsOf(content) == []
  {
    if content != [] {
      AnswersHoldNoRequests(content[1..]);
    }
  }

  function Ids(requests: seq<Request>): set<string> { set i | 0 <= i < |requests| :: requests[i].id }

  lemma AnswersGiveTheIds(m: Message, requests: seq<Request>)
    requires Answers(m, requests)
    ensures ResponseIds(m.content) == Ids(requests)
    ensures requests != [] ==> !IsKickoff(m)
  {
    forall x ensures x in ResponseIds(m.content) <==> x in Ids(requests) {
      if x in Ids(requests) {
        var i :| 0 <= i < |requests| && requests[i].id == x;
        assert m.content[i].id == x;
      }
    }
    if requests != [] {
      assert m.content[0].ToolResponse?;
    }
  }

  lemma {:induction false} UnansweredAfter(requests: seq<Request>, answered: set<string>, more: set<string>)
    ensures Unanswered(requests, answered + more) == Unanswered(Unanswered(requests, answered), more)
  {
    if requests != [] {
      UnansweredAfter(requests[1..], answered, more);
      var head := if !requests[0].executedExternally && requests[0].id !in answered then [requests[0]] else [];
      assert (head + Unanswered(requests[1..], answered))[|head|..] == Unanswered(requests[1..], answered);
    }
  }

  lemma PendingAfterAnswers(turn: seq<Message>, m: Message, requests: seq<Request>)
    requires Answers(m, requests)
    ensures Pending(turn + [m]) == Unanswered(Pending(turn), Ids(requests))
  {
    AppendedMessage(turn, m);
    AnswersHoldNoRequests(m.content);
    AnswersGiveTheIds(m, requests);
    assert Requests(turn) + [] == Requests(turn);
    UnansweredAfter(Requests(turn), AnsweredIds(turn), Ids(requests));
  }

  lemma {:induction false} UnansweredOfAll(requests: seq<Request>, ids: set<string>)
    requires Ids(requests) <= ids
    ensures Unanswered(requests, ids) == []
  {
    if requests != [] {
      assert requests[0].id in Ids(requests);
      forall x | x in Ids(requests[1..]) ensures x in ids {
        var i :| 0 <= i < |requests[1..]| && requests[1..][i].id == x;
        assert requests[i + 1].id in Ids(requests);
      }
      UnansweredOfAll(requests[1..], ids);
    }
  }

  lemma {:induction false} NoneLeftForTools(requests: seq<Request>, tools: seq<string>, ids: set<string>)
    requires Ids(ForTools(requests, tools)) <= ids
    ensures ForTools(Unanswered(requests, ids), tools) == []
  {
    if requests != [] {
      var head := if Offered(requests[0], tools) then [requests[0]] else [];
      var rest := ForTools(requests[1..], tools);
      assert ForTools(requests, tools) == head + rest;
      forall x | x in Ids(rest) ensures x in ids {
        var i :| 0 <= i < |rest| && rest[i].id == x;
        assert (head + rest)[|head| + i].id == x;
      }
      if head != [] {
        assert (head + rest)[0].id in Ids(head + rest);
      }
      NoneLeftForTools(requests[1..], tools, ids);
      var kept := if !requests[0].executedExternally && requests[0].id !in ids then [requests[0]] else [];
      assert (kept + Unanswered(requests[1..], ids))[|kept|..] == Unanswered(requests[1..], ids);
    }
  }

  /** After an applied tools step, with the same tools, the operation applies again exactly when it is
      cancelled while listing them and a request is pending that none of them takes. */
  lemma ToolsStepIsSettled(
    messages: seq<Message>, tools: seq<string>, cancelledFirst: bool, m: Message, cancelledSecond: bool)
    requires Turn(messages).Some?
    requires var selected := Selected(Turn(messages).value, Some(tools), cancelledFirst);
             selected.value != [] && Answers(m, selected.value)
    ensures Kickoff(messages + [m]) == Kickoff(messages)
    ensures Turn(messages + [m]).Some?
    ensures Selected(Turn(messages + [m]).value, Some(tools), cancelledSecond) != Some([])
       <==> cancelledSecond && Pending(Turn(messages + [m]).value) != []
    ensures cancelledFirst ==> Pending(Turn(messages + [m]).value) == []
    ensures ForTools(Pending(Turn(messages + [m]).value), tools) == []
  {
    var turn := Turn(messages).value;
    var selected := Selected(turn, Some(tools), cancelledFirst).value;
    AnswersGiveTheIds(m, selected);
    ToolResponsesExtendTheTurn(messages, m);
    PendingAfterAnswers(turn, m, selected);
    if cancelledFirst {
      UnansweredOfAll(Pending(turn), Ids(selected));
    } else {
      NoneLeftForTools(Pending(turn), tools, Ids(selected));
    }
  }
}

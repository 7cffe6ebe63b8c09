/** `ToolOperation::run`: which requests it answers, and with what. */
module ToolOperation {
  import opened Wrappers
  import opened AgentLoop

  /** From the last message that starts a turn on. */
  ghost predicate IsTurn(messages: seq<Message>, turn: seq<Message>) {
    exists k :: 0 <= k < |messages| && StartsLastTurn(messages, k) && turn == messages[k..]
  }

  ghost predicate StartsLastTurn(messages: seq<Message>, k: nat)
    requires k < |messages|
  {
    IsKickoff(messages[k]) && forall i | k < i < |messages| :: !IsKickoff(messages[i])
  }

  function Contents(messages: seq<Message>): seq<Content> {
    if messages == [] then [] else messages[0].content + Contents(messages[1..])
  }

  ghost predicate IsAnswered(contents: seq<Content>, id: string) {
    exists i | 0 <= i < |contents| :: contents[i].ToolResponse? && contents[i].id == id
  }

  /** A request to be answered: not executed externally, without a response, and malformed or for one of
      the tools; without tools to go by, any name will do. */
  ghost predicate IsTaken(contents: seq<Content>, tools: Option<seq<string>>, request: Request) {
    && !request.executedExternally && !IsAnswered(contents, request.id)
    && (tools.None? || request.call.Malformed? || request.call.name in tools.value)
  }

  ghost function Takes(contents: seq<Content>, tools: Option<seq<string>>): Request -> bool {
    request => IsTaken(contents, tools, request)
  }

  /** The places from `from` on of all requests that `takes` takes, in order, and these requests. */
  ghost predicate ListsExactly(
    contents: seq<Content>, from: nat, at: seq<nat>, requests: seq<Request>, takes: Request -> bool) {
    && |at| == |requests|
    && (forall i | 0 <= i < |at| :: from <= at[i] && IsRequestAt(contents, at[i], requests[i]) && takes(requests[i]))
    && (forall i, j | 0 <= i < j < |at| :: at[i] < at[j])
    && forall p: nat | from <= p < |contents| && contents[p].ToolRequest? && takes(contents[p].request) :: p in at
  }

  predicate IsRequestAt(contents: seq<Content>, p: nat, request: Request) {
    p < |contents| && contents[p] == ToolRequest(request)
  }

  /** The requests of the turn to be answered, in order. */
  ghost predicate IsSelection(turn: seq<Message>, tools: Option<seq<string>>, requests: seq<Request>) {
    var contents := Contents(turn);
    exists at :: ListsExactly(contents, 0, at, requests, Takes(contents, tools))
  }

  /** The cancellation was noticed while listing, or with a request up to number `i`. */
  ghost predicate NoticedBy(requests: seq<Request>, calls: Calls, i: nat)
    requires i < |requests|
  {
    calls.cancelledListing || exists j | 0 <= j <= i ::
      calls.notices(j).BeforeCall? || (calls.notices(j).DuringCall? && requests[j].call.Call?)
  }

  /** One response for each request, in order: interrupted once the cancellation was noticed, else the
      parse error of a malformed call, else what the tool returned. */
  ghost predicate Responds(content: Content, requests: seq<Request>, calls: Calls, i: nat)
    requires i < |requests|
  {
    && content.ToolResponse? && content.id == requests[i].id
    && content.result == if NoticedBy(requests, calls, i) then Interrupted
                         else if requests[i].call.Malformed? then Failed(requests[i].call.error)
                         else calls.outcomes(i)
  }

  ghost predicate RespondsToAll(m: Message, requests: seq<Request>, calls: Calls) {
    && m.role.User? && m.userVisible && |m.content| == |requests|
    && forall i | 0 <= i < |requests| :: Responds(m.content[i], requests, calls, i)
  }

  /** What comes of the requests that wait for a response, and of those of them that are selected. */
  ghost predicate ComesTo(
    waiting: seq<Request>, requests: seq<Request>, tools: Option<seq<string>>, calls: Calls, r: OperationResult) {
    if waiting != [] && !calls.cancelledListing && tools.None? then r.Error?
    else if requests == [] then r.NotApplicable?
    else r.Applied? && RespondsToAll(r.message, requests, calls)
  }

  /** Cancelled while listing, the run answers all requests that wait; else those for the tools, and it
      is an error if these could not be listed and there is any. */
  ghost predicate RunsOn(
    turn: seq<Message>, waiting: seq<Request>, requests: seq<Request>, tools: Option<seq<string>>, calls: Calls,
    r: OperationResult) {
    && IsSelection(turn, None, waiting)
    && IsSelection(turn, if calls.cancelledListing then None else tools, requests)
    && ComesTo(waiting, requests, tools, calls, r)
  }

  /** Without a message that starts a turn a run is an error. */
  ghost predicate IsRunOn(messages: seq<Message>, tools: Option<seq<string>>, calls: Calls, r: OperationResult) {
    if forall i | 0 <= i < |messages| :: !IsKickoff(messages[i]) then r.Error?
    else exists turn, waiting, requests ::
      IsTurn(messages, turn) && RunsOn(turn, waiting, requests, tools, calls, r)
  }

  /** The requests that `takes` takes. */
  ghost function Keep(requests: seq<Request>, takes: Request -> bool): seq<Request> {
    if requests == [] then []
    else (if takes(requests[0]) then [requests[0]] else []) + Keep(requests[1..], takes)
  }

  lemma {:induction false} UnansweredKeeps(requests: seq<Request>, answered: set<string>, takes: Request -> bool)
    requires forall r: Request :: takes(r) <==> !r.executedExternally && r.id !in answered
    ensures Unanswered(requests, answered) == Keep(requests, takes)
  {
    if requests != [] {
      UnansweredKeeps(requests[1..], answered, takes);
    }
  }

  lemma {:induction false} ForToolsKeeps(
    requests: seq<Request>, tools: seq<string>, first: Request -> bool, takes: Request -> bool)
    requires forall r: Request :: takes(r) <==> first(r) && Offered(r, tools)
    ensures ForTools(Keep(requests, first), tools) == Keep(requests, takes)
  {
    if requests != [] {
      ForToolsKeeps(requests[1..], tools, first, takes);
      var head, kept := if first(requests[0]) then [requests[0]] else [], Keep(requests[1..], first);
      assert head != [] ==> (head + kept)[1..] == kept;
      assert head == [] ==> head + kept == kept;
    }
  }

  lemma {:induction false} KeepsInOrder(contents: seq<Content>, from: nat, takes: Request -> bool)
    returns (at: seq<nat>)
    requires from <= |contents|
    ensures ListsExactly(contents, from, at, Keep(RequestsOf(contents[from..]), takes), takes)
    decreases |contents| - from
  {
    at := [];
    if from < |contents| {
      at := KeepsInOrder(contents, from + 1, takes);
      var c, requests := contents[from], Keep(RequestsOf(contents[from + 1..]), takes);
      KeepOneMore(contents[from..], takes);
      assert contents[from..][1..] == contents[from + 1..];
      if c.ToolRequest? && takes(c.request) {
        OneMoreListed(contents, from, at, c.request, requests, takes);
        at := [from] + at;
      } else {
        assert [] + requests == requests;
      }
    }
  }

  lemma KeepOneMore(contents: seq<Content>, takes: Request -> bool)
    requires contents != []
    ensures Keep(RequestsOf(contents), takes)
         == (if contents[0].ToolRequest? && takes(contents[0].request) then [contents[0].request] else [])
            + Keep(RequestsOf(contents[1..]), takes)
  {
    var rest := RequestsOf(contents[1..]);
    if contents[0].ToolRequest? {
      assert ([contents[0].request] + rest)[1..] == rest;
    } else {
      assert [] + rest == rest;
    }
  }

  lemma OneMoreListed(
    contents: seq<Content>, from: nat, at: seq<nat>, request: Request, requests: seq<Request>, takes: Request -> bool)
    requires ListsExactly(contents, from + 1, at, requests, takes) && IsRequestAt(contents, from, request)
    requires takes(request)
    ensures ListsExactly(contents, from, [from] + at, [request] + requests, takes)
  {
    var at', requests' := [from] + at, [request] + requests;
    forall i | 0 <= i < |at'|
      ensures from <= at'[i] && IsRequestAt(contents, at'[i], requests'[i]) && takes(requests'[i])
    {
      assert i > 0 ==> at'[i] == at[i - 1] && requests'[i] == requests[i - 1];
    }
    forall p: nat | from <= p < |contents| && contents[p].ToolRequest? && takes(contents[p].request)
      ensures p in at'
    {
      assert p == from || p in at;
    }
  }

  lemma {:induction false} RequestsOfConcat(a: seq<Content>, b: seq<Content>)
    ensures RequestsOf(a + b) == RequestsOf(a) + RequestsOf(b)
  {
    if a == [] {
      assert a + b == b;
    } else {
      assert (a + b)[1..] == a[1..] + b;
      RequestsOfConcat(a[1..], b);
    }
  }

  lemma {:induction false} RequestsOfContents(messages: seq<Message>)
    ensures RequestsOf(Contents(messages)) == Requests(messages)
  {
    if messages != [] {
      RequestsOfConcat(messages[0].content, Contents(messages[1..]));
      RequestsOfContents(messages[1..]);
    }
  }

  lemma AnsweredConcat(a: seq<Content>, b: seq<Content>, id: string)
    ensures IsAnswered(a + b, id) <==> IsAnswered(a, id) || IsAnswered(b, id)
  {
    assert forall i | 0 <= i < |a| :: (a + b)[i] == a[i];
    assert forall i | 0 <= i < |b| :: (a + b)[|a| + i] == b[i];
  }

  lemma {:induction false} AnsweredInContents(messages: seq<Message>, id: string)
    ensures id in AnsweredIds(messages) <==> IsAnswered(Contents(messages), id)
  {
    if messages != [] {
      AnsweredInContents(messages[1..], id);
      AnsweredConcat(messages[0].content, Contents(messages[1..]), id);
      assert id in ResponseIds(messages[0].content) <==> IsAnswered(messages[0].content, id);
    }
  }

  ghost function Waiting(turn: seq<Message>, tools: Option<seq<string>>): seq<Request> {
    if tools.None? then Pending(turn) else ForTools(Pending(turn), tools.value)
  }

  lemma WaitingIsSelected(turn: seq<Message>, tools: Option<seq<string>>)
    ensures IsSelection(turn, tools, Waiting(turn, tools))
  {
    var contents := Contents(turn);
    var waits := (r: Request) => !r.executedExternally && r.id !in AnsweredIds(turn);
    var takes := Takes(contents, tools);
    forall id ensures id in AnsweredIds(turn) <==> IsAnswered(contents, id) {
      AnsweredInContents(turn, id);
    }
    RequestsOfContents(turn);
    UnansweredKeeps(Requests(turn), AnsweredIds(turn), waits);
    if tools.Some? {
      ForToolsKeeps(Requests(turn), tools.value, waits, takes);
    } else {
      UnansweredKeeps(Requests(turn), AnsweredIds(turn), takes);
    }
    var at := KeepsInOrder(contents, 0, takes);
    assert contents[0..] == contents;
  }

  lemma TurnIsTheLast(messages: seq<Message>)
    ensures Turn(messages).None? ==> forall i | 0 <= i < |messages| :: !IsKickoff(messages[i])
    ensures Turn(messages).Some? ==> IsTurn(messages, Turn(messages).value)
    ensures Turn(messages).Some? ==> exists i | 0 <= i < |messages| :: IsKickoff(messages[i])
  {
    KickoffIsLast(messages);
    if Turn(messages).Some? {
      assert StartsLastTurn(messages, Kickoff(messages).value);
    }
  }

  lemma RespondsToEach(requests: seq<Request>, calls: Calls)
    ensures RespondsToAll(AnswersTo(requests, calls), requests, calls)
  {
    forall i | 0 <= i < |requests| ensures Responds(AnswersTo(requests, calls).content[i], requests, calls, i) {
      assert StoppedWithin(requests, calls.notices, i + 1) <==>
        exists j | 0 <= j < i + 1 :: Stops(requests[j], calls.notices(j));
    }
  }

  lemma SelectedComesTo(turn: seq<Message>, tools: Option<seq<string>>, calls: Calls, r: OperationResult)
    requires r == match Selected(turn, tools, calls.cancelledListing)
                  case None => Error
                  case Some(selected) => if selected == [] then NotApplicable else Applied(AnswersTo(selected, calls))
    ensures ComesTo(Pending(turn), Waiting(turn, if calls.cancelledListing then None else tools), tools, calls, r)
  {
    RespondsToEach(Waiting(turn, if calls.cancelledListing then None else tools), calls);
  }

  lemma ToolRunMeans(messages: seq<Message>, tools: Option<seq<string>>, calls: Calls)
    ensures IsRunOn(messages, tools, calls, ToolRun(messages, tools, calls))
  {
    TurnIsTheLast(messages);
    if Turn(messages).Some? {
      var turn, offered := Turn(messages).value, if calls.cancelledListing then None else tools;
      WaitingIsSelected(turn, None);
      WaitingIsSelected(turn, offered);
      SelectedComesTo(turn, tools, calls, ToolRun(messages, tools, calls));
      assert RunsOn(turn, Pending(turn), Waiting(turn, offered), tools, calls, ToolRun(messages, tools, calls));
    }
  }

  /** `ToolOperation::run`. */
  method RunTools(messages: seq<Message>, tools: Option<seq<string>>, calls: Calls) returns (r: OperationResult)
    ensures r == ToolRun(messages, tools, calls)
    ensures IsRunOn(messages, tools, calls, r)
  {
    ToolRunMeans(messages, tools, calls);
    var turn := Turn(messages);
    if turn.None? {
      return Error;
    }
    var pending := Pending(turn.value);
    if pending == [] {
      return NotApplicable;
    }
    if calls.cancelledListing {
      var contents: seq<Content> := [];
      for i := 0 to |pending|
        invariant |contents| == i
        invariant forall k | 0 <= k < i :: contents[k] == ToolResponse(pending[k].id, Interrupted)
      {
        contents := contents + [ToolResponse(pending[i].id, Interrupted)];
      }
      assert contents == AnswersTo(pending, calls).content;
      return Applied(Message(User, contents, true));
    }
    if tools.None? {
      return Error;
    }
    pending := ForTools(pending, tools.value);
    if pending == [] {
      return NotApplicable;
    }
    var message := AnswerEach(pending, calls);
    r := Applied(message);
  }

  method AnswerEach(pending: seq<Request>, calls: Calls) returns (message: Message)
    requires !calls.cancelledListing
    ensures message == AnswersTo(pending, calls)
  {
    var contents: seq<Content>, cancelled := [], false;
    for i := 0 to |pending|
      invariant |contents| == i
      invariant forall k | 0 <= k < i :: contents[k] == ToolResponse(pending[k].id, ResultOf(pending, calls, k))
      invariant cancelled <==> StoppedWithin(pending, calls.notices, i)
    {
      StoppedWithinOneMore(pending, calls.notices, i);
      var result;
      if cancelled || calls.notices(i).BeforeCall? {
        cancelled := true;
        result := Interrupted;
      } else {
        match pending[i].call {
          case Malformed(error) =>
            result := Failed(error);
          case Call(_) =>
            if calls.notices(i).DuringCall? {
              cancelled := true;
              result := Interrupted;
            } else {
              result := calls.outcomes(i);
            }
        }
      }
      contents := contents + [ToolResponse(pending[i].id, result)];
    }
    message := Message(User, contents, true);
  }
}

/** `StateMachine`: the steps of an agent, run until none applies or one yields to the client, with a token
    that may be cancelled at any moment.

    A run asks the token over and over; its checks are numbered.  A cancellation lands between two
    checks: it is seen by the later one and by every check after it. */
module AgentMachine {
  import opened Wrappers
  import opened AgentLoop
  import opened ToolOperation
  import opened Cancellation
  import JsonRepair

  /** The first check that sees the cancellation, if there is one. */
  type Token = Option<nat>

  predicate Sees(token: Token, check: nat) { token.Some? && token.value <= check }

  datatype Kind = Tools | Inference | Other

  /** What a provider streams and what an error adds: no message that would start a turn. */
  type Reply = m: Message | !IsKickoff(m) witness Message(Assistant, [], true)

  datatype OtherRun = OtherFails | OtherSkips | OtherApplies(conversation: seq<Message>, yieldsToClient: bool)

  /** How the provider answers: it refuses, or it streams replies until an error or the end. */
  datatype Inferred =
    | InferFails
    | Refused(error: Reply)
    | Broken(replies: seq<Reply>, error: Reply)
    | Streamed(replies: seq<Reply>, limitReached: bool)

  /** What the operation in each slot does during one step, apart from the token.  `listingFails` is
      the operation whose tools cannot be listed for the inference. */
  datatype World = World(
    offered: nat -> Option<seq<string>>,
    outcomes: nat -> ToolResult,
    others: nat -> OtherRun,
    applies: nat -> bool,
    listingFails: Option<nat>,
    inferred: Inferred)

  /** Where the run was when it first saw the cancellation. */
  datatype Place =
    | AtEntry                                   // before an operation, or after one that did not apply
    | InTools(selected: seq<Request>)           // in a tools step that answers these requests
    | InOther
    | ListingForInference
    | InStream                                  // while streaming, or right after the stream
    | AfterInference(streamed: seq<Reply>)      // with these messages already final

  const EMPTY_RESPONSE: Reply := Message(Assistant, [Text("empty response")], true)

  // ---------------------------------------------------------------- one slot

  /** How the turn of one operation ends: with an error, the step, or the operation; `now` is the
      number of the next check. */
  datatype SlotEnd =
    | Fails
    | Stops
    | Goes(now: nat, cancelled: bool)
    | Applies(conversation: seq<Message>, yieldsToClient: bool, seen: Option<Place>, now: nat)

  /** An applied result on its way through the check behind the operation. */
  function Finish(token: Token, now: nat, conversation: seq<Message>, yieldsToClient: bool, place: Place): SlotEnd {
    if Sees(token, now) then Applies(conversation, true, Some(place), now + 1)
    else Applies(conversation, yieldsToClient, None, now + 1)
  }

  /** The check before request `i`; a call that is started is watched by one more. */
  function RequestCheck(requests: seq<Request>, start: nat, i: nat): nat
    requires i <= |requests|
  {
    if i == 0 then start
    else RequestCheck(requests, start, i - 1) + if requests[i - 1].call.Malformed? then 1 else 2
  }

  function NoticesOf(token: Token, requests: seq<Request>, start: nat): nat -> Notice {
    (i: nat) =>
      if i >= |requests| then NotYet
      else if Sees(token, RequestCheck(requests, start, i)) then BeforeCall
      else if Sees(token, RequestCheck(requests, start, i) + 1) then DuringCall
      else NotYet
  }

  function RequestsFor(conversation: seq<Message>, tools: Option<seq<string>>): seq<Request>
    requires Turn(conversation).Some?
  {
    if tools.None? then [] else ForTools(Pending(Turn(conversation).value), tools.value)
  }

  function CallsOf(token: Token, now: nat, requests: seq<Request>, outcomes: nat -> ToolResult): Calls {
    Calls(Sees(token, now), NoticesOf(token, requests, now + 1), outcomes)
  }

  /** The tools step from its first check on, which comes only if a request is pending. */
  function ToolsSlot(token: Token, now: nat, conversation: seq<Message>, w: World, slot: nat): SlotEnd {
    if Turn(conversation).None? then Fails
    else if Pending(Turn(conversation).value) == [] then Goes(now + 1, Sees(token, now))
    else
      var requests := RequestsFor(conversation, w.offered(slot));
      var end := if Sees(token, now) then now + 1 else RequestCheck(requests, now + 1, |requests|);
      match ToolRun(conversation, w.offered(slot), CallsOf(token, now, requests, w.outcomes))
      case Error => Fails
      case NotApplicable => Goes(end + 1, Sees(token, end))
      case Applied(m) =>
        Finish(token, end, conversation + [m], false,
               InTools(if Sees(token, now) then Pending(Turn(conversation).value) else requests))
  }

  /** What cancelling an inference adds. */
  function CancelMessages(messages: seq<Message>): seq<Reply> {
    if OpenIds(messages) == [] then [] else [CancelReply(OpenIds(messages))]
  }

  function CancelReply(ids: seq<string>): Reply
    requires ids != []
  {
    assert CancelledResponses(ids).content[0].ToolResponse?;
    CancelledResponses(ids)
  }

  /** Nothing but blank text. */
  predicate IsEmptyResponse(messages: seq<Message>) {
    forall i | 0 <= i < |messages| :: HasOnlyBlankText(messages[i].content)
  }

  predicate HasOnlyBlankText(content: seq<Content>) {
    forall k | 0 <= k < |content| :: content[k].Text? && JsonRepair.Trim(content[k].text) == ""
  }

  /** `infer`, from its first poll of the stream on. */
  function Infer(token: Token, now: nat, conversation: seq<Message>, inferred: Inferred): SlotEnd
    requires Turn(conversation).Some?
  {
    match inferred
    case InferFails => Fails
    case Refused(error) => Finish(token, now, conversation + [error], false, AfterInference([error]))
    case Broken(replies, error) =>
      if Sees(token, now + |replies|) then Interrupted(conversation, Taken(token, now, replies), now + |replies| + 3)
      else
        Finish(token, now + |replies| + 1, conversation + (replies + [error]), false, AfterInference(replies + [error]))
    case Streamed(replies, limitReached) =>
      if Sees(token, now + |replies|) then Interrupted(conversation, Taken(token, now, replies), now + |replies| + 3)
      else
        EndOfStream(token, now + |replies| + 1, conversation, replies, limitReached)
  }

  /** `infer`, from the check right after the stream on. */
  function EndOfStream(
    token: Token, now: nat, conversation: seq<Message>, replies: seq<Reply>, limitReached: bool): SlotEnd
    requires Turn(conversation).Some?
  {
    var cancelled := Sees(token, now);
    var all := if cancelled then replies + CancelMessages(Turn(conversation).value + replies) else replies;
    var empty := !limitReached && IsEmptyResponse(all);
    var added := if empty then [EMPTY_RESPONSE] else all;
    Finish(token, now + 1, conversation + added, empty, if cancelled then InStream else AfterInference(added))
  }

  /** The replies that came before the poll that saw the cancellation. */
  function Taken(token: Token, now: nat, replies: seq<Reply>): seq<Reply>
    requires Sees(token, now + |replies|)
  {
    replies[..if token.value <= now then 0 else token.value - now]
  }

  /** Those replies and the answers they leave due. */
  function Interrupted(conversation: seq<Message>, streamed: seq<Reply>, next: nat): SlotEnd
    requires Turn(conversation).Some?
  {
    Applies(conversation + (streamed + CancelMessages(Turn(conversation).value + streamed)), true, Some(InStream), next)
  }

  datatype Listing = ListingStops | ListingFails | AllListed

  /** Listing the tools of all `n` operations, with a check before each of them. */
  function ListingOf(token: Token, now: nat, n: nat, listingFails: Option<nat>): Listing {
    var fails := listingFails.Some? && listingFails.value < n;
    var last := if fails then now + listingFails.value else now + n - 1;
    if n > 0 && Sees(token, last) then ListingStops else if fails then ListingFails else AllListed
  }

  /** The inference step, from the listing of the tools on. */
  function InferenceSlot(token: Token, now: nat, n: nat, conversation: seq<Message>, w: World, slot: nat): SlotEnd {
    if !w.applies(slot) || Turn(conversation).None? then Goes(now, false)
    else match ListingOf(token, now, n, w.listingFails)
      case ListingStops => Stops
      case ListingFails => Fails
      case AllListed => Infer(token, now + n, conversation, w.inferred)
  }

  /** `InferenceRunner::cancel` on a step that has not run. */
  function CancelSlot(now: nat, conversation: seq<Message>): SlotEnd {
    if Turn(conversation).None? then Fails
    else
      var answers := CancelMessages(Turn(conversation).value);
      if answers == [] then Goes(now, true)
      else Applies(conversation + answers, true, Some(AtEntry), now)
  }

  function Slot(kind: Kind, token: Token, now: nat, n: nat, conversation: seq<Message>, w: World, slot: nat): SlotEnd {
    if Sees(token, now) then
      if kind.Inference? then CancelSlot(now + 2, conversation) else Goes(now + 2, true)
    else match kind
      case Tools => ToolsSlot(token, now + 1, conversation, w, slot)
      case Inference => InferenceSlot(token, now + 1, n, conversation, w, slot)
      case Other =>
        match w.others(slot)
        case OtherFails => Fails
        case OtherSkips => Goes(now + 2, Sees(token, now + 1))
        case OtherApplies(c, yieldsToClient) => Finish(token, now + 1, c, yieldsToClient, InOther)
  }

  // ---------------------------------------------------------------- a step and a run

  datatype StepEnd =
    | StepFails
    | NoStep(seen: Option<Place>)
    | Stepped(slot: nat, conversation: seq<Message>, yieldsToClient: bool, seen: Option<Place>, now: nat)

  /** What the end of slot `i` makes of the step, unless it goes on. */
  function Decided(end: SlotEnd, i: nat): Option<StepEnd> {
    match end
    case Fails => Some(StepFails)
    case Stops => Some(NoStep(Some(ListingForInference)))
    case Goes(_, _) => None
    case Applies(c, yieldsToClient, seen, now) => Some(Stepped(i, c, yieldsToClient, seen, now))
  }

  /** How the turn of each slot ends, by the slot and the number of its first check. */
  type Slots = (nat, nat) -> SlotEnd

  function SlotsOf(kinds: seq<Kind>, token: Token, conversation: seq<Message>, w: World): Slots {
    (i: nat, now: nat) => if i < |kinds| then Slot(kinds[i], token, now, |kinds|, conversation, w, i) else Fails
  }

  /** The step over `n` slots from slot `i` on; `cancelled` is whether the check behind the slot before
      saw the cancellation. */
  function StepOver(slots: Slots, n: nat, now: nat, i: nat, cancelled: bool): StepEnd
    requires i <= n
    decreases n - i
  {
    if i == n then NoStep(if cancelled then Some(AtEntry) else None)
    else
      var end := slots(i, now);
      match Decided(end, i)
      case Some(r) => r
      case None => StepOver(slots, n, end.now, i + 1, end.cancelled)
  }

  function Step(kinds: seq<Kind>, token: Token, now: nat, conversation: seq<Message>, w: World): StepEnd {
    StepOver(SlotsOf(kinds, token, conversation, w), |kinds|, now, 0, false)
  }

  /** The end of a run: the conversation before and after its last step, and where it first saw the
      cancellation, if it did. */
  datatype RunEnd = RunFailed | Unfinished | Ended(before: seq<Message>, after: seq<Message>, seen: Option<Place>)

  /** A run whose step number `i` meets `worlds[i]`. */
  function Run(kinds: seq<Kind>, token: Token, now: nat, conversation: seq<Message>, worlds: seq<World>): RunEnd
    decreases |worlds|
  {
    if worlds == [] then Unfinished
    else match Step(kinds, token, now, conversation, worlds[0])
      case StepFails => RunFailed
      case NoStep(seen) => Ended(conversation, conversation, seen)
      case Stepped(_, c, yieldsToClient, seen, now') =>
        if yieldsToClient then Ended(conversation, c, seen) else Run(kinds, token, now', c, worlds[1..])
  }

  // ---------------------------------------------------------------- the loops

  method RunSlot(kind: Kind, token: Token, now: nat, n: nat, conversation: seq<Message>, w: World, slot: nat)
    returns (r: SlotEnd)
    ensures r == Slot(kind, token, now, n, conversation, w, slot)
  {
    if Sees(token, now) {
      if kind.Inference? {
        r := CancelInference(now + 2, conversation);
      } else {
        r := Goes(now + 2, true);
      }
      return;
    }
    match kind {
      case Tools =>
        r := RunToolsSlot(token, now + 1, conversation, w, slot);
      case Inference =>
        r := RunInferenceSlot(token, now + 1, n, conversation, w, slot);
      case Other =>
        match w.others(slot) {
          case OtherFails => r := Fails;
          case OtherSkips => r := Goes(now + 2, Sees(token, now + 1));
          case OtherApplies(c, yieldsToClient) => r := Finish(token, now + 1, c, yieldsToClient, InOther);
        }
    }
  }

  method ListTools(token: Token, now: nat, n: nat, listingFails: Option<nat>) returns (r: Listing)
    ensures r == ListingOf(token, now, n, listingFails)
  {
    for i := 0 to n
      invariant i > 0 ==> !Sees(token, now + i - 1)
      invariant listingFails.Some? ==> i <= listingFails.value
    {
      if Sees(token, now + i) {
        return ListingStops;
      }
      if listingFails == Some(i) {
        return ListingFails;
      }
    }
    r := AllListed;
  }

  method RunInferenceSlot(token: Token, now: nat, n: nat, conversation: seq<Message>, w: World, slot: nat)
    returns (r: SlotEnd)
    ensures r == InferenceSlot(token, now, n, conversation, w, slot)
  {
    if !w.applies(slot) || Turn(conversation).None? {
      return Goes(now, false);
    }
    var listing := ListTools(token, now, n, w.listingFails);
    match listing {
      case ListingStops => r := Stops;
      case ListingFails => r := Fails;
      case AllListed => r := RunInference(token, now + n, conversation, w.inferred);
    }
  }

  /** `infer`: the replies are taken one by one, with a poll of the token before each of them and
      before the error or the end. */
  method RunInference(token: Token, now: nat, conversation: seq<Message>, inferred: Inferred) returns (r: SlotEnd)
    requires Turn(conversation).Some?
    ensures r == Infer(token, now, conversation, inferred)
  {
    match inferred {
      case InferFails =>
        r := Fails;
      case Refused(error) =>
        r := Finish(token, now, conversation + [error], false, AfterInference([error]));
      case Broken(replies, error) =>
        var accumulator, cancelled := TakeReplies(token, now, replies);
        if cancelled {
          r := InterruptInference(conversation, accumulator, now + |replies| + 3);
        } else {
          r := Finish(token, now + |replies| + 1, conversation + (accumulator + [error]), false,
                      AfterInference(accumulator + [error]));
        }
      case Streamed(replies, limitReached) =>
        var accumulator, cancelled := TakeReplies(token, now, replies);
        if cancelled {
          r := InterruptInference(conversation, accumulator, now + |replies| + 3);
        } else {
          r := EndOfStream(token, now + |replies| + 1, conversation, accumulator, limitReached);
        }
    }
  }

  /** The loop over the stream. */
  method TakeReplies(token: Token, now: nat, replies: seq<Reply>) returns (accumulator: seq<Reply>, cancelled: bool)
    ensures cancelled == Sees(token, now + |replies|)
    ensures accumulator == if cancelled then Taken(token, now, replies) else replies
  {
    accumulator := [];
    for i := 0 to |replies|
      invariant accumulator == replies[..i] && (i > 0 ==> !Sees(token, now + i - 1))
    {
      if Sees(token, now + i) {
        return accumulator, true;
      }
      accumulator := accumulator + [replies[i]];
    }
    cancelled := Sees(token, now + |replies|);
  }

  method InterruptInference(conversation: seq<Message>, streamed: seq<Reply>, next: nat) returns (r: SlotEnd)
    requires Turn(conversation).Some?
    ensures r == Interrupted(conversation, streamed, next)
  {
    var response := CancellationResponse(Turn(conversation).value, streamed);
    var answers: seq<Reply> := [];
    if response.Some? {
      assert response.value == CancelReply(OpenIds(Turn(conversation).value + streamed));
      answers := [response.value];
    }
    r := Applies(conversation + (streamed + answers), true, Some(InStream), next);
  }

  method CancelInference(now: nat, conversation: seq<Message>) returns (r: SlotEnd)
    ensures r == CancelSlot(now, conversation)
  {
    var turn := Turn(conversation);
    if turn.None? {
      return Fails;
    }
    var response := CancellationResponse(turn.value, []);
    assert turn.value + [] == turn.value;
    if response.None? {
      return Goes(now, true);
    }
    r := Applies(conversation + [response.value], true, Some(AtEntry), now);
  }

  method RunToolsSlot(token: Token, now: nat, conversation: seq<Message>, w: World, slot: nat) returns (r: SlotEnd)
    ensures r == ToolsSlot(token, now, conversation, w, slot)
  {
    var turn := Turn(conversation);
    if turn.None? {
      return Fails;
    }
    var pending := Pending(turn.value);
    if pending == [] {
      return Goes(now + 1, Sees(token, now));
    }
    var requests := RequestsFor(conversation, w.offered(slot));
    var result := RunTools(conversation, w.offered(slot), CallsOf(token, now, requests, w.outcomes));
    var end := if Sees(token, now) then now + 1 else RequestCheck(requests, now + 1, |requests|);
    match result {
      case Error => r := Fails;
      case NotApplicable => r := Goes(end + 1, Sees(token, end));
      case Applied(m) =>
        r := Finish(token, end, conversation + [m], false, InTools(if Sees(token, now) then pending else requests));
    }
  }

  /** `StateMachine::step`. */
  method TakeStep(kinds: seq<Kind>, token: Token, start: nat, conversation: seq<Message>, w: World)
    returns (r: StepEnd)
    ensures r == Step(kinds, token, start, conversation, w)
  {
    var now, cancelled := start, false;
    ghost var slots := SlotsOf(kinds, token, conversation, w);
    for i := 0 to |kinds|
      invariant Step(kinds, token, start, conversation, w) == StepOver(slots, |kinds|, now, i, cancelled)
    {
      var end := RunSlot(kinds[i], token, now, |kinds|, conversation, w, i);
      assert end == slots(i, now);
      var decided := Decided(end, i);
      if decided.Some? {
        return decided.value;
      }
      now, cancelled := end.now, end.cancelled;
    }
    r := NoStep(if cancelled then Some(AtEntry) else None);
  }

  /** `StateMachine::run`. */
  method RunMachine(kinds: seq<Kind>, token: Token, initial: seq<Message>, worlds: seq<World>) returns (r: RunEnd)
    ensures r == Run(kinds, token, 0, initial, worlds)
  {
    var now, conversation := 0, initial;
    for i := 0 to |worlds|
      invariant Run(kinds, token, 0, initial, worlds) == Run(kinds, token, now, conversation, worlds[i..])
    {
      var step := TakeStep(kinds, token, now, conversation, worlds[i]);
      match step {
        case StepFails => return RunFailed;
        case NoStep(seen) => return Ended(conversation, conversation, seen);
        case Stepped(_, c, yieldsToClient, seen, now') =>
          if yieldsToClient {
            return Ended(conversation, c, seen);
          }
          now, conversation := now', c;
      }
    }
    r := Unfinished;
  }

  // ---------------------------------------------------------------- what a cancelled run leaves open

  ghost predicate HasOpenIds(conversation: seq<Message>) {
    Turn(conversation).Some? && OpenIds(Turn(conversation).value) != []
  }

  /** The last step, on `before`, leaves an id open: some id of a tools step that it does not answer,
      any id of the turn while the tools are listed for the inference, or any id that is open after
      messages that were final when the cancellation was seen. */
  ghost predicate LeavesOpen(before: seq<Message>, after: seq<Message>, place: Place) {
    match place
    case AtEntry => false
    case InStream => false
    case InTools(selected) =>
      Turn(before).Some? && exists id :: id in OpenIds(Turn(before).value) && id !in Ids(selected)
    case ListingForInference => HasOpenIds(before)
    case AfterInference(streamed) => Turn(before).Some? && OpenIds(Turn(before).value + streamed) != []
    case InOther => HasOpenIds(after)
  }

  ghost predicate LeavesAsItSays(end: SlotEnd, before: seq<Message>) {
    end.Applies? && end.seen.Some? ==>
      (HasOpenIds(end.conversation) <==> LeavesOpen(before, end.conversation, end.seen.value))
  }

  lemma {:induction false} RepliesExtendTheTurn(conversation: seq<Message>, replies: seq<Message>)
    requires Turn(conversation).Some? && forall i | 0 <= i < |replies| :: !IsKickoff(replies[i])
    ensures Turn(conversation + replies) == Some(Turn(conversation).value + replies)
  {
    var turn := Turn(conversation).value;
    if replies == [] {
      assert conversation + replies == conversation && turn + replies == turn;
    } else {
      var init, last := replies[..|replies| - 1], replies[|replies| - 1];
      RepliesExtendTheTurn(conversation, init);
      ToolResponsesExtendTheTurn(conversation + init, last);
      assert conversation + replies == (conversation + init) + [last];
      assert turn + replies == (turn + init) + [last];
    }
  }

  /** Answers close the ids of their requests and no others. */
  lemma OpenAfterAnswers(turn: seq<Message>, m: Message, requests: seq<Request>)
    requires Answers(m, requests)
    ensures forall id :: id in OpenIds(turn + [m]) <==> id in OpenIds(turn) && id !in Ids(requests)
  {
    AppendedMessage(turn, m);
    AnswersHoldNoRequests(m.content);
    AnswersGiveTheIds(m, requests);
    assert Requests(turn) + [] == Requests(turn);
    OpenIdsAreExact(turn);
    OpenIdsAreExact(turn + [m]);
  }

  lemma CancelMessagesLeaveNoneOpen(messages: seq<Message>)
    ensures OpenIds(messages + CancelMessages(messages)) == []
  {
    if OpenIds(messages) == [] {
      assert messages + [] == messages;
    } else {
      AnsweringLeavesNoneOpen(messages);
    }
  }

  lemma {:induction false} EmptyMessagesChangeNothing(turn: seq<Message>, more: seq<Message>)
    requires IsEmptyResponse(more)
    ensures OpenIds(turn + more) == OpenIds(turn)
    ensures Requests(turn + more) == Requests(turn) && AnsweredIds(turn + more) == AnsweredIds(turn)
  {
    if more == [] {
      assert turn + more == turn;
    } else {
      var init, last := more[..|more| - 1], more[|more| - 1];
      EmptyMessagesChangeNothing(turn, init);
      AppendedMessage(turn + init, last);
      assert HasOnlyBlankText(last.content);
      TextHoldsNothing(last.content);
      assert turn + more == (turn + init) + [last];
      assert Requests(turn + init) + [] == Requests(turn + init);
      assert AnsweredIds(turn + init) + {} == AnsweredIds(turn + init);
    }
  }

  lemma {:induction false} TextHoldsNothing(content: seq<Content>)
    requires forall i | 0 <= i < |content| :: content[i].Text?
    ensures RequestsOf(content) == [] && ResponseIds(content) == {}
  {
    if content != [] {
      TextHoldsNothing(content[1..]);
    }
  }

  /** What an applied tools step does, in terms of the requests it answers. */
  ghost predicate AnsweredIn(end: SlotEnd, conversation: seq<Message>, selected: seq<Request>, m: Message) {
    && end.Applies? && Turn(conversation).Some? && selected != [] && Answers(m, selected)
    && end.conversation == conversation + [m]
    && (end.seen.Some? ==> end.seen.value == InTools(selected))
  }

  lemma ToolsSlotAnswers(token: Token, now: nat, conversation: seq<Message>, w: World, slot: nat)
    returns (selected: seq<Request>, m: Message)
    requires ToolsSlot(token, now, conversation, w, slot).Applies?
    ensures AnsweredIn(ToolsSlot(token, now, conversation, w, slot), conversation, selected, m)
    ensures Selected(Turn(conversation).value, w.offered(slot), Sees(token, now)) == Some(selected)
  {
    var turn := Turn(conversation).value;
    selected := Selected(turn, w.offered(slot), Sees(token, now)).value;
    m := AnswersTo(selected, CallsOf(token, now, RequestsFor(conversation, w.offered(slot)), w.outcomes));
  }

  lemma AnsweringLeaves(end: SlotEnd, conversation: seq<Message>, selected: seq<Request>, m: Message)
    requires AnsweredIn(end, conversation, selected, m)
    ensures LeavesAsItSays(end, conversation)
  {
    var turn := Turn(conversation).value;
    AnswersGiveTheIds(m, selected);
    ToolResponsesExtendTheTurn(conversation, m);
    OpenAfterAnswers(turn, m, selected);
    SomeElement(OpenIds(turn + [m]));
  }

  lemma ToolsSlotLeaves(token: Token, now: nat, conversation: seq<Message>, w: World, slot: nat)
    ensures LeavesAsItSays(ToolsSlot(token, now, conversation, w, slot), conversation)
  {
    var end := ToolsSlot(token, now, conversation, w, slot);
    if end.Applies? {
      var selected, m := ToolsSlotAnswers(token, now, conversation, w, slot);
      AnsweringLeaves(end, conversation, selected, m);
    }
  }

  /** An inference cancelled while it streams answers all; one whose messages are final answers nothing. */
  lemma InferLeaves(token: Token, now: nat, conversation: seq<Message>, inferred: Inferred)
    requires Turn(conversation).Some?
    ensures LeavesAsItSays(Infer(token, now, conversation, inferred), conversation)
  {
    match inferred {
      case InferFails =>
      case Refused(error) =>
        FinalRepliesLeave(token, now, conversation, [error], false);
      case Broken(replies, error) =>
        if Sees(token, now + |replies|) {
          SettledReplies(conversation, Taken(token, now, replies));
        } else {
          FinalRepliesLeave(token, now + |replies| + 1, conversation, replies + [error], false);
        }
      case Streamed(replies, limitReached) =>
        if Sees(token, now + |replies|) {
          SettledReplies(conversation, Taken(token, now, replies));
        } else {
          EndOfStreamLeaves(token, now + |replies| + 1, conversation, replies, limitReached);
        }
    }
  }

  lemma FinalRepliesLeave(token: Token, now: nat, conversation: seq<Message>, added: seq<Reply>, yieldsToClient: bool)
    requires Turn(conversation).Some?
    ensures LeavesAsItSays(Finish(token, now, conversation + added, yieldsToClient, AfterInference(added)),
                           conversation)
  {
    RepliesExtendTheTurn(conversation, added);
  }

  /** Streamed replies and the answers to what they leave due. */
  lemma SettledReplies(conversation: seq<Message>, replies: seq<Reply>)
    requires Turn(conversation).Some?
    ensures !HasOpenIds(conversation + (replies + CancelMessages(Turn(conversation).value + replies)))
  {
    var turn := Turn(conversation).value;
    RepliesExtendTheTurn(conversation, replies + CancelMessages(turn + replies));
    NothingOpenAfterTheStream(turn, replies);
  }

  /** An empty response replaces messages that hold no request and answer none. */
  lemma EmptyResponseLeavesNothing(conversation: seq<Message>, replies: seq<Reply>)
    requires Turn(conversation).Some?
    requires IsEmptyResponse(replies + CancelMessages(Turn(conversation).value + replies))
    ensures !HasOpenIds(conversation + [EMPTY_RESPONSE])
  {
    var turn := Turn(conversation).value;
    RepliesExtendTheTurn(conversation, [EMPTY_RESPONSE]);
    NothingOpenAfterTheStream(turn, replies);
    EmptyMessagesChangeNothing(turn, replies + CancelMessages(turn + replies));
    EmptyResponseChangesNothing(turn);
  }

  lemma EndOfStreamLeaves(
    token: Token, now: nat, conversation: seq<Message>, replies: seq<Reply>, limitReached: bool)
    requires Turn(conversation).Some?
    ensures LeavesAsItSays(EndOfStream(token, now, conversation, replies, limitReached), conversation)
  {
    if Sees(token, now) {
      SettledReplies(conversation, replies);
      if IsEmptyResponse(replies + CancelMessages(Turn(conversation).value + replies)) {
        EmptyResponseLeavesNothing(conversation, replies);
      }
    } else {
      var empty := !limitReached && IsEmptyResponse(replies);
      FinalRepliesLeave(token, now + 1, conversation, if empty then [EMPTY_RESPONSE] else replies, empty);
    }
  }

  lemma EmptyResponseChangesNothing(turn: seq<Message>)
    ensures OpenIds(turn + [EMPTY_RESPONSE]) == OpenIds(turn)
  {
    AppendedMessage(turn, EMPTY_RESPONSE);
    TextHoldsNothing(EMPTY_RESPONSE.content);
    assert Requests(turn) + [] == Requests(turn) && AnsweredIds(turn) + {} == AnsweredIds(turn);
  }

  lemma NothingOpenAfterTheStream(turn: seq<Message>, replies: seq<Reply>)
    ensures OpenIds(turn + (replies + CancelMessages(turn + replies))) == []
  {
    var answers := CancelMessages(turn + replies);
    CancelMessagesLeaveNoneOpen(turn + replies);
    assert turn + (replies + answers) == (turn + replies) + answers;
  }

  lemma CancelSlotLeavesNothing(now: nat, conversation: seq<Message>)
    ensures var r := CancelSlot(now, conversation);
            && (r.Applies? ==> Turn(conversation).Some? && !HasOpenIds(r.conversation))
            && (r.Goes? ==> !HasOpenIds(conversation))
  {
    if Turn(conversation).Some? {
      var turn := Turn(conversation).value;
      RepliesExtendTheTurn(conversation, CancelMessages(turn));
      CancelMessagesLeaveNoneOpen(turn);
    }
  }

  /** A skipped inference that saw the cancellation found nothing to answer. */
  ghost predicate SkipsWithNothingOpen(end: SlotEnd, before: seq<Message>) {
    end.Goes? && end.cancelled ==> !HasOpenIds(before)
  }

  lemma CancelledSlotLeaves(kind: Kind, token: Token, now: nat, n: nat, conversation: seq<Message>, w: World, slot: nat)
    requires Sees(token, now)
    ensures LeavesAsItSays(Slot(kind, token, now, n, conversation, w, slot), conversation)
    ensures kind.Inference? ==> SkipsWithNothingOpen(Slot(kind, token, now, n, conversation, w, slot), conversation)
  {
    CancelSlotLeavesNothing(now + 2, conversation);
  }

  lemma InferenceSlotLeaves(token: Token, now: nat, n: nat, conversation: seq<Message>, w: World, slot: nat)
    ensures LeavesAsItSays(InferenceSlot(token, now, n, conversation, w, slot), conversation)
    ensures SkipsWithNothingOpen(InferenceSlot(token, now, n, conversation, w, slot), conversation)
  {
    if Turn(conversation).Some? {
      InferLeaves(token, now + n, conversation, w.inferred);
    }
  }

  lemma SlotLeaves(kind: Kind, token: Token, now: nat, n: nat, conversation: seq<Message>, w: World, slot: nat)
    ensures LeavesAsItSays(Slot(kind, token, now, n, conversation, w, slot), conversation)
    ensures kind.Inference? ==> SkipsWithNothingOpen(Slot(kind, token, now, n, conversation, w, slot), conversation)
  {
    if Sees(token, now) {
      CancelledSlotLeaves(kind, token, now, n, conversation, w, slot);
    } else {
      match kind {
        case Tools => ToolsSlotLeaves(token, now + 1, conversation, w, slot);
        case Inference => InferenceSlotLeaves(token, now + 1, n, conversation, w, slot);
        case Other =>
      }
    }
  }

  /** The last operation is an inference, as in every machine the agent builds. */
  predicate EndsWithInference(kinds: seq<Kind>) { kinds != [] && kinds[|kinds| - 1].Inference? }

  /** The same of a step. */
  ghost predicate StepLeavesAsItSays(r: StepEnd, before: seq<Message>) {
    && (r.NoStep? && r.seen.Some? ==> (HasOpenIds(before) <==> LeavesOpen(before, before, r.seen.value)))
    && (r.Stepped? && r.seen.Some? ==>
          (HasOpenIds(r.conversation) <==> LeavesOpen(before, r.conversation, r.seen.value)))
  }

  lemma DecidedSlotLeaves(end: SlotEnd, i: nat, before: seq<Message>)
    requires LeavesAsItSays(end, before) && Decided(end, i).Some?
    ensures StepLeavesAsItSays(Decided(end, i).value, before)
  {}

  lemma {:induction false} StepLeaves(slots: Slots, n: nat, now: nat, i: nat, cancelled: bool, before: seq<Message>)
    requires i < n
    requires forall k: nat, t: nat | k < n ::
               LeavesAsItSays(slots(k, t), before) && (k == n - 1 ==> SkipsWithNothingOpen(slots(k, t), before))
    ensures StepLeavesAsItSays(StepOver(slots, n, now, i, cancelled), before)
    decreases n - i
  {
    var end := slots(i, now);
    if end.Goes? {
      if i + 1 < n {
        StepLeaves(slots, n, end.now, i + 1, end.cancelled, before);
      } else {
        assert SkipsWithNothingOpen(slots(n - 1, now), before);
      }
    } else {
      DecidedSlotLeaves(end, i, before);
    }
  }

  lemma WholeStepLeaves(kinds: seq<Kind>, token: Token, now: nat, conversation: seq<Message>, w: World)
    requires EndsWithInference(kinds)
    ensures StepLeavesAsItSays(Step(kinds, token, now, conversation, w), conversation)
  {
    var slots := SlotsOf(kinds, token, conversation, w);
    forall k: nat, t: nat | k < |kinds|
      ensures LeavesAsItSays(slots(k, t), conversation)
      ensures k == |kinds| - 1 ==> SkipsWithNothingOpen(slots(k, t), conversation)
    {
      SlotLeaves(kinds[k], token, t, |kinds|, conversation, w, k);
    }
    StepLeaves(slots, |kinds|, now, 0, false, conversation);
  }

  /** A run that sees the cancellation ends with an id open in its turn if and only if its last step
      leaves one open: see `LeavesOpen`. */
  lemma {:induction false} CancelledRunLeavesAnIdOpenExactlyWhen(
    kinds: seq<Kind>, token: Token, now: nat, initial: seq<Message>, worlds: seq<World>)
    requires EndsWithInference(kinds)
    ensures var end := Run(kinds, token, now, initial, worlds);
            end.Ended? && end.seen.Some? ==>
              (HasOpenIds(end.after) <==> LeavesOpen(end.before, end.after, end.seen.value))
    decreases |worlds|
  {
    if worlds != [] {
      WholeStepLeaves(kinds, token, now, initial, worlds[0]);
      match Step(kinds, token, now, initial, worlds[0]) {
        case StepFails =>
        case NoStep(_) =>
        case Stepped(_, c, yieldsToClient, _, now') =>
          if !yieldsToClient {
            CancelledRunLeavesAnIdOpenExactlyWhen(kinds, token, now', c, worlds[1..]);
          }
      }
    }
  }

  ghost predicate SeenInside(end: SlotEnd, token: Token, now: nat) {
    end.Applies? ==>
      && end.now > now && (end.seen.Some? <==> Sees(token, end.now - 1))
      && (end.seen.Some? ==> end.yieldsToClient)
  }

  lemma {:induction false} ChecksGoUp(requests: seq<Request>, start: nat, i: nat)
    requires i <= |requests|
    ensures RequestCheck(requests, start, i) >= start
  {
    if i > 0 {
      ChecksGoUp(requests, start, i - 1);
    }
  }

  lemma ToolsSlotSeenInside(token: Token, now: nat, conversation: seq<Message>, w: World, slot: nat)
    ensures SeenInside(ToolsSlot(token, now, conversation, w, slot), token, now)
  {
    if Turn(conversation).Some? {
      var requests := RequestsFor(conversation, w.offered(slot));
      ChecksGoUp(requests, now + 1, |requests|);
    }
  }

  lemma InferSeenInside(token: Token, now: nat, conversation: seq<Message>, inferred: Inferred)
    requires Turn(conversation).Some?
    ensures SeenInside(Infer(token, now, conversation, inferred), token, now)
  {}

  lemma InferenceSlotSeenInside(token: Token, now: nat, n: nat, conversation: seq<Message>, w: World, slot: nat)
    ensures SeenInside(InferenceSlot(token, now, n, conversation, w, slot), token, now)
  {
    if Turn(conversation).Some? {
      InferSeenInside(token, now + n, conversation, w.inferred);
    }
  }

  /** An applied operation saw the cancellation exactly when it landed before the check behind it. */
  lemma SeenExactlyWhenCancelledInside(kind: Kind, token: Token, now: nat, n: nat, conversation: seq<Message>, w: World,
                                       slot: nat)
    requires !Sees(token, now)
    ensures SeenInside(Slot(kind, token, now, n, conversation, w, slot), token, now + 1)
  {
    match kind {
      case Tools => ToolsSlotSeenInside(token, now + 1, conversation, w, slot);
      case Inference => InferenceSlotSeenInside(token, now + 1, n, conversation, w, slot);
      case Other =>
    }
  }

  /** Which gaps between two checks are blind: of an inference, and of an operation with the default
      `cancel`, only the last one, right before the check behind it. */
  lemma OnlyTheLastGapIsBlind(
    kind: Kind, token: Token, now: nat, n: nat, conversation: seq<Message>, w: World, slot: nat)
    requires n > 0 && !kind.Tools? && !Sees(token, now)
    requires Slot(kind, token, now, n, conversation, w, slot).Applies?
    ensures var r := Slot(kind, token, now, n, conversation, w, slot);
            (r.seen.Some? && (r.seen.value.AfterInference? || r.seen.value.InOther?)) <==> token == Some(r.now - 1)
  {}

  /** A step begun cancelled answers the open ids of the turn, each once, and does nothing else. */
  ghost predicate OnlyAnswersOpenIds(r: StepEnd, conversation: seq<Message>) {
    if Turn(conversation).None? then r.StepFails?
    else
      var ids := OpenIds(Turn(conversation).value);
      if ids == [] then r == NoStep(Some(AtEntry))
      else r.Stepped? && r.conversation == conversation + [CancelledResponses(ids)] && r.yieldsToClient
  }

  ghost predicate EndsCancelled(end: SlotEnd, conversation: seq<Message>, now: nat, last: bool) {
    end == CancelSlot(now + 2, conversation) || (!last && end == Goes(now + 2, true))
  }

  lemma {:induction false} CancelledSlotsOnlyAnswer(
    slots: Slots, token: Token, n: nat, now: nat, i: nat, cancelled: bool, conversation: seq<Message>)
    requires i < n && Sees(token, now)
    requires forall k: nat, t: nat | k < n && Sees(token, t) :: EndsCancelled(slots(k, t), conversation, t, k == n - 1)
    ensures OnlyAnswersOpenIds(StepOver(slots, n, now, i, cancelled), conversation)
    decreases n - i
  {
    assert EndsCancelled(slots(i, now), conversation, now, i == n - 1);
    if i + 1 < n && slots(i, now).Goes? {
      CancelledSlotsOnlyAnswer(slots, token, n, now + 2, i + 1, true, conversation);
    }
  }

  lemma StepBegunCancelled(kinds: seq<Kind>, token: Token, now: nat, conversation: seq<Message>, w: World)
    requires EndsWithInference(kinds) && Sees(token, now)
    ensures OnlyAnswersOpenIds(Step(kinds, token, now, conversation, w), conversation)
  {
    CancelledSlotsOnlyAnswer(SlotsOf(kinds, token, conversation, w), token, |kinds|, now, 0, false, conversation);
  }

  // ---------------------------------------------------------------- the tools step twice in a row

  /** The step comes to slot `s` at check `t`. */
  ghost predicate Reaches(slots: Slots, now: nat, i: nat, s: nat, t: nat)
    requires i <= s
    decreases s - i
  {
    if i == s then now == t
    else slots(i, now).Goes? && Reaches(slots, slots(i, now).now, i + 1, s, t)
  }

  lemma {:induction false} ReachedSlotDecides(
    slots: Slots, n: nat, now: nat, i: nat, cancelled: bool, s: nat, t: nat)
    requires i <= s < n && Reaches(slots, now, i, s, t)
    ensures IsStepOf(StepOver(slots, n, now, i, cancelled), s) <==> slots(s, t).Applies?
    decreases s - i
  {
    var end := slots(i, now);
    if i < s {
      ReachedSlotDecides(slots, n, end.now, i + 1, end.cancelled, s, t);
    } else if end.Goes? {
      LaterSlotsAreLater(slots, n, end.now, s + 1, end.cancelled);
    }
  }

  lemma {:induction false} LaterSlotsAreLater(slots: Slots, n: nat, now: nat, i: nat, cancelled: bool)
    requires i <= n
    ensures var r := StepOver(slots, n, now, i, cancelled); r.Stepped? ==> r.slot >= i
    decreases n - i
  {
    if i < n && slots(i, now).Goes? {
      LaterSlotsAreLater(slots, n, slots(i, now).now, i + 1, slots(i, now).cancelled);
    }
  }

  /** The slot of a step applied, at some check. */
  lemma {:induction false} SteppedBySlot(slots: Slots, n: nat, now: nat, i: nat, cancelled: bool) returns (t: nat)
    requires i <= n && StepOver(slots, n, now, i, cancelled).Stepped?
    ensures var r := StepOver(slots, n, now, i, cancelled);
            r.slot < n && slots(r.slot, t) == Applies(r.conversation, r.yieldsToClient, r.seen, r.now)
    decreases n - i
  {
    var end := slots(i, now);
    if end.Goes? {
      t := SteppedBySlot(slots, n, end.now, i + 1, end.cancelled);
    } else {
      t := now;
    }
  }

  predicate IsStepOf(r: StepEnd, slot: nat) { r.Stepped? && r.slot == slot }

  /** No request is pending for these tools. */
  ghost predicate Settled(conversation: seq<Message>, tools: Option<seq<string>>) {
    Turn(conversation).Some? && tools.Some? && ForTools(Pending(Turn(conversation).value), tools.value) == []
  }

  lemma AppliedToolsSlotSettles(token: Token, now: nat, conversation: seq<Message>, w: World, slot: nat)
    requires var r := ToolsSlot(token, now, conversation, w, slot); r.Applies? && r.seen.None?
    ensures Settled(ToolsSlot(token, now, conversation, w, slot).conversation, w.offered(slot))
  {
    var selected, m := ToolsSlotAnswers(token, now, conversation, w, slot);
    ToolsStepIsSettled(conversation, w.offered(slot).value, false, m, false);
  }

  lemma AppliedSlotSettles(token: Token, t: nat, n: nat, conversation: seq<Message>, w: World, s: nat)
    requires var r := Slot(Tools, token, t, n, conversation, w, s); r.Applies? && r.seen.None?
    ensures Settled(Slot(Tools, token, t, n, conversation, w, s).conversation, w.offered(s))
  {
    AppliedToolsSlotSettles(token, t + 1, conversation, w, s);
  }

  lemma AppliedToolsStepSettles(kinds: seq<Kind>, token: Token, now: nat, conversation: seq<Message>, w: World, s: nat,
                                after: seq<Message>, now': nat)
    requires s < |kinds| && kinds[s].Tools?
    requires Step(kinds, token, now, conversation, w) == Stepped(s, after, false, None, now')
    ensures Settled(after, w.offered(s))
  {
    var t := SteppedBySlot(SlotsOf(kinds, token, conversation, w), |kinds|, now, 0, false);
    AppliedSlotSettles(token, t, |kinds|, conversation, w, s);
  }

  /** Settled tools are run again exactly when the cancellation lands as they are listed. */
  lemma SettledToolsApplyExactlyWhen(token: Token, t: nat, n: nat, conversation: seq<Message>, w: World, s: nat)
    requires Settled(conversation, w.offered(s))
    ensures Slot(Tools, token, t, n, conversation, w, s).Applies?
       <==> token == Some(t + 1) && Pending(Turn(conversation).value) != []
  {}

  /** Two consecutive steps of a run: after a tools step that did not see the cancellation, the next
      step, when it comes to the same slot with the same tools, is that tools step again if and only if
      the cancellation lands while it lists the tools and a request is still pending. */
  lemma ToolsStepTwiceExactlyWhen(kinds: seq<Kind>, token: Token, now: nat, conversation: seq<Message>,
                                  first: World, second: World, s: nat, after: seq<Message>, now': nat, t: nat)
    requires s < |kinds| && kinds[s].Tools? && first.offered(s) == second.offered(s)
    requires Step(kinds, token, now, conversation, first) == Stepped(s, after, false, None, now')
    requires Reaches(SlotsOf(kinds, token, after, second), now', 0, s, t)
    ensures Turn(after).Some?
    ensures IsStepOf(Step(kinds, token, now', after, second), s)
       <==> token == Some(t + 1) && Pending(Turn(after).value) != []
  {
    AppliedToolsStepSettles(kinds, token, now, conversation, first, s, after, now');
    SettledToolsApplyExactlyWhen(token, t, |kinds|, after, second, s);
    ReachedSlotDecides(SlotsOf(kinds, token, after, second), |kinds|, now', 0, false, s, t);
  }

  // ---------------------------------------------------------------- cancelled runs that leave a request open

  const KICKOFF := Message(User, [Text("go")], true)
  const OWN := Request("1", Call("own"), false)
  const FOREIGN := Request("2", Call("foreign"), false)

  /** The tools step offers `own`; the provider streams a request for it. */
  const WORLD := World(
    _ => Some(["own"]), _ => Answered("done"), _ => OtherSkips, _ => true, None, Streamed([Asked([OWN])], false))

  const MACHINE := [Tools, Inference]

  function Asked(requests: seq<Request>): Reply {
    Message(Assistant, seq(|requests|, i requires 0 <= i < |requests| => ToolRequest(requests[i])), true)
  }

  lemma {:induction false} AskedHolds(requests: seq<Request>)
    ensures RequestsOf(Asked(requests).content) == requests
    ensures ResponseIds(Asked(requests).content) == {}
  {
    if requests != [] {
      AskedHolds(requests[1..]);
      assert Asked(requests).content[1..] == Asked(requests[1..]).content;
    }
  }

  lemma TurnOfAsked(requests: seq<Request>)
    ensures Turn([KICKOFF]) == Some([KICKOFF])
    ensures Turn([KICKOFF, Asked(requests)]) == Some([KICKOFF, Asked(requests)])
    ensures Requests([KICKOFF]) == [] && AnsweredIds([KICKOFF]) == {}
    ensures Requests([KICKOFF, Asked(requests)]) == requests && AnsweredIds([KICKOFF, Asked(requests)]) == {}
  {
    assert [KICKOFF][..0] == [] && [KICKOFF][0..] == [KICKOFF];
    assert Kickoff([KICKOFF]) == Some(0);
    assert [KICKOFF][1..] == [];
    assert RequestsOf(KICKOFF.content) == [] by { assert KICKOFF.content[1..] == []; }
    RepliesExtendTheTurn([KICKOFF], [Asked(requests)]);
    assert [KICKOFF] + [Asked(requests)] == [KICKOFF, Asked(requests)];
    AskedHolds(requests);
    AppendedMessage([KICKOFF], Asked(requests));
  }

  /** A request whose id is in no response keeps its id open. */
  lemma UnansweredIsOpen(messages: seq<Message>, i: nat)
    requires i < |Requests(messages)| && Requests(messages)[i].id !in AnsweredIds(messages)
    ensures OpenIds(messages) != []
  {
    OpenIdsAreExact(messages);
    assert Requests(messages)[i].id in Ids(Requests(messages));
    assert Requests(messages)[i].id in OpenIds(messages);
  }

  /** The cancellation lands after the last check of the inference and before the one behind it. */
  lemma LateCancellationLeavesARequestOpen()
    ensures var end := Run(MACHINE, Some(8), 0, [KICKOFF], [WORLD]);
            && end == Ended([KICKOFF], [KICKOFF, Asked([OWN])], Some(AfterInference([Asked([OWN])])))
            && HasOpenIds(end.after)
  {
    TurnOfAsked([OWN]);
    LateInference();
    assert Slot(Tools, Some(8), 0, 2, [KICKOFF], WORLD, 0) == Goes(2, false);
    assert StepOver(SlotsOf(MACHINE, Some(8), [KICKOFF], WORLD), 2, 2, 1, false)
        == Stepped(1, [KICKOFF, Asked([OWN])], true, Some(AfterInference([Asked([OWN])])), 9);
    UnansweredIsOpen([KICKOFF, Asked([OWN])], 0);
  }

  lemma LateInference()
    ensures Slot(Inference, Some(8), 2, 2, [KICKOFF], WORLD, 1)
         == Applies([KICKOFF, Asked([OWN])], true, Some(AfterInference([Asked([OWN])])), 9)
  {
    TurnOfAsked([OWN]);
    var replies: seq<Reply> := [Asked([OWN])];
    assert !IsEmptyResponse(replies) by { assert !HasOnlyBlankText(replies[0].content); }
    assert [KICKOFF] + replies == [KICKOFF, Asked([OWN])];
    SeenBehindTheInference([KICKOFF], WORLD, replies);
  }

  lemma SeenBehindTheInference(conversation: seq<Message>, w: World, replies: seq<Reply>)
    requires Turn(conversation).Some? && w.applies(1) && w.listingFails.None?
    requires w.inferred == Streamed(replies, false) && |replies| == 1 && !IsEmptyResponse(replies)
    ensures Slot(Inference, Some(8), 2, 2, conversation, w, 1)
         == Applies(conversation + replies, true, Some(AfterInference(replies)), 9)
  {}

  const ASKED := [KICKOFF, Asked([OWN, FOREIGN])]

  lemma OneOrTwo(a: Request, b: Request, answered: set<string>, tools: seq<string>)
    requires !a.executedExternally && !b.executedExternally
    ensures Unanswered([b], answered) == if b.id in answered then [] else [b]
    ensures Unanswered([a, b], answered) == (if a.id in answered then [] else [a]) + Unanswered([b], answered)
    ensures ForTools([b], tools) == if Offered(b, tools) then [b] else []
    ensures ForTools([a, b], tools) == (if Offered(a, tools) then [a] else []) + ForTools([b], tools)
  {
    assert [a, b][1..] == [b] && [b][1..] == [];
  }

  lemma AskedForBoth()
    ensures Turn(ASKED) == Some(ASKED) && Requests(ASKED) == [OWN, FOREIGN] && AnsweredIds(ASKED) == {}
    ensures Pending(ASKED) == [OWN, FOREIGN] && ForTools([OWN, FOREIGN], ["own"]) == [OWN]
    ensures ForTools([FOREIGN], ["own"]) == []
  {
    TurnOfAsked([OWN, FOREIGN]);
    BothPending(ASKED);
  }

  lemma BothPending(turn: seq<Message>)
    requires Requests(turn) == [OWN, FOREIGN] && AnsweredIds(turn) == {}
    ensures Pending(turn) == [OWN, FOREIGN] && ForTools([OWN, FOREIGN], ["own"]) == [OWN]
    ensures ForTools([FOREIGN], ["own"]) == []
  {
    OneOrTwo(OWN, FOREIGN, {}, ["own"]);
    assert Offered(OWN, ["own"]) && !Offered(FOREIGN, ["own"]);
  }

  /** After the answer to its own request, the other one is pending and open, for none of its tools. */
  lemma AfterOwnAnswer(m: Message)
    requires Answers(m, [OWN])
    ensures Turn(ASKED + [m]) == Some(ASKED + [m]) && Pending(ASKED + [m]) == [FOREIGN]
    ensures ForTools([FOREIGN], ["own"]) == [] && OpenIds(ASKED + [m]) != []
  {
    AskedForBoth();
    AnswersGiveTheIds(m, [OWN]);
    ToolResponsesExtendTheTurn(ASKED, m);
    OneIsLeft(ASKED, m);
  }

  lemma OneIsLeft(turn: seq<Message>, m: Message)
    requires Answers(m, [OWN]) && Requests(turn) == [OWN, FOREIGN] && AnsweredIds(turn) == {}
    requires Pending(turn) == [OWN, FOREIGN]
    ensures Pending(turn + [m]) == [FOREIGN] && OpenIds(turn + [m]) != []
  {
    AnswersGiveTheIds(m, [OWN]);
    PendingAfterAnswers(turn, m, [OWN]);
    AppendedMessage(turn, m);
    AnswersHoldNoRequests(m.content);
    assert [OWN][0].id in Ids([OWN]) && FOREIGN.id !in Ids([OWN]);
    OneOrTwo(OWN, FOREIGN, Ids([OWN]), []);
    assert Requests(turn + [m])[1] == FOREIGN;
    UnansweredIsOpen(turn + [m], 1);
  }

  function OwnAnswer(token: Token, now: nat): (m: Message)
    ensures Answers(m, [OWN])
  {
    AnswersTo([OWN], CallsOf(token, now, [OWN], WORLD.outcomes))
  }

  /** The tools step on both requests, listing its tools at check `now`. */
  lemma OwnToolsSlot(token: Token, now: nat)
    requires !Sees(token, now)
    ensures ToolsSlot(token, now, ASKED, WORLD, 0)
         == Finish(token, now + 3, ASKED + [OwnAnswer(token, now)], false, InTools([OWN]))
  {
    AskedForBoth();
    OneRequestSlot(token, now, ASKED, WORLD, OWN);
  }

  lemma OneRequestSlot(token: Token, now: nat, conversation: seq<Message>, w: World, own: Request)
    requires !Sees(token, now) && Turn(conversation).Some? && w.offered(0).Some? && own.call.Call?
    requires ForTools(Pending(Turn(conversation).value), w.offered(0).value) == [own]
    ensures ToolsSlot(token, now, conversation, w, 0)
         == Finish(token, now + 3, conversation + [AnswersTo([own], CallsOf(token, now, [own], w.outcomes))], false,
                   InTools([own]))
  {
    assert Pending(Turn(conversation).value) != [];
    assert RequestCheck([own], now + 1, 1) == now + 3;
  }

  /** The cancellation lands in a tools step that takes one request and leaves the other. */
  lemma CancelledToolsLeaveARequestOpen()
    ensures var end := Run(MACHINE, Some(3), 0, ASKED, [WORLD]);
            end == Ended(ASKED, ASKED + [OwnAnswer(Some(3), 1)], Some(InTools([OWN]))) && HasOpenIds(end.after)
  {
    OwnToolsSlot(Some(3), 1);
    assert Step(MACHINE, Some(3), 0, ASKED, WORLD)
        == Stepped(0, ASKED + [OwnAnswer(Some(3), 1)], true, Some(InTools([OWN])), 5);
    AfterOwnAnswer(OwnAnswer(Some(3), 1));
  }

  const ANSWERED := ASKED + [OwnAnswer(None, 1)]

  /** The cancellation lands while the inference lists the tools: the run ends and answers nothing. */
  lemma CancelledListingLeavesARequestOpen()
    ensures Run(MACHINE, Some(4), 0, ANSWERED, [WORLD]) == Ended(ANSWERED, ANSWERED, Some(ListingForInference))
    ensures HasOpenIds(ANSWERED)
  {
    AfterOwnAnswer(OwnAnswer(None, 1));
    SeenWhileListing(ANSWERED, WORLD);
  }

  lemma SeenWhileListing(conversation: seq<Message>, w: World)
    requires Turn(conversation).Some? && w.offered(0).Some? && w.applies(1) && w.listingFails.None?
    requires Pending(Turn(conversation).value) != []
    requires ForTools(Pending(Turn(conversation).value), w.offered(0).value) == []
    ensures Step(MACHINE, Some(4), 0, conversation, w) == NoStep(Some(ListingForInference))
  {
    assert Slot(Tools, Some(4), 0, 2, conversation, w, 0) == Goes(3, false);
    assert StepOver(SlotsOf(MACHINE, Some(4), conversation, w), 2, 3, 1, false) == NoStep(Some(ListingForInference));
  }

  /** One own and one foreign request, and a cancellation while the second step lists the tools: the
      tools step is applied twice in a row. */
  lemma ToolsStepCanBeTakenTwice()
    ensures var token, after := Some(6), ASKED + [OwnAnswer(Some(6), 1)];
            && Step(MACHINE, token, 0, ASKED, WORLD) == Stepped(0, after, false, None, 5)
            && IsStepOf(Step(MACHINE, token, 5, after, WORLD), 0)
  {
    var token: Token, after := Some(6), ASKED + [OwnAnswer(Some(6), 1)];
    OwnToolsSlot(token, 1);
    assert Step(MACHINE, token, 0, ASKED, WORLD) == Stepped(0, after, false, None, 5);
    AfterOwnAnswer(OwnAnswer(token, 1));
    ToolsStepTwiceExactlyWhen(MACHINE, token, 0, ASKED, WORLD, WORLD, 0, after, 5, 5);
  }
}

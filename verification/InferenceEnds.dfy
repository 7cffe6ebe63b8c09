/** What an inference leaves in the conversation, said of the replies and the token. */
module InferenceEnds {
  import opened Wrappers
  import opened AgentLoop
  import opened Cancellation
  import opened AgentMachine

  /** The poll before reply number `k`, or the one after the last, is the first to see the cancellation:
      what came before it stays, with the answers it leaves due. */
  ghost predicate IsCutOff(
    token: Token, now: nat, conversation: seq<Message>, replies: seq<Reply>, k: nat, r: SlotEnd) {
    && k <= |replies| && Sees(token, now + k) && (k > 0 ==> !Sees(token, now + k - 1))
    && r.Applies? && r.yieldsToClient && IsAnsweredEnd(conversation, replies[..k], r.conversation)
  }

  ghost predicate EndsCutOff(token: Token, now: nat, conversation: seq<Message>, replies: seq<Reply>, r: SlotEnd) {
    exists k :: IsCutOff(token, now, conversation, replies, k, r)
  }

  /** These replies, and one answer to all requests that are open after them, if there are any. */
  ghost predicate IsAnsweredEnd(conversation: seq<Message>, replies: seq<Reply>, after: seq<Message>) {
    Turn(conversation).Some? && var open := OpenIds(Turn(conversation).value + replies);
      after == conversation + replies + if open == [] then [] else [CancelledResponses(open)]
  }

  /** All replies and the error; the check behind the operation decides whether the client is next. */
  ghost predicate IsBrokenOff(
    token: Token, now: nat, conversation: seq<Message>, replies: seq<Reply>, error: Reply, r: SlotEnd) {
    && r.Applies? && r.conversation == conversation + replies + [error]
    && (r.yieldsToClient <==> Sees(token, now + |replies| + 1))
  }

  /** All replies, and the answers due if the check right after the stream sees the cancellation; nothing
      but blank text is replaced by a notice, unless the length limit was the reason. */
  ghost predicate IsStreamed(
    token: Token, now: nat, conversation: seq<Message>, replies: seq<Reply>, limitReached: bool, r: SlotEnd) {
    exists after ::
      && (if Sees(token, now + |replies| + 1) then IsAnsweredEnd(conversation, replies, conversation + after)
          else after == replies)
      && r.Applies?
      && if !limitReached && IsEmptyResponse(after)
         then r.yieldsToClient && r.conversation == conversation + [Message(Assistant, [Text("empty response")], true)]
         else r.conversation == conversation + after && (r.yieldsToClient <==> Sees(token, now + |replies| + 2))
  }

  ghost predicate IsInferred(token: Token, now: nat, conversation: seq<Message>, inferred: Inferred, r: SlotEnd) {
    match inferred
    case InferFails => r.Fails?
    case Refused(error) =>
      r.Applies? && r.conversation == conversation + [error] && (r.yieldsToClient <==> Sees(token, now))
    case Broken(replies, error) =>
      if Sees(token, now + |replies|) then EndsCutOff(token, now, conversation, replies, r)
      else IsBrokenOff(token, now, conversation, replies, error, r)
    case Streamed(replies, limitReached) =>
      if Sees(token, now + |replies|) then EndsCutOff(token, now, conversation, replies, r)
      else IsStreamed(token, now, conversation, replies, limitReached, r)
  }

  lemma AnsweredEnd(conversation: seq<Message>, replies: seq<Reply>)
    requires Turn(conversation).Some?
    ensures IsAnsweredEnd(conversation, replies,
                          conversation + (replies + CancelMessages(Turn(conversation).value + replies)))
  {
    var answers := CancelMessages(Turn(conversation).value + replies);
    assert conversation + (replies + answers) == conversation + replies + answers;
  }

  lemma CutOffEnd(
    token: Token, now: nat, conversation: seq<Message>, replies: seq<Reply>, next: nat, end: SlotEnd)
    requires Turn(conversation).Some? && Sees(token, now + |replies|)
    requires end == AgentMachine.Interrupted(conversation, Taken(token, now, replies), next)
    ensures EndsCutOff(token, now, conversation, replies, end)
  {
    var k := if token.value <= now then 0 else token.value - now;
    AnsweredEnd(conversation, replies[..k]);
    assert IsCutOff(token, now, conversation, replies, k, end);
  }

  lemma StreamedEnd(token: Token, now: nat, conversation: seq<Message>, replies: seq<Reply>, limitReached: bool)
    requires Turn(conversation).Some?
    ensures IsStreamed(token, now, conversation, replies, limitReached,
                       EndOfStream(token, now + |replies| + 1, conversation, replies, limitReached))
  {
    AnsweredEnd(conversation, replies);
    var late := Sees(token, now + |replies| + 1);
    var after := if late then replies + CancelMessages(Turn(conversation).value + replies) else replies;
  }

  lemma BrokenIsThis(
    token: Token, now: nat, conversation: seq<Message>, replies: seq<Reply>, error: Reply, end: SlotEnd)
    requires Turn(conversation).Some? && end == Infer(token, now, conversation, Broken(replies, error))
    ensures if Sees(token, now + |replies|) then EndsCutOff(token, now, conversation, replies, end)
            else IsBrokenOff(token, now, conversation, replies, error, end)
  {
    if Sees(token, now + |replies|) {
      CutOffEnd(token, now, conversation, replies, now + |replies| + 3, end);
    } else {
      assert conversation + (replies + [error]) == conversation + replies + [error];
    }
  }

  lemma StreamedIsThis(
    token: Token, now: nat, conversation: seq<Message>, replies: seq<Reply>, limitReached: bool, end: SlotEnd)
    requires Turn(conversation).Some? && end == Infer(token, now, conversation, Streamed(replies, limitReached))
    ensures if Sees(token, now + |replies|) then EndsCutOff(token, now, conversation, replies, end)
            else IsStreamed(token, now, conversation, replies, limitReached, end)
  {
    if Sees(token, now + |replies|) {
      CutOffEnd(token, now, conversation, replies, now + |replies| + 3, end);
    } else {
      StreamedEnd(token, now, conversation, replies, limitReached);
    }
  }

  /** What an inference leaves, however it ends. */
  lemma InferenceIsThis(token: Token, now: nat, conversation: seq<Message>, inferred: Inferred)
    requires Turn(conversation).Some?
    ensures IsInferred(token, now, conversation, inferred, Infer(token, now, conversation, inferred))
  {
    var end := Infer(token, now, conversation, inferred);
    match inferred {
      case Broken(replies, error) => BrokenIsThis(token, now, conversation, replies, error, end);
      case Streamed(replies, limitReached) => StreamedIsThis(token, now, conversation, replies, limitReached, end);
      case _ =>
    }
  }
}

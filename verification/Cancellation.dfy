/** What a cancelled turn owes to the tool requests it leaves behind. */
module Cancellation {
  import opened Wrappers
  import opened AgentLoop

  /** The ids requested, each at its first request. */
  function FirstIds(requests: seq<Request>): seq<string> {
    if requests == [] then []
    else
      var before := FirstIds(requests[..|requests| - 1]);
      var id := requests[|requests| - 1].id;
      if id in before then before else before + [id]
  }

  function Without(ids: seq<string>, answered: set<string>): seq<string> {
    if ids == [] then []
    else
      var before := Without(ids[..|ids| - 1], answered);
      if ids[|ids| - 1] in answered then before else before + [ids[|ids| - 1]]
  }

  /** The ids requested but not answered in `messages`, in order of first request. */
  function OpenIds(messages: seq<Message>): seq<string> {
    Without(FirstIds(Requests(messages)), AnsweredIds(messages))
  }

  lemma {:induction false} FirstIdsAreTheIds(requests: seq<Request>)
    ensures NoDuplicates(FirstIds(requests))
    ensures forall id :: id in FirstIds(requests) <==> id in Ids(requests)
  {
    if requests != [] {
      var init, last := requests[..|requests| - 1], requests[|requests| - 1];
      FirstIdsAreTheIds(init);
      forall id ensures id in Ids(requests) <==> id in Ids(init) || id == last.id {
        if id in Ids(requests) {
          var i :| 0 <= i < |requests| && requests[i].id == id;
          assert i < |init| ==> init[i].id == id;
        }
        if id in Ids(init) {
          var i :| 0 <= i < |init| && init[i].id == id;
          assert requests[i].id == id;
        }
        assert requests[|requests| - 1].id in Ids(requests);
      }
    }
  }

  lemma {:induction false} WithoutIsTheDifference(ids: seq<string>, answered: set<string>)
    requires NoDuplicates(ids)
    ensures NoDuplicates(Without(ids, answered))
    ensures forall id :: id in Without(ids, answered) <==> id in ids && id !in answered
  {
    if ids != [] {
      WithoutIsTheDifference(ids[..|ids| - 1], answered);
      assert ids == ids[..|ids| - 1] + [ids[|ids| - 1]];
    }
  }

  /** The open ids are exactly the requested minus the answered ones, each once. */
  lemma OpenIdsAreExact(messages: seq<Message>)
    ensures NoDuplicates(OpenIds(messages))
    ensures forall id :: id in OpenIds(messages) <==> id in Ids(Requests(messages)) && id !in AnsweredIds(messages)
  {
    FirstIdsAreTheIds(Requests(messages));
    WithoutIsTheDifference(FirstIds(Requests(messages)), AnsweredIds(messages));
  }

  /** Each id and the place of its first request, in the order of these places. */
  ghost predicate AreFirstAt(requests: seq<Request>, ids: seq<string>, at: seq<nat>) {
    && |at| == |ids|
    && (forall i | 0 <= i < |at| :: at[i] < |requests| && requests[at[i]].id == ids[i])
    && (forall i, j | 0 <= i < |at| && 0 <= j < at[i] :: requests[j].id != ids[i])
    && forall i, j | 0 <= i < j < |at| :: at[i] < at[j]
  }

  lemma StillFirst(requests: seq<Request>, ids: seq<string>, at: seq<nat>, last: Request)
    requires AreFirstAt(requests, ids, at)
    ensures AreFirstAt(requests + [last], ids, at)
  {
    forall i, j | 0 <= i < |at| && 0 <= j < at[i] ensures (requests + [last])[j].id != ids[i] {
      assert requests[j].id != ids[i];
    }
  }

  lemma OneMoreFirst(requests: seq<Request>, ids: seq<string>, at: seq<nat>, last: Request)
    requires AreFirstAt(requests, ids, at) && last.id !in Ids(requests)
    ensures AreFirstAt(requests + [last], ids + [last.id], at + [|requests|])
  {
    StillFirst(requests, ids, at, last);
    forall j | 0 <= j < |requests| ensures requests[j].id != last.id {
      assert requests[j].id in Ids(requests);
    }
  }

  lemma {:induction false} FirstIdsAt(requests: seq<Request>) returns (at: seq<nat>)
    ensures AreFirstAt(requests, FirstIds(requests), at)
  {
    at := [];
    if requests != [] {
      var init, last := requests[..|requests| - 1], requests[|requests| - 1];
      assert requests == init + [last];
      at := FirstIdsAt(init);
      FirstIdsAreTheIds(init);
      if last.id in FirstIds(init) {
        StillFirst(init, FirstIds(init), at, last);
      } else {
        OneMoreFirst(init, FirstIds(init), at, last);
        at := at + [|init|];
      }
    }
  }

  lemma {:induction false} WithoutAt(requests: seq<Request>, ids: seq<string>, at: seq<nat>, answered: set<string>)
    returns (at': seq<nat>)
    requires AreFirstAt(requests, ids, at)
    ensures AreFirstAt(requests, Without(ids, answered), at')
    ensures forall i | 0 <= i < |at'| :: at'[i] in at
  {
    at' := [];
    if ids != [] {
      var last := |ids| - 1;
      at' := WithoutAt(requests, ids[..last], at[..last], answered);
      if ids[last] !in answered {
        at' := at' + [at[last]];
      }
    }
  }

  /** The open ids come in the order of their first requests. */
  lemma OpenIdsAreInOrder(messages: seq<Message>) returns (at: seq<nat>)
    ensures AreFirstAt(Requests(messages), OpenIds(messages), at)
  {
    at := FirstIdsAt(Requests(messages));
    at := WithoutAt(Requests(messages), FirstIds(Requests(messages)), at, AnsweredIds(messages));
  }

  function CancelledResponse(id: string): Content { ToolResponse(id, CancelledBeforeExecution) }

  function CancelledResponses(ids: seq<string>): Message {
    Message(User, seq(|ids|, i requires 0 <= i < |ids| => CancelledResponse(ids[i])), true)
  }

  /** `cancellation_response`: one scan over the requests, with the ids seen and the answers not yet
      used up in sets. */
  method CancellationResponse(persisted: seq<Message>, pending: seq<Message>) returns (r: Option<Message>)
    ensures var ids := OpenIds(persisted + pending);
            r == if ids == [] then None else Some(CancelledResponses(ids))
    ensures r.Some? ==> r.value.role == User && r.value.userVisible
    ensures r.Some? ==> |r.value.content| == |OpenIds(persisted + pending)|
    ensures r.Some? ==> forall i | 0 <= i < |r.value.content| ::
              r.value.content[i] == ToolResponse(OpenIds(persisted + pending)[i], CancelledBeforeExecution)
  {
    var messages := persisted + pending;
    var requests := Requests(messages);
    var answered, requestIds := AnsweredIds(messages), {};
    var response: seq<Content> := [];
    ghost var open: seq<string> := [];
    assert requests[..0] == [];
    for i := 0 to |requests|
      invariant forall id :: id in requestIds <==> id in FirstIds(requests[..i])
      invariant forall id | id !in requestIds :: id in answered <==> id in AnsweredIds(messages)
      invariant open == Without(FirstIds(requests[..i]), AnsweredIds(messages))
      invariant |response| == |open| && forall k | 0 <= k < |open| :: response[k] == CancelledResponse(open[k])
    {
      var id := requests[i].id;
      assert requests[..i + 1][..i] == requests[..i];
      ghost var before := FirstIds(requests[..i]);
      if id !in requestIds {
        assert (before + [id])[..|before|] == before;
        requestIds := requestIds + {id};
        if id in answered {
          answered := answered - {id};
        } else {
          response := response + [CancelledResponse(id)];
          open := open + [id];
        }
      }
    }
    assert requests[..|requests|] == requests;
    if response == [] {
      return None;
    }
    assert response == CancelledResponses(open).content;
    r := Some(Message(User, response, true));
  }

  lemma SomeElement(ids: seq<string>)
    ensures ids != [] ==> exists id :: id in ids
  {
    if ids != [] {
      assert ids[0] in ids;
    }
  }

  /** Answering the open ids leaves none open. */
  lemma AnsweringLeavesNoneOpen(messages: seq<Message>)
    ensures OpenIds(messages + [CancelledResponses(OpenIds(messages))]) == []
  {
    var ids := OpenIds(messages);
    var m := CancelledResponses(ids);
    var longer := messages + [m];
    AppendedMessage(messages, m);
    AnswersHoldNoRequests(m.content);
    assert Requests(messages) + [] == Requests(messages);
    OpenIdsAreExact(messages);
    SomeElement(OpenIds(longer));
    OpenIdsAreExact(longer);
    forall i | 0 <= i < |ids| ensures ids[i] in ResponseIds(m.content) {
      assert m.content[i].ToolResponse? && m.content[i].id == ids[i];
    }
  }
}

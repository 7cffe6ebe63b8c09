/** The retry and resume loop of the download manager, over a disk and a remote that may answer
    anything at any time.

    Files are numbered: file `i` has a final path and a partial path, all of them distinct. */
module DownloadTransfer {
  import opened Wrappers

  newtype Byte = b: int | 0 <= b < 256
  type Bytes = seq<Byte>

  const MAX_RETRIES: nat := 10

  function Flatten(chunks: seq<Bytes>): Bytes {
    if chunks == [] then [] else chunks[0] + Flatten(chunks[1..])
  }

  /** What became of a GET: no response at all, or a status, the sizes the headers announce, the
      chunks of the body as they arrive, and whether the stream broke off after them. */
  datatype Response =
    | ConnectionError
    | Http(status: nat, contentRangeTotal: Option<nat>, contentLength: Option<nat>, chunks: seq<Bytes>, broken: bool)

  predicate IsSuccess(status: nat) { 200 <= status < 300 }

  predicate IsTransient(status: nat) { 500 <= status < 600 || status == 408 || status == 429 }

  predicate Delivers(rest: Bytes, r: Response)
    requires r.Http?
  {
    Flatten(r.chunks) <= rest && (!r.broken ==> Flatten(r.chunks) == rest)
  }

  /** An answer that agrees with a fixed `body`: 206 delivers the suffix from the requested offset
      and 200 the whole body (RFC 9110, sections 15.3.7 and 15.3.1), a stream that ends cleanly has
      delivered all of it, and announced sizes are the size of the body. */
  predicate Honest(body: Bytes, offset: nat, r: Response) {
    r.Http? ==>
      && (IsSuccess(r.status) ==> r.status == 200 || r.status == 206)
      && (r.status == 206 ==> 0 < offset <= |body| && Delivers(body[offset..], r))
      && (r.status == 200 ==> Delivers(body, r))
      && (r.contentRangeTotal.Some? ==> r.contentRangeTotal.value == |body|)
      && (r.contentLength.Some? && r.status == 200 ==> r.contentLength.value == |body|)
  }

  /** The server: the files it has, and whether its answers always agree with them. */
  class Remote {
    const bodies: seq<Bytes>
    const isHonest: bool
    /** The answers to the GET requests sent so far. */
    ghost var answers: seq<Response>

    constructor (bodies: seq<Bytes>, isHonest: bool)
      ensures this.bodies == bodies && this.isHonest == isHonest && answers == []
    {
      this.bodies, this.isHonest, answers := bodies, isHonest, [];
    }

    /** Any answer, except that 416 only comes in reply to a Range request (RFC 9110, section 15.5.17);
        a Range is requested from `offset` when it is positive. */
    method Get(i: nat, offset: nat) returns (r: Response)
      requires i < |bodies|
      modifies this
      ensures answers == old(answers) + [r]
      ensures r.Http? && r.status == 416 ==> offset > 0
      ensures isHonest ==> Honest(bodies[i], offset, r)
    {
      r := *;
      if (r.Http? && r.status == 416 && offset == 0) || (isHonest && !Honest(bodies[i], offset, r)) {
        r := ConnectionError;
      }
      answers := answers + [r];
    }

    /** The size a HEAD request reports; 0 when it fails or reports none. */
    method Head(i: nat) returns (size: nat)
      requires i < |bodies|
      ensures isHonest ==> size == 0 || size == |bodies[i]|
    {
      size := *;
      if isHonest && size != |bodies[i]| {
        size := 0;
      }
    }
  }

  /** The status of the download, which anyone may set to cancelled at any time. */
  class Watch {
    /** What was found by each look so far. */
    ghost var looks: seq<bool>

    constructor ()
      ensures looks == []
    {
      looks := [];
    }

    /** Whether the download is found cancelled at this moment. */
    method IsCancelled() returns (cancelled: bool)
      modifies this
      ensures looks == old(looks) + [cancelled]
    {
      cancelled := *;
      looks := looks + [cancelled];
    }
  }

  // ---------------------------------------------------------------- answers

  /** No connection, a request timeout, too many requests, a server error, or a body that breaks off. */
  ghost predicate FailsForNow(r: Response) {
    || r.ConnectionError?
    || r.status == 408 || r.status == 429 || 500 <= r.status <= 599
    || (200 <= r.status <= 299 && r.broken)
  }

  /** Any other status that is not a success; 416 is no refusal, it says that the range is wrong. */
  ghost predicate Refuses(r: Response) {
    && r.Http? && !(200 <= r.status <= 299)
    && r.status != 408 && r.status != 416 && r.status != 429 && !(500 <= r.status <= 599)
  }

  ghost predicate NoneRefuses(answers: seq<Response>) { forall i | 0 <= i < |answers| :: !Refuses(answers[i]) }

  ghost function Failures(answers: seq<Response>): nat {
    if answers == [] then 0
    else Failures(answers[..|answers| - 1]) + if FailsForNow(answers[|answers| - 1]) then 1 else 0
  }

  lemma OneMoreAnswer(answers: seq<Response>, r: Response)
    ensures Failures(answers + [r]) == Failures(answers) + if FailsForNow(r) then 1 else 0
    ensures NoneRefuses(answers + [r]) <==> NoneRefuses(answers) && !Refuses(r)
  {
    assert (answers + [r])[..|answers|] == answers;
    assert (answers + [r])[|answers|] == r;
    assert forall i | 0 <= i < |answers| :: (answers + [r])[i] == answers[i];
  }

  lemma NoneRefusesAdd(a: seq<Response>, b: seq<Response>)
    ensures NoneRefuses(a + b) <==> NoneRefuses(a) && NoneRefuses(b)
  {
    assert forall i | 0 <= i < |a| :: (a + b)[i] == a[i];
    assert forall i | 0 <= i < |b| :: (a + b)[|a| + i] == b[i];
  }

  lemma {:induction false} FailuresAdd(a: seq<Response>, b: seq<Response>)
    ensures Failures(a + b) == Failures(a) + Failures(b)
    decreases |b|
  {
    if b == [] {
      assert a + b == a;
    } else {
      var last := |b| - 1;
      FailuresAdd(a, b[..last]);
      assert a + b == (a + b[..last]) + [b[last]] && b == b[..last] + [b[last]];
      OneMoreAnswer(a + b[..last], b[last]);
    }
  }

  function Held(finals: map<nat, Bytes>, parts: map<nat, Bytes>, i: nat): nat {
    if i in finals then |finals[i]| else if i in parts then |parts[i]| else 0
  }

  /** The bytes held on disk for the first `n` files, a finished file counting for its partial one. */
  function Total(finals: map<nat, Bytes>, parts: map<nat, Bytes>, n: nat): nat {
    if n == 0 then 0 else Total(finals, parts, n - 1) + Held(finals, parts, n - 1)
  }

  class Disk {
    var finals: map<nat, Bytes>
    var parts: map<nat, Bytes>

    constructor (finals: map<nat, Bytes>, parts: map<nat, Bytes>)
      ensures this.finals == finals && this.parts == parts
    {
      this.finals := finals;
      this.parts := parts;
    }

    ghost function Bytes(n: nat): nat
      reads this
    {
      Total(finals, parts, n)
    }

    /** Removing a partial file may fail, and the failure is ignored. */
    method RemovePart(i: nat)
      modifies this`parts
      ensures parts == old(parts) || parts == old(parts) - {i}
    {
      var works: bool := *;
      if works {
        parts := parts - {i};
      }
    }

    /** Opens a partial file for appending, created if need be, cut to `length`. */
    method OpenPart(i: nat, length: nat)
      requires length > 0 ==> i in parts && |parts[i]| == length
      modifies this`parts
      ensures i in parts && |parts[i]| == length && parts == old(parts)[i := parts[i]]
      ensures length > 0 ==> parts == old(parts)
    {
      var content := if i in parts then parts[i] else [];
      if |content| != length {
        content := content[..length];
      }
      parts := parts[i := content];
    }

    method Append(i: nat, chunk: Bytes)
      requires i in parts
      modifies this`parts
      ensures parts == old(parts)[i := old(parts)[i] + chunk]
    {
      parts := parts[i := parts[i] + chunk];
    }

    method Promote(i: nat)
      requires i in parts
      modifies this
      ensures finals == old(finals)[i := old(parts)[i]] && parts == old(parts) - {i}
    {
      finals, parts := finals[i := parts[i]], parts - {i};
    }
  }

  ghost predicate SameBut(i: nat, before: map<nat, Bytes>, after: map<nat, Bytes>) {
    forall j | j != i :: (j in before <==> j in after) && (j in before ==> before[j] == after[j])
  }

  /** Changing one file changes the total by what changed in that file. */
  lemma {:induction false} TotalWithout(
    f: map<nat, Bytes>, p: map<nat, Bytes>, f': map<nat, Bytes>, p': map<nat, Bytes>, i: nat, n: nat)
    requires SameBut(i, f, f') && SameBut(i, p, p')
    ensures Total(f', p', n) - (if i < n then Held(f', p', i) else 0)
         == Total(f, p, n) - (if i < n then Held(f, p, i) else 0)
  {
    if n > 0 {
      TotalWithout(f, p, f', p', i, n - 1);
    }
  }

  lemma {:induction false} HeldIsAtMostTotal(f: map<nat, Bytes>, p: map<nat, Bytes>, i: nat, n: nat)
    requires i < n
    ensures Held(f, p, i) <= Total(f, p, n)
  {
    if i < n - 1 {
      HeldIsAtMostTotal(f, p, i, n - 1);
    }
  }

  /** What the loop knows of the partial file: `fileBytes` is its length unless it is to be started
      over, and it is a prefix of the body if it was one and the server is honest. */
  ghost predicate PartIs(parts: map<nat, Bytes>, i: nat, fileBytes: nat, body: Bytes, honest: bool) {
    && (fileBytes > 0 ==> i in parts && |parts[i]| == fileBytes)
    && (honest && i in parts ==> parts[i] <= body)
  }

  /** Appends the chunks of a response; `finished` unless it was cancelled on the way. */
  method ReceiveBody(
    disk: Disk, watch: Watch, i: nat, r: Response, fileBytes: nat, cumulative: nat, ghost body: Bytes,
    ghost honest: bool)
    returns (finished: bool, fileBytes': nat, cumulative': nat, ghost looks: seq<bool>)
    requires r.Http? && i in disk.parts && |disk.parts[i]| == fileBytes
    requires honest ==> disk.parts[i] <= body && Delivers(body[fileBytes..], r)
    modifies disk`parts, watch
    ensures watch.looks == old(watch.looks) + looks && finished == (true !in looks)
    ensures SameBut(i, old(disk.parts), disk.parts)
    ensures fileBytes' >= fileBytes && cumulative' - fileBytes' == cumulative - fileBytes
    ensures honest && i in disk.parts ==> disk.parts[i] <= body
    ensures finished ==> i in disk.parts && |disk.parts[i]| == fileBytes'
    ensures finished ==> disk.parts[i] == old(disk.parts[i]) + Flatten(r.chunks)
    ensures finished && honest && !r.broken ==> disk.parts[i] == body
  {
    fileBytes', cumulative' := fileBytes, cumulative;
    looks := [];
    assert disk.parts[i] + Flatten([]) == disk.parts[i];
    for k := 0 to |r.chunks|
      invariant watch.looks == old(watch.looks) + looks && true !in looks
      invariant SameBut(i, old(disk.parts), disk.parts)
      invariant fileBytes' >= fileBytes && cumulative' - fileBytes' == cumulative - fileBytes
      invariant i in disk.parts && |disk.parts[i]| == fileBytes'
      invariant disk.parts[i] == old(disk.parts[i]) + Flatten(r.chunks[..k])
      invariant honest ==> disk.parts[i] <= body
    {
      FlattenPrefix(r.chunks, k);
      FlattenPrefix(r.chunks, k + 1);
      FlattenStep(r.chunks, k);
      var cancelled := watch.IsCancelled();
      looks := looks + [cancelled];
      if cancelled {
        disk.RemovePart(i);
        return false, fileBytes', cumulative', looks;
      }
      var chunk := r.chunks[k];
      disk.Append(i, chunk);
      fileBytes' := fileBytes' + |chunk|;
      cumulative' := cumulative' + |chunk|;
    }
    assert r.chunks[..|r.chunks|] == r.chunks;
    finished := true;
  }

  lemma {:induction false} FlattenStep(chunks: seq<Bytes>, k: nat)
    requires k < |chunks|
    ensures Flatten(chunks[..k + 1]) == Flatten(chunks[..k]) + chunks[k]
    decreases k
  {
    if k == 0 {
      assert chunks[..1][1..] == [] && chunks[..0] == [];
      assert chunks[0] + [] == [] + chunks[0];
    } else {
      FlattenStep(chunks[1..], k - 1);
      assert chunks[..k + 1][1..] == chunks[1..][..k];
      assert chunks[..k][1..] == chunks[1..][..k - 1];
    }
  }

  lemma {:induction false} FlattenPrefix(chunks: seq<Bytes>, k: nat)
    requires k <= |chunks|
    ensures Flatten(chunks[..k]) <= Flatten(chunks)
    decreases |chunks| - k
  {
    if k == |chunks| {
      assert chunks[..k] == chunks;
    } else {
      FlattenStep(chunks, k);
      FlattenPrefix(chunks, k + 1);
    }
  }

  /** How one request ends: the file is complete, another attempt is due, the partial file was
      dropped after a 416, or the download fails. */
  datatype Outcome = Complete | Retry | StartOver | GiveUp

  ghost predicate IsOutcome(r: Response, looks: seq<bool>, outcome: Outcome) {
    && (outcome.GiveUp? <==> Refuses(r) || true in looks)
    && (outcome.Retry? <==> FailsForNow(r) && true !in looks)
  }

  /** What is in the partial file after an answer that is not given up: what arrived, behind what was
      there unless the file started over. */
  ghost predicate Keeps(before: map<nat, Bytes>, i: nat, fileBytes: nat, r: Response, after: map<nat, Bytes>) {
    if r.Http? && 200 <= r.status <= 299 then
      && (r.status != 200 && fileBytes > 0 ==> i in before)
      && i in after && after[i] == (if r.status == 200 || fileBytes == 0 then [] else before[i]) + Flatten(r.chunks)
    else (r.Http? && r.status == 416) || after == before
  }

  /** A range that is wrong: the file is complete if it has the size announced, and starts over if not. */
  ghost predicate JudgesRange(r: Response, fileBytes: nat, fileTotal: nat, outcome: Outcome) {
    r.Http? && r.status == 416 ==> outcome == if fileBytes == fileTotal > 0 then Complete else StartOver
  }

  /** One GET and what is done with its answer. */
  method Attempt(
    disk: Disk, remote: Remote, watch: Watch, i: nat, fileBytes: nat, fileTotal: nat, cumulative: nat,
    ghost honest: bool)
    returns (outcome: Outcome, fileBytes': nat, fileTotal': nat, cumulative': nat, ghost response: Response,
      ghost looks: seq<bool>)
    requires i < |remote.bodies| && (honest ==> remote.isHonest)
    requires PartIs(disk.parts, i, fileBytes, remote.bodies[i], honest) && fileBytes <= cumulative
    requires honest && fileTotal > 0 ==> fileTotal == |remote.bodies[i]|
    modifies disk`parts, remote, watch
    ensures remote.answers == old(remote.answers) + [response] && watch.looks == old(watch.looks) + looks
    ensures IsOutcome(response, looks, outcome) && JudgesRange(response, fileBytes, fileTotal, outcome)
    ensures !outcome.GiveUp? ==> Keeps(old(disk.parts), i, fileBytes, response, disk.parts)
    ensures SameBut(i, old(disk.parts), disk.parts)
    ensures cumulative' - fileBytes' == cumulative - fileBytes
    ensures honest && fileTotal' > 0 ==> fileTotal' == |remote.bodies[i]|
    ensures honest && i in disk.parts ==> disk.parts[i] <= remote.bodies[i]
    ensures outcome.Complete? ==>
              i in disk.parts && |disk.parts[i]| == fileBytes' && (honest ==> disk.parts[i] == remote.bodies[i])
    ensures outcome.Retry? ==> PartIs(disk.parts, i, fileBytes', remote.bodies[i], honest)
    ensures outcome.StartOver? ==> fileBytes > 0 && fileBytes' == 0
  {
    fileBytes', fileTotal', cumulative' := fileBytes, fileTotal, cumulative;
    var answer := remote.Get(i, fileBytes);
    response, looks := answer, [];

    if answer.ConnectionError? {
      return Retry, fileBytes', fileTotal', cumulative', response, looks;
    }
    if answer.status == 416 {
      if fileTotal > 0 && fileBytes == fileTotal {
        return Complete, fileBytes', fileTotal', cumulative', response, looks;
      }
      cumulative' := SaturatingSub(cumulative', fileBytes');
      fileBytes' := 0;
      disk.RemovePart(i);
      return StartOver, fileBytes', fileTotal', cumulative', response, looks;
    }
    if !IsSuccess(answer.status) {
      outcome := if IsTransient(answer.status) then Retry else GiveUp;
      return;
    }
    if fileBytes' > 0 && answer.status == 200 {
      cumulative' := SaturatingSub(cumulative', fileBytes');
      fileBytes' := 0;
      disk.RemovePart(i);
    }
    if fileTotal' == 0 {
      var announced := if fileBytes' > 0 then answer.contentRangeTotal else answer.contentLength;
      if announced.Some? {
        fileTotal' := announced.value;
      }
    }
    disk.OpenPart(i, fileBytes');
    var finished;
    finished, fileBytes', cumulative', looks :=
      ReceiveBody(disk, watch, i, answer, fileBytes', cumulative', remote.bodies[i], honest);
    outcome := if !finished then GiveUp else if answer.broken then Retry else Complete;
  }

  /** The answers and looks of one round, by how it ended. */
  ghost predicate IsRound(answers: seq<Response>, looks: seq<bool>, outcome: Outcome) {
    && (outcome.GiveUp? <==> !NoneRefuses(answers) || true in looks)
    && (outcome.Retry? <==> Failures(answers) == 1 && true !in looks)
    && Failures(answers) <= 1
  }

  /** A look at whether the download is cancelled, and an attempt if it is not. */
  method Round(
    disk: Disk, remote: Remote, watch: Watch, i: nat, fileBytes: nat, fileTotal: nat, cumulative: nat,
    ghost honest: bool)
    returns (outcome: Outcome, fileBytes': nat, fileTotal': nat, cumulative': nat, ghost answers: seq<Response>,
      ghost looks: seq<bool>)
    requires i < |remote.bodies| && (honest ==> remote.isHonest)
    requires PartIs(disk.parts, i, fileBytes, remote.bodies[i], honest) && fileBytes <= cumulative
    requires honest && fileTotal > 0 ==> fileTotal == |remote.bodies[i]|
    modifies disk`parts, remote, watch
    ensures remote.answers == old(remote.answers) + answers && watch.looks == old(watch.looks) + looks
    ensures |answers| <= 1 && IsRound(answers, looks, outcome)
    ensures SameBut(i, old(disk.parts), disk.parts)
    ensures cumulative' - fileBytes' == cumulative - fileBytes
    ensures honest && fileTotal' > 0 ==> fileTotal' == |remote.bodies[i]|
    ensures honest && i in disk.parts ==> disk.parts[i] <= remote.bodies[i]
    ensures outcome.Complete? ==>
              i in disk.parts && |disk.parts[i]| == fileBytes' && (honest ==> disk.parts[i] == remote.bodies[i])
    ensures outcome.Retry? ==> PartIs(disk.parts, i, fileBytes', remote.bodies[i], honest)
    ensures outcome.StartOver? ==> fileBytes > 0 && fileBytes' == 0
  {
    answers := [];
    var cancelled := watch.IsCancelled();
    looks := [cancelled];
    if cancelled {
      disk.RemovePart(i);
      return GiveUp, fileBytes, fileTotal, cumulative, answers, looks;
    }
    ghost var response, looks';
    outcome, fileBytes', fileTotal', cumulative', response, looks' :=
      Attempt(disk, remote, watch, i, fileBytes, fileTotal, cumulative, honest);
    answers, looks := [response], looks + looks';
    RoundOfOne(response, looks', outcome);
  }

  lemma RoundOfOne(response: Response, looks: seq<bool>, outcome: Outcome)
    requires IsOutcome(response, looks, outcome)
    ensures IsRound([response], [false] + looks, outcome)
  {
    OneMoreAnswer([], response);
    assert [] + [response] == [response];
  }

  /** Before the first request: a partial file of the right size is promoted, an oversized one dropped. */
  method Prepare(disk: Disk, remote: Remote, i: nat, cumulative: nat, ghost honest: bool)
    returns (complete: bool, fileBytes: nat, fileTotal: nat, cumulative': nat)
    requires i < |remote.bodies|
    requires honest ==> remote.isHonest && (i in disk.parts ==> disk.parts[i] <= remote.bodies[i])
    requires Held(map[], disk.parts, i) <= cumulative
    modifies disk`parts
    ensures SameBut(i, old(disk.parts), disk.parts)
    ensures cumulative' - fileBytes == cumulative - Held(map[], old(disk.parts), i)
    ensures PartIs(disk.parts, i, fileBytes, remote.bodies[i], honest)
    ensures honest && fileTotal > 0 ==> fileTotal == |remote.bodies[i]|
    ensures complete == (Held(map[], old(disk.parts), i) == fileTotal > 0)
    ensures complete ==> fileBytes == fileTotal && disk.parts == old(disk.parts)
    ensures var held := Held(map[], old(disk.parts), i); fileBytes == if held > fileTotal > 0 then 0 else held
  {
    cumulative' := cumulative;
    fileBytes := if i in disk.parts then |disk.parts[i]| else 0;
    fileTotal := remote.Head(i);
    complete := fileTotal > 0 && fileBytes == fileTotal;
    if fileTotal > 0 && fileBytes > fileTotal {
      cumulative' := SaturatingSub(cumulative', fileBytes);
      fileBytes := 0;
      disk.RemovePart(i);
    }
  }

  /** The server is honest and the partial file, if any, is a prefix of what it has. */
  ghost predicate StartsRight(disk: Disk, remote: Remote, i: nat)
    reads disk
  {
    remote.isHonest && i < |remote.bodies| && (i in disk.parts ==> disk.parts[i] <= remote.bodies[i])
  }

  /** A file fails to download exactly if a look finds the download cancelled, an answer refuses it, or
      eleven answers fail for now, which is as many as there can be. */
  ghost predicate Succeeds(answers: seq<Response>, looks: seq<bool>, ok: bool) {
    && (!ok <==> true in looks || !NoneRefuses(answers) || Failures(answers) == 11)
    && Failures(answers) <= 11
  }

  ghost predicate GoesOn(answers: seq<Response>, looks: seq<bool>, retries: nat) {
    true !in looks && NoneRefuses(answers) && Failures(answers) == retries
  }

  lemma OneMoreRound(
    answers: seq<Response>, looks: seq<bool>, more: seq<Response>, moreLooks: seq<bool>, outcome: Outcome,
    retries: nat)
    requires GoesOn(answers, looks, retries) && IsRound(more, moreLooks, outcome)
    ensures outcome.Complete? || outcome.StartOver? ==> GoesOn(answers + more, looks + moreLooks, retries)
    ensures outcome.Retry? ==> GoesOn(answers + more, looks + moreLooks, retries + 1)
    ensures outcome.Complete? && retries <= 10 ==> Succeeds(answers + more, looks + moreLooks, true)
    ensures outcome.GiveUp? && retries <= 10 ==> Succeeds(answers + more, looks + moreLooks, false)
    ensures outcome.Retry? && retries == 10 ==> Succeeds(answers + more, looks + moreLooks, false)
  {
    FailuresAdd(answers, more);
    NoneRefusesAdd(answers, more);
  }

  lemma LastLook(answers: seq<Response>, looks: seq<bool>, retries: nat)
    requires GoesOn(answers, looks, retries) && retries <= 10
    ensures Succeeds(answers, looks + [true], false) && GoesOn(answers, looks + [false], retries)
  {
    assert (looks + [true])[|looks|];
  }

  /** The loop: attempts until the partial file is complete or the download fails. */
  method Transfer(
    disk: Disk, remote: Remote, watch: Watch, i: nat, fileBytes: nat, fileTotal: nat, cumulative: nat,
    ghost honest: bool)
    returns (complete: bool, fileBytes': nat, cumulative': nat, ghost answers: seq<Response>, ghost looks: seq<bool>)
    requires i < |remote.bodies| && (honest ==> remote.isHonest)
    requires PartIs(disk.parts, i, fileBytes, remote.bodies[i], honest) && fileBytes <= cumulative
    requires honest && fileTotal > 0 ==> fileTotal == |remote.bodies[i]|
    modifies disk`parts, remote, watch
    ensures remote.answers == old(remote.answers) + answers && watch.looks == old(watch.looks) + looks
    ensures |answers| <= 22 && Succeeds(answers, looks, complete)
    ensures SameBut(i, old(disk.parts), disk.parts)
    ensures cumulative' - fileBytes' == cumulative - fileBytes
    ensures honest && i in disk.parts ==> disk.parts[i] <= remote.bodies[i]
    ensures complete ==>
              i in disk.parts && |disk.parts[i]| == fileBytes' && (honest ==> disk.parts[i] == remote.bodies[i])
  {
    var retries: nat, total := 0, fileTotal;
    fileBytes', cumulative', complete, answers, looks := fileBytes, cumulative, false, [], [];
    while true
      invariant SameBut(i, old(disk.parts), disk.parts)
      invariant cumulative' - fileBytes' == cumulative - fileBytes
      invariant honest && total > 0 ==> total == |remote.bodies[i]|
      invariant PartIs(disk.parts, i, fileBytes', remote.bodies[i], honest)
      invariant retries <= MAX_RETRIES && !complete
      invariant remote.answers == old(remote.answers) + answers && watch.looks == old(watch.looks) + looks
      invariant |answers| <= 2 * retries + if fileBytes' == 0 then 1 else 0
      invariant GoesOn(answers, looks, retries)
      decreases MAX_RETRIES - retries, fileBytes' > 0
    {
      var outcome;
      ghost var more, moreLooks;
      outcome, fileBytes', total, cumulative', more, moreLooks :=
        Round(disk, remote, watch, i, fileBytes', total, cumulative', honest);
      OneMoreRound(answers, looks, more, moreLooks, outcome, retries);
      answers, looks := answers + more, looks + moreLooks;
      if outcome.Complete? || outcome.GiveUp? {
        complete := outcome.Complete?;
        return;
      }
      if outcome.Retry? {
        if retries >= MAX_RETRIES {
          return;
        }
        retries := retries + 1;
        var cancelledAsleep := watch.IsCancelled();
        LastLook(answers, looks, retries);
        looks := looks + [cancelledAsleep];
        if cancelledAsleep {
          return;
        }
      }
    }
  }

  /** Downloads one file, resuming from its partial file.

      Whatever the remote answers: at most 22 requests are sent, only this file changes, and the
      running total keeps agreeing with the disk.  If moreover the server is honest and the partial
      file was a prefix of what it has, a success leaves exactly that at the destination and a
      failure leaves at most a prefix of it in the partial file. */
  method DownloadOneFile(disk: Disk, remote: Remote, watch: Watch, i: nat, cumulative: nat, ghost n: nat)
    returns (ok: bool, cumulative': nat, ghost answers: seq<Response>, ghost looks: seq<bool>)
    requires i < n <= |remote.bodies| && i !in disk.finals && cumulative == disk.Bytes(n)
    modifies disk, remote, watch
    ensures remote.answers == old(remote.answers) + answers && watch.looks == old(watch.looks) + looks
    ensures |answers| <= 22 && Succeeds(answers, looks, ok)
    ensures SameBut(i, old(disk.finals), disk.finals) && SameBut(i, old(disk.parts), disk.parts)
    ensures ok == (i in disk.finals)
    ensures ok ==> i !in disk.parts && cumulative' == disk.Bytes(n)
    ensures old(StartsRight(disk, remote, i)) && ok ==> disk.finals[i] == remote.bodies[i]
    ensures old(StartsRight(disk, remote, i)) && i in disk.parts ==> disk.parts[i] <= remote.bodies[i]
  {
    ghost var honest := StartsRight(disk, remote, i);
    HeldIsAtMostTotal(disk.finals, disk.parts, i, n);
    ghost var finals, parts := disk.finals, disk.parts;
    var complete, fileBytes, fileTotal;
    complete, fileBytes, fileTotal, cumulative' := Prepare(disk, remote, i, cumulative, honest);
    answers, looks := [], [];
    if !complete {
      complete, fileBytes, cumulative', answers, looks :=
        Transfer(disk, remote, watch, i, fileBytes, fileTotal, cumulative', honest);
      if !complete {
        return false, cumulative', answers, looks;
      }
    }
    disk.Promote(i);
    TotalWithout(finals, parts, disk.finals, disk.parts, i, n);
    ok := true;
  }

  method PreScan(disk: Disk, n: nat) returns (cumulative: nat)
    ensures cumulative == disk.Bytes(n)
  {
    cumulative := 0;
    for i := 0 to n
      invariant cumulative == disk.Bytes(i)
    {
      if i in disk.finals {
        cumulative := cumulative + |disk.finals[i]|;
      } else if i in disk.parts {
        cumulative := cumulative + |disk.parts[i]|;
      }
    }
  }

  /** A failure has one of the three causes; there is none of the first two in a success. */
  ghost predicate AllSucceed(answers: seq<Response>, looks: seq<bool>, n: nat, ok: bool) {
    && (ok ==> true !in looks && NoneRefuses(answers) && Failures(answers) <= 10 * n)
    && (!ok ==> true in looks || !NoneRefuses(answers) || Failures(answers) >= 11)
  }

  lemma OneMoreFile(
    answers: seq<Response>, looks: seq<bool>, more: seq<Response>, moreLooks: seq<bool>, n: nat, ok: bool)
    requires AllSucceed(answers, looks, n, true) && Succeeds(more, moreLooks, ok)
    ensures AllSucceed(answers + more, looks + moreLooks, n + 1, ok)
  {
    FailuresAdd(answers, more);
    NoneRefusesAdd(answers, more);
  }

  /** Downloads the files one after the other under one running total.

      On success every file is there, the total is the sum of their sizes, and a file fetched now
      from an honest server is the one the server has, unless its partial file was something else. */
  method DownloadFilesSequentially(disk: Disk, remote: Remote, watch: Watch, n: nat)
    returns (ok: bool, cumulative: nat, ghost answers: seq<Response>, ghost looks: seq<bool>)
    requires n == |remote.bodies|
    modifies disk, remote, watch
    ensures remote.answers == old(remote.answers) + answers && watch.looks == old(watch.looks) + looks
    ensures |answers| <= 22 * n && AllSucceed(answers, looks, n, ok)
    ensures forall j | j in old(disk.finals) :: j in disk.finals && disk.finals[j] == old(disk.finals)[j]
    ensures forall j: nat | j in disk.finals && j !in old(disk.finals) ::
              j < n && (old(StartsRight(disk, remote, j)) ==> disk.finals[j] == remote.bodies[j])
    ensures ok ==> cumulative == disk.Bytes(n) && forall j | 0 <= j < n :: j in disk.finals
  {
    cumulative := PreScan(disk, n);
    answers, looks := [], [];
    for i := 0 to n
      invariant remote.answers == old(remote.answers) + answers && watch.looks == old(watch.looks) + looks
      invariant |answers| <= 22 * i && AllSucceed(answers, looks, i, true)
      invariant cumulative == disk.Bytes(n)
      invariant forall j | j in old(disk.finals) :: j in disk.finals && disk.finals[j] == old(disk.finals)[j]
      invariant forall j: nat | j in disk.finals && j !in old(disk.finals) ::
                  j < i && (old(StartsRight(disk, remote, j)) ==> disk.finals[j] == remote.bodies[j])
      invariant forall j | j >= i && j in disk.parts ::
                  j in old(disk.parts) && disk.parts[j] == old(disk.parts)[j]
      invariant forall j | 0 <= j < i :: j in disk.finals
    {
      var cancelled := watch.IsCancelled();
      looks := looks + [cancelled];
      if cancelled {
        return false, cumulative, answers, looks;
      }
      if i in disk.finals {
        continue;
      }
      ghost var more, moreLooks;
      ok, cumulative, more, moreLooks := DownloadOneFile(disk, remote, watch, i, cumulative, n);
      OneMoreFile(answers, looks, more, moreLooks, i, ok);
      answers, looks := answers + more, looks + moreLooks;
      if !ok {
        return;
      }
    }
    ok := true;
  }

  /** What the total is once every file is there. */
  function SumOfSizes(finals: map<nat, Bytes>, n: nat): nat {
    if n == 0 then 0 else SumOfSizes(finals, n - 1) + if n - 1 in finals then |finals[n - 1]| else 0
  }

  lemma {:induction false} TotalOfFinished(finals: map<nat, Bytes>, parts: map<nat, Bytes>, n: nat)
    requires forall j | 0 <= j < n :: j in finals
    ensures Total(finals, parts, n) == SumOfSizes(finals, n)
  {
    if n > 0 {
      TotalOfFinished(finals, parts, n - 1);
    }
  }
}

/** In which order the candidates of a compaction response are tried. */
module CandidateOrder {
  import opened JsonRepair
  import opened StructuredSummary

  /** The places right behind a terminator, in order; the start of the text when there is none. */
  ghost predicate AreCuts(text: string, cuts: seq<nat>) {
    if forall p: nat :: !OccursAt(text, "</analysis>", p) then cuts == [0]
    else
      && (forall i, j | 0 <= i < j < |cuts| :: cuts[i] < cuts[j])
      && forall cut: nat :: cut in cuts <==> IsCut(text, cut)
  }

  /** The objects at the cut, or behind a fence after it, that contain every terminator behind the cut:
      the last one first. */
  ghost predicate IsListAt(text: string, cut: nat, ranges: seq<Range>) {
    && (forall i, j | 0 <= i < j < |ranges| :: ranges[i].start > ranges[j].start)
    && forall x :: x in ranges <==> StandsAtAPlace(text, cut, x) && ContainsAllBehind(text, cut, x)
  }

  /** Those of the last cut first. */
  ghost predicate ListedFromLast(text: string, cuts: seq<nat>, ranges: seq<Range>) {
    if cuts == [] then ranges == []
    else
      var last := |cuts| - 1;
      exists k | 0 <= k <= |ranges| ::
        IsListAt(text, cuts[last], ranges[..k]) && ListedFromLast(text, cuts[..last], ranges[k..])
  }

  /** The object at the start of the text, if there is one. */
  ghost predicate IsFallback(text: string, ranges: seq<Range>) {
    |ranges| <= 1 && forall x :: x in ranges <==> StandsAt(text, 0, x)
  }

  ghost predicate DiffersFromBefore(text: string, ranges: seq<Range>, i: nat)
    requires i < |ranges|
  {
    i == 0 || Content(text, ranges[i]) != Content(text, ranges[i - 1])
  }

  /** What is kept, and where it was. */
  ghost predicate KeptAt(ranges: seq<Range>, kept: seq<Range>, at: seq<nat>) {
    && |at| == |kept|
    && (forall i | 0 <= i < |at| :: at[i] < |ranges| && kept[i] == ranges[at[i]])
    && forall i, j | 0 <= i < j < |at| :: at[i] < at[j]
  }

  ghost predicate AreFirsts(text: string, ranges: seq<Range>, at: seq<nat>) {
    forall i: nat | i < |ranges| :: i in at <==> DiffersFromBefore(text, ranges, i)
  }

  /** Kept is everything whose content differs from that just before it. */
  ghost predicate KeepsFirsts(text: string, ranges: seq<Range>, kept: seq<Range>, at: seq<nat>) {
    KeptAt(ranges, kept, at) && AreFirsts(text, ranges, at)
  }

  // ---------------------------------------------------------------- one cut

  ghost predicate Ascend(positions: seq<nat>, gap: nat) {
    forall i, j | 0 <= i < j < |positions| :: positions[i] + gap <= positions[j]
  }

  lemma {:induction false} MatchesAscend(text: string, pattern: string, from: nat, limit: nat)
    requires from <= limit <= |text| && pattern != []
    ensures Ascend(MatchIndices(text, pattern, from, limit), |pattern|)
    decreases limit - from
  {
    if from + |pattern| <= limit {
      if OccursAt(text, pattern, from) {
        MatchesAscend(text, pattern, from + |pattern|, limit);
      } else {
        MatchesAscend(text, pattern, from + 1, limit);
      }
    }
  }

  ghost predicate Descend(ranges: seq<Range>) {
    forall i, j | 0 <= i < j < |ranges| :: ranges[i].start > ranges[j].start
  }

  lemma {:induction false} KeptDescend(text: string, ranges: seq<Range>, count: nat)
    requires Descend(ranges)
    ensures Descend(KeepWith(text, ranges, count))
  {
    if ranges != [] {
      var rest := KeepWith(text, ranges[1..], count);
      KeptDescend(text, ranges[1..], count);
      forall x | x in rest ensures x.start < ranges[0].start {
        assert x in ranges[1..];
      }
    }
  }

  /** White space ends before a fence. */
  lemma StartsBeforeFence(text: string, at: nat, fence: nat, x: Range)
    requires at <= fence && OccursAt(text, FENCE, fence) && x in LeadingRange(text, at)
    ensures x.start <= fence
  {
    var tail := text[at..];
    assert text[fence] == FENCE[0] == '`';
    assert tail[fence - at] == text[fence];
    assert !IsWhitespace(tail[fence - at]);
  }

  lemma JoinDescending(a: seq<Range>, b: seq<Range>, between: nat)
    requires Descend(a) && Descend(b)
    requires (forall x | x in a :: between < x.start) && forall x | x in b :: x.start <= between
    ensures Descend(a + b)
  {
    forall i, j | 0 <= i < j < |a + b| ensures (a + b)[i].start > (a + b)[j].start {
      if i < |a| <= j {
        assert a[i] in a && b[j - |a|] in b;
      }
    }
  }

  ghost predicate AreFences(text: string, cut: nat, fences: seq<nat>) {
    Ascend(fences, |FENCE|) && forall i | 0 <= i < |fences| :: cut <= fences[i] && OccursAt(text, FENCE, fences[i])
  }

  lemma FoundStartsBefore(text: string, fences: seq<nat>, fence: nat, x: Range)
    requires OccursAt(text, FENCE, fence) && forall i | 0 <= i < |fences| :: fences[i] + |FENCE| <= fence
    requires x in FromLast(BehindFence(text), fences)
    ensures x.start <= fence
  {
    var earlier := FoundAt(BehindFence(text), fences, x);
    StartsBeforeFence(text, earlier + |FENCE|, fence, x);
  }

  /** What is found behind the last fence starts after it, and the rest before it. */
  lemma BesideTheLastFence(text: string, cut: nat, fences: seq<nat>, earlier: seq<nat>, fence: nat, x: Range)
    requires AreFences(text, cut, fences) && fences == earlier + [fence]
    ensures x in LeadingRange(text, fence + |FENCE|) ==> fence < x.start
    ensures x in FromLast(BehindFence(text), earlier) || x in LeadingRange(text, cut) ==> x.start <= fence
  {
    assert fences[|earlier|] == fence && forall i | 0 <= i < |earlier| :: earlier[i] == fences[i];
    if x in LeadingRange(text, fence + |FENCE|) {
      RangesHoldObjects(text, fence + |FENCE|, x);
    }
    if x in LeadingRange(text, cut) {
      StartsBeforeFence(text, cut, fence, x);
    }
    if x in FromLast(BehindFence(text), earlier) {
      FoundStartsBefore(text, earlier, fence, x);
    }
  }

  lemma OneMoreFence(
    text: string, cut: nat, fences: seq<nat>, earlier: seq<nat>, fence: nat, first: seq<Range>, rest: seq<Range>)
    requires AreFences(text, cut, fences) && fences == earlier + [fence]
    requires first == LeadingRange(text, fence + |FENCE|)
    requires rest == FoundBehind(text, cut, earlier) && Descend(rest)
    ensures Descend(first + rest)
  {
    forall x ensures (x in first ==> fence < x.start) && (x in rest ==> x.start <= fence) {
      BesideTheLastFence(text, cut, fences, earlier, fence, x);
    }
    assert |first| <= 1;
    JoinDescending(first, rest, fence);
  }

  function FoundBehind(text: string, cut: nat, fences: seq<nat>): seq<Range> {
    FromLast(BehindFence(text), fences) + LeadingRange(text, cut)
  }

  lemma FromLastOneMore(f: nat -> seq<Range>, earlier: seq<nat>, position: nat)
    ensures FromLast(f, earlier + [position]) == f(position) + FromLast(f, earlier)
  {
    assert (earlier + [position])[..|earlier|] == earlier;
  }

  lemma ThreeJoined(a: seq<Range>, b: seq<Range>, c: seq<Range>)
    ensures (a + b) + c == a + (b + c)
  {}

  lemma WithTheLastFence(text: string, cut: nat, earlier: seq<nat>, fence: nat)
    ensures FoundBehind(text, cut, earlier + [fence])
         == LeadingRange(text, fence + |FENCE|) + FoundBehind(text, cut, earlier)
  {
    FromLastOneMore(BehindFence(text), earlier, fence);
    ThreeJoined(LeadingRange(text, fence + |FENCE|), FromLast(BehindFence(text), earlier), LeadingRange(text, cut));
  }

  lemma {:induction false} FoundDescend(text: string, cut: nat, fences: seq<nat>, found: seq<Range>)
    requires cut <= |text| && AreFences(text, cut, fences) && found == FoundBehind(text, cut, fences)
    ensures Descend(found)
    decreases |fences|
  {
    if fences != [] {
      var earlier, fence := fences[..|fences| - 1], fences[|fences| - 1];
      assert fences == earlier + [fence];
      var first, rest := LeadingRange(text, fence + |FENCE|), FoundBehind(text, cut, earlier);
      FoundDescend(text, cut, earlier, rest);
      OneMoreFence(text, cut, fences, earlier, fence, first, rest);
      WithTheLastFence(text, cut, earlier, fence);
    }
  }

  lemma CandidatesAreListed(text: string, cut: nat)
    requires cut <= |text|
    ensures IsListAt(text, cut, CandidatesAt(text, cut))
  {
    var fences := MatchIndices(text, FENCE, cut, |text|);
    MatchesAscend(text, FENCE, cut, |text|);
    FoundDescend(text, cut, fences, FoundBehind(text, cut, fences));
    KeptDescend(text, FromLast(BehindFence(text), fences) + LeadingRange(text, cut), Terminators(text, cut, |text|));
    forall x ensures x in CandidatesAt(text, cut)
                <==> StandsAtAPlace(text, cut, x) && ContainsAllBehind(text, cut, x)
    {
      CandidatesOfACutExactlyWhen(text, cut, x);
    }
  }

  // ---------------------------------------------------------------- all cuts

  lemma {:induction false} ListedCuts(text: string, cuts: seq<nat>)
    requires forall i | 0 <= i < |cuts| :: cuts[i] <= |text|
    ensures ListedFromLast(text, cuts, FromLast(CandidatesOf(text), cuts))
  {
    if cuts != [] {
      var last := |cuts| - 1;
      var first, rest := CandidatesAt(text, cuts[last]), FromLast(CandidatesOf(text), cuts[..last]);
      CandidatesAreListed(text, cuts[last]);
      ListedCuts(text, cuts[..last]);
      var all := first + rest;
      assert all[..|first|] == first && all[|first|..] == rest;
    }
  }

  lemma CutsAreThese(text: string)
    ensures AreCuts(text, Cuts(text))
  {
    var ends := MatchIndices(text, TERMINATOR, 0, |text|);
    TerminatorHasNoSelfOverlap();
    MatchesAscend(text, TERMINATOR, 0, |text|);
    forall p: nat | OccursAt(text, TERMINATOR, p) ensures p in ends {
      MatchIndicesAreAll(text, TERMINATOR, 0, |text|, p);
    }
    if ends != [] {
      assert OccursAt(text, TERMINATOR, ends[0]);
      forall cut: nat ensures cut in Cuts(text) <==> IsCut(text, cut) {
        if IsCut(text, cut) {
          var i :| 0 <= i < |ends| && ends[i] == cut - |TERMINATOR|;
          assert Cuts(text)[i] == cut;
        }
      }
    }
  }

  // ---------------------------------------------------------------- neighbours

  function Moved(at: seq<nat>, move: nat -> nat): seq<nat> { seq(|at|, i requires 0 <= i < |at| => move(at[i])) }

  /** Places in one list as places in another. */
  lemma MovedKeeps(
    ranges: seq<Range>, shorter: seq<Range>, kept: seq<Range>, at: seq<nat>, move: nat -> nat)
    requires KeptAt(shorter, kept, at)
    requires forall i | 0 <= i < |shorter| :: move(i) < |ranges| && ranges[move(i)] == shorter[i]
    requires forall i, j | 0 <= i < j < |shorter| :: move(i) < move(j)
    ensures KeptAt(ranges, kept, Moved(at, move))
  {}

  lemma MovedHas(at: seq<nat>, move: nat -> nat, p: nat)
    requires forall i, j: nat :: move(i) == move(j) ==> i == j
    ensures move(p) in Moved(at, move) <==> p in at
  {
    if move(p) in Moved(at, move) {
      var z :| 0 <= z < |at| && Moved(at, move)[z] == move(p);
      assert at[z] == p;
    }
    if p in at {
      var z :| 0 <= z < |at| && at[z] == p;
      assert Moved(at, move)[z] == move(p);
    }
  }

  function OneFurther(i: nat): nat { i + 1 }

  function PastTheSecond(i: nat): nat { if i == 0 then 0 else i + 1 }

  lemma {:induction false} DedupKeepsFirsts(text: string, ranges: seq<Range>) returns (at: seq<nat>)
    ensures KeepsFirsts(text, ranges, Dedup(text, ranges), at)
    decreases |ranges|
  {
    if |ranges| < 2 {
      at := if ranges == [] then [] else [0];
    } else if Content(text, ranges[0]) == Content(text, ranges[1]) {
      var before := DedupKeepsFirsts(text, [ranges[0]] + ranges[2..]);
      at := WithoutTheSecond(text, ranges, [ranges[0]] + ranges[2..], before);
    } else {
      var before := DedupKeepsFirsts(text, ranges[1..]);
      at := WithTheFirst(text, ranges, ranges[1..], Dedup(text, ranges[1..]), before);
    }
  }

  lemma WithoutTheSecond(text: string, ranges: seq<Range>, shorter: seq<Range>, before: seq<nat>)
    returns (at: seq<nat>)
    requires |ranges| >= 2 && Content(text, ranges[0]) == Content(text, ranges[1])
    requires shorter == [ranges[0]] + ranges[2..] && KeepsFirsts(text, shorter, Dedup(text, shorter), before)
    ensures KeepsFirsts(text, ranges, Dedup(text, ranges), at)
  {
    at := Moved(before, PastTheSecond);
    assert forall i | 0 < i < |shorter| :: shorter[i] == ranges[i + 1];
    MovedKeeps(ranges, shorter, Dedup(text, shorter), before, PastTheSecond);
    forall i: nat | i < |ranges| ensures i in at <==> DiffersFromBefore(text, ranges, i) {
      FirstPastTheSecond(text, ranges, shorter, before, i);
    }
  }

  lemma FirstPastTheSecond(text: string, ranges: seq<Range>, shorter: seq<Range>, before: seq<nat>, i: nat)
    requires i < |ranges| && |ranges| >= 2 && Content(text, ranges[0]) == Content(text, ranges[1])
    requires shorter == [ranges[0]] + ranges[2..] && AreFirsts(text, shorter, before)
    ensures i in Moved(before, PastTheSecond) <==> DiffersFromBefore(text, ranges, i)
  {
    if i == 1 {
      forall z | 0 <= z < |before| ensures Moved(before, PastTheSecond)[z] != 1 {
        assert Moved(before, PastTheSecond)[z] == PastTheSecond(before[z]);
      }
    } else {
      var k := if i == 0 then 0 else i - 1;
      MovedHas(before, PastTheSecond, k);
      SameBeyondTheSecond(text, ranges, shorter, k);
      assert k in before <==> DiffersFromBefore(text, shorter, k);
    }
  }

  lemma SameBeyondTheSecond(text: string, ranges: seq<Range>, shorter: seq<Range>, k: nat)
    requires |ranges| >= 2 && Content(text, ranges[0]) == Content(text, ranges[1])
    requires shorter == [ranges[0]] + ranges[2..] && k < |shorter|
    ensures DiffersFromBefore(text, shorter, k) <==> DiffersFromBefore(text, ranges, PastTheSecond(k))
  {
    assert k > 0 ==> shorter[k] == ranges[k + 1];
    assert k > 1 ==> shorter[k - 1] == ranges[k];
  }

  lemma WithTheFirst(
    text: string, ranges: seq<Range>, rest: seq<Range>, kept: seq<Range>, before: seq<nat>) returns (at: seq<nat>)
    requires |ranges| >= 2 && Content(text, ranges[0]) != Content(text, ranges[1]) && rest == ranges[1..]
    requires KeepsFirsts(text, rest, kept, before)
    ensures KeepsFirsts(text, ranges, [ranges[0]] + kept, at)
  {
    var moved := Moved(before, OneFurther);
    at := [0] + moved;
    MovedKeeps(ranges, rest, kept, before, OneFurther);
    HeadAndMoved(ranges, kept, moved);
    FirstsOneFurther(text, ranges, rest, before);
  }

  lemma FirstsOneFurther(text: string, ranges: seq<Range>, rest: seq<Range>, before: seq<nat>)
    requires |ranges| >= 2 && Content(text, ranges[0]) != Content(text, ranges[1])
    requires rest == ranges[1..] && AreFirsts(text, rest, before)
    ensures AreFirsts(text, ranges, [0] + Moved(before, OneFurther))
  {
    forall i: nat | i < |ranges| ensures i in [0] + Moved(before, OneFurther) <==> DiffersFromBefore(text, ranges, i) {
      HeadOrMoved(Moved(before, OneFurther), i);
      if i > 0 {
        FirstOneFurther(text, ranges, rest, before, i - 1);
      }
    }
  }

  lemma HeadOrMoved(moved: seq<nat>, i: nat)
    ensures i in [0] + moved <==> i == 0 || i in moved
  {
    assert ([0] + moved)[0] == 0;
    if z :| 0 <= z < |moved| && moved[z] == i {
      assert ([0] + moved)[z + 1] == i;
    }
  }

  lemma FirstOneFurther(text: string, ranges: seq<Range>, rest: seq<Range>, before: seq<nat>, k: nat)
    requires |ranges| >= 2 && Content(text, ranges[0]) != Content(text, ranges[1])
    requires rest == ranges[1..] && AreFirsts(text, rest, before) && k < |rest|
    ensures k + 1 in Moved(before, OneFurther) <==> DiffersFromBefore(text, ranges, k + 1)
  {
    MovedHas(before, OneFurther, k);
    SameBeyondTheFirst(text, ranges, rest, k);
    assert k in before <==> DiffersFromBefore(text, rest, k);
  }

  lemma SameBeyondTheFirst(text: string, ranges: seq<Range>, rest: seq<Range>, k: nat)
    requires |ranges| >= 2 && Content(text, ranges[0]) != Content(text, ranges[1])
    requires rest == ranges[1..] && k < |rest|
    ensures DiffersFromBefore(text, rest, k) <==> DiffersFromBefore(text, ranges, k + 1)
  {
    assert rest[k] == ranges[k + 1];
    assert k > 0 ==> rest[k - 1] == ranges[k];
  }

  lemma HeadAndMoved(ranges: seq<Range>, kept: seq<Range>, moved: seq<nat>)
    requires ranges != [] && KeptAt(ranges, kept, moved) && forall i | 0 <= i < |moved| :: moved[i] > 0
    ensures KeptAt(ranges, [ranges[0]] + kept, [0] + moved)
  {}

  // ---------------------------------------------------------------- the whole list

  lemma FallbackIsThis(text: string)
    ensures IsFallback(text, LeadingRange(text, 0))
  {
    forall x ensures x in LeadingRange(text, 0) <==> StandsAt(text, 0, x) {
      LeadingRangeIsExact(text, 0, x);
    }
  }

  /** What `json_candidates` gives: the candidates of the cuts, the last cut and in it the last start
      first, then the object at the start of the text, without what repeats the content before it. */
  lemma CandidatesInOrder(text: string) returns (cuts: seq<nat>, found: seq<Range>, fallback: seq<Range>, at: seq<nat>)
    ensures AreCuts(text, cuts) && ListedFromLast(text, cuts, found) && IsFallback(text, fallback)
    ensures KeepsFirsts(text, found + fallback, Dedup(text, CutCandidates(text) + LeadingRange(text, 0)), at)
  {
    cuts, found, fallback := Cuts(text), CutCandidates(text), LeadingRange(text, 0);
    CutsAreThese(text);
    ListedCuts(text, cuts);
    FallbackIsThis(text);
    at := DedupKeepsFirsts(text, found + fallback);
  }
}

/** Finding the JSON document in a model's compaction response. */
module StructuredSummary {
  import opened FiniteSets
  import opened JsonRepair
  import opened Wrappers

  // ---------------------------------------------------------------- one brace-balanced object

  datatype Brace = Brace(depth: int, inString: bool, escaped: bool)

  const OUTSIDE := Brace(0, false, false)

  function NextBrace(st: Brace, ch: char): Brace {
    if st.inString then
      if st.escaped then st.(escaped := false)
      else if ch == '\\' then st.(escaped := true)
      else if ch == '"' then st.(inString := false)
      else st
    else if ch == '"' then st.(inString := true)
    else if ch == '{' then st.(depth := st.depth + 1)
    else if ch == '}' then st.(depth := st.depth - 1)
    else st
  }

  function Braces(s: string): Brace {
    if s == [] then OUTSIDE else NextBrace(Braces(s[..|s| - 1]), s[|s| - 1])
  }

  /** After `k` characters some brace is still open. */
  predicate IsOpenAt(s: string, k: nat)
    requires k <= |s|
  {
    Braces(s[..k]).depth > 0
  }

  /** An object: it opens with a brace, and its nesting comes back to zero at its last character
      and nowhere before. */
  ghost predicate IsObject(p: string) {
    && p != [] && p[0] == '{'
    && Braces(p).depth == 0
    && forall k | 0 < k < |p| :: IsOpenAt(p, k)
  }

  /** Where the object whose scan has reached `from` in state `st` ends. */
  function CloseFrom(st: Brace, body: string, from: nat): (r: Option<nat>)
    requires from <= |body|
    ensures r.Some? ==> from < r.value <= |body|
    decreases |body| - from
  {
    if from == |body| then None
    else
      var next := NextBrace(st, body[from]);
      if !st.inString && body[from] == '}' && next.depth == 0 then Some(from + 1)
      else CloseFrom(next, body, from + 1)
  }

  function Leading(text: string): (r: Option<string>)
    ensures r.Some? ==> r.value <= TrimStart(text)
  {
    var body := TrimStart(text);
    if body == [] || body[0] != '{' then None
    else match CloseFrom(OUTSIDE, body, 0)
      case None => None
      case Some(end) => Some(body[..end])
  }

  /** `leading_object`.  The depth is a `nat`: that it never underflows is part of what is proved. */
  method LeadingObject(text: string) returns (r: Option<string>)
    ensures r == Leading(text)
  {
    var body := TrimStart(text);
    if body == [] || body[0] != '{' {
      return None;
    }
    var end := FindClose(body);
    r := if end.Some? then Some(body[..end.value]) else None;
  }

  method FindClose(body: string) returns (end: Option<nat>)
    requires body != [] && body[0] == '{'
    ensures end == CloseFrom(OUTSIDE, body, 0)
  {
    var depth: nat, inString, escaped := 0, false, false;
    for idx := 0 to |body|
      invariant idx == 0 ==> !inString
      invariant idx > 0 ==> depth > 0
      invariant CloseFrom(OUTSIDE, body, 0) == CloseFrom(Brace(depth, inString, escaped), body, idx)
    {
      var ch := body[idx];
      if inString {
        if escaped {
          escaped := false;
        } else if ch == '\\' {
          escaped := true;
        } else if ch == '"' {
          inString := false;
        }
        continue;
      }
      if ch == '"' {
        inString := true;
      } else if ch == '{' {
        depth := depth + 1;
      } else if ch == '}' {
        depth := depth - 1;
        if depth == 0 {
          return Some(idx + 1);
        }
      }
    }
    end := None;
  }

  lemma BracesStep(body: string, from: nat)
    requires from < |body|
    ensures Braces(body[..from + 1]) == NextBrace(Braces(body[..from]), body[from])
  {
    assert body[..from + 1][..from] == body[..from];
  }

  /** The end found is the first place where the nesting is back at zero. */
  lemma {:induction false} CloseFromIsFirst(body: string, from: nat)
    requires from <= |body| && body != [] && body[0] == '{'
    requires forall k | 0 < k <= from :: IsOpenAt(body, k)
    ensures var r := CloseFrom(Braces(body[..from]), body, from);
            && (r.Some? ==> Braces(body[..r.value]).depth == 0)
            && forall k | 0 < k < if r.Some? then r.value else |body| + 1 :: IsOpenAt(body, k)
    decreases |body| - from
  {
    if from < |body| {
      BracesStep(body, from);
      if from == 0 {
        assert body[..0] == [];
      }
      assert from > 0 ==> IsOpenAt(body, from);
      if IsOpenAt(body, from + 1) {
        CloseFromIsFirst(body, from + 1);
      }
    }
  }

  /** What is found in a text is an object at its start, and it is found whenever there is one. */
  lemma LeadingIsExact(text: string, p: string)
    ensures Leading(text) == Some(p) <==> IsObject(p) && p <= TrimStart(text)
  {
    var body := TrimStart(text);
    if body != [] && body[0] == '{' {
      assert body[..0] == [];
      CloseIsExact(body, p);
    }
  }

  lemma CloseIsExact(body: string, p: string)
    requires body != [] && body[0] == '{'
    ensures var end := CloseFrom(OUTSIDE, body, 0);
            (end.Some? && p == body[..end.value]) <==> IsObject(p) && p <= body
  {
    assert body[..0] == [];
    CloseFromIsFirst(body, 0);
    var end := CloseFrom(OUTSIDE, body, 0);
    if end.Some? {
      var q := body[..end.value];
      OpenInPrefix(q, body);
      if IsObject(p) && p <= body {
        PrefixesOfOneText(p, q, body);
      }
    } else if p <= body && p != [] {
      OpenInPrefix(p, body);
      assert IsOpenAt(body, |p|);
    }
  }

  lemma OpenInPrefix(p: string, s: string)
    requires p <= s
    ensures p == s[..|p|] && forall k | 0 <= k <= |p| :: IsOpenAt(p, k) == IsOpenAt(s, k)
  {
    forall k | 0 <= k <= |p| ensures IsOpenAt(p, k) == IsOpenAt(s, k) {
      assert p[..k] == s[..k];
    }
  }

  lemma PrefixesOfOneText(p: string, q: string, body: string)
    requires IsObject(p) && IsObject(q) && p <= body && q <= body
    ensures p == q
  {
    if |p| <= |q| {
      ObjectsArePrefixFree(p, q);
    } else {
      ObjectsArePrefixFree(q, p);
    }
  }

  /** No object is a proper prefix of another. */
  lemma ObjectsArePrefixFree(p: string, q: string)
    requires IsObject(p) && IsObject(q) && p <= q
    ensures p == q
  {
    OpenInPrefix(p, q);
    assert p[..|p|] == p;
    assert !IsOpenAt(p, |p|);
  }

  /** What follows an object does not change that it is found. */
  lemma LeadingIgnoresContinuation(text: string, more: string)
    requires Leading(text).Some?
    ensures Leading(Leading(text).value + more) == Leading(text)
  {
    var p := Leading(text).value;
    LeadingIsExact(text, p);
    assert TrimStart(p + more) == p + more;
    LeadingIsExact(p + more, p);
  }

  // ---------------------------------------------------------------- candidates

  const TERMINATOR: string := "</analysis>"
  const FENCE: string := "```json"

  /** A stretch of the response. */
  datatype Range = Range(start: nat, end: nat)

  /** `match_indices`, from `from` on, of matches that end by `to`. */
  function MatchIndices(text: string, pattern: string, from: nat, limit: nat): (r: seq<nat>)
    requires from <= limit <= |text| && pattern != []
    ensures forall i | 0 <= i < |r| :: from <= r[i] && r[i] + |pattern| <= limit && OccursAt(text, pattern, r[i])
    decreases limit - from
  {
    if from + |pattern| > limit then []
    else if OccursAt(text, pattern, from) then [from] + MatchIndices(text, pattern, from + |pattern|, limit)
    else MatchIndices(text, pattern, from + 1, limit)
  }

  /** `leading_object` of the text from `from` on, as a stretch of the whole text. */
  function LeadingRange(text: string, from: nat): seq<Range> {
    if from > |text| then []
    else match Leading(text[from..])
      case None => []
      case Some(p) =>
        var start := |text| - |TrimStart(text[from..])|;
        [Range(start, start + |p|)]
  }

  function BehindFence(text: string): nat -> seq<Range> { (fence: nat) => LeadingRange(text, fence + |FENCE|) }

  /** What `f` finds at each position, the last position first. */
  function FromLast(f: nat -> seq<Range>, positions: seq<nat>): seq<Range> {
    if positions == [] then []
    else f(positions[|positions| - 1]) + FromLast(f, positions[..|positions| - 1])
  }

  function Terminators(text: string, from: nat, limit: nat): nat
    requires from <= limit <= |text|
  {
    |MatchIndices(text, TERMINATOR, from, limit)|
  }

  predicate HasTerminators(text: string, x: Range, count: nat) {
    x.start <= x.end <= |text| && Terminators(text, x.start, x.end) == count
  }

  function KeepWith(text: string, ranges: seq<Range>, count: nat): (r: seq<Range>)
    ensures forall x | x in r :: x in ranges && HasTerminators(text, x, count)
  {
    if ranges == [] then []
    else (if HasTerminators(text, ranges[0], count) then [ranges[0]] else []) + KeepWith(text, ranges[1..], count)
  }

  /** The candidates of one cut: behind each fence, the last first, and at the cut itself; kept are
      those that contain as many terminators as follow the cut. */
  function CandidatesAt(text: string, cut: nat): seq<Range> {
    if cut > |text| then []
    else
      var fences := MatchIndices(text, FENCE, cut, |text|);
      KeepWith(text, FromLast(BehindFence(text), fences) + LeadingRange(text, cut), Terminators(text, cut, |text|))
  }

  function CandidatesOf(text: string): nat -> seq<Range> { (cut: nat) => CandidatesAt(text, cut) }

  /** Whatever is found was found at one of the positions. */
  lemma {:induction false} FoundAt(f: nat -> seq<Range>, positions: seq<nat>, x: Range) returns (position: nat)
    requires x in FromLast(f, positions)
    ensures position in positions && x in f(position)
  {
    position := positions[|positions| - 1];
    if x !in f(position) {
      position := FoundAt(f, positions[..|positions| - 1], x);
    }
  }

  /** No end of the pattern is a start of it, so two occurrences cannot overlap. */
  ghost predicate NoSelfOverlap(pattern: string) {
    pattern != [] && forall d | 0 < d < |pattern| :: pattern[d..] != pattern[..|pattern| - d]
  }

  /** Every later occurrence is one of the matches. */
  lemma {:induction false} MatchIndicesAreAll(text: string, pattern: string, from: nat, limit: nat, p: nat)
    requires NoSelfOverlap(pattern)
    requires from <= p && p + |pattern| <= limit <= |text| && OccursAt(text, pattern, p)
    ensures p in MatchIndices(text, pattern, from, limit)
    decreases limit - from
  {
    if OccursAt(text, pattern, from) {
      if p > from {
        OccurrencesDoNotOverlap(text, pattern, from, p);
        MatchIndicesAreAll(text, pattern, from + |pattern|, limit, p);
      }
    } else {
      MatchIndicesAreAll(text, pattern, from + 1, limit, p);
    }
  }

  lemma OverlapIsASelfOverlap(text: string, pattern: string, p: nat, d: nat)
    requires OccursAt(text, pattern, p) && OccursAt(text, pattern, p + d) && d <= |pattern|
    ensures pattern[d..] == pattern[..|pattern| - d]
  {
    var n := |pattern|;
    assert text[p..p + n][d..] == text[p + d..p + n] == text[p + d..p + d + n][..n - d];
  }

  lemma OccurrencesDoNotOverlap(text: string, pattern: string, p: nat, q: nat)
    requires NoSelfOverlap(pattern) && OccursAt(text, pattern, p) && OccursAt(text, pattern, q) && p < q
    ensures p + |pattern| <= q
  {
    if q < p + |pattern| {
      OverlapIsASelfOverlap(text, pattern, p, q - p);
    }
  }

  lemma TerminatorHasNoSelfOverlap()
    ensures NoSelfOverlap(TERMINATOR)
  {
    forall d | 0 < d < |TERMINATOR| ensures TERMINATOR[d..] != TERMINATOR[..|TERMINATOR| - d] {
      OnlyTheFirstIsAngle(d);
      assert TERMINATOR[d..][0] == TERMINATOR[d] && TERMINATOR[..|TERMINATOR| - d][0] == TERMINATOR[0];
    }
  }

  lemma OnlyTheFirstIsAngle(i: nat)
    requires 0 < i < |TERMINATOR|
    ensures TERMINATOR[i] != TERMINATOR[0]
  {
    assert TERMINATOR[1..] == "/analysis>";
    assert TERMINATOR[i] == TERMINATOR[1..][i - 1];
  }

  lemma FenceHasNoSelfOverlap()
    ensures NoSelfOverlap(FENCE)
  {
    forall d | 0 < d < |FENCE| ensures FENCE[d..] != FENCE[..|FENCE| - d] {
      var last := |FENCE| - d - 1;
      assert FENCE[d..][last] == FENCE[|FENCE| - 1] == 'n';
      OnlyTheLastIsN(last);
      assert FENCE[..|FENCE| - d][last] == FENCE[last];
    }
  }

  lemma OnlyTheLastIsN(i: nat)
    requires i < |FENCE| - 1
    ensures FENCE[i] != 'n'
  {
    assert FENCE[..|FENCE| - 1] == "```jso";
    assert FENCE[i] == FENCE[..|FENCE| - 1][i];
  }

  ghost predicate Increasing(s: seq<nat>) { forall i, j | 0 <= i < j < |s| :: s[i] < s[j] }

  lemma {:induction false} MatchIndicesIncrease(text: string, pattern: string, from: nat, limit: nat)
    requires from <= limit <= |text| && pattern != []
    ensures Increasing(MatchIndices(text, pattern, from, limit))
    decreases limit - from
  {
    if from + |pattern| <= limit {
      if OccursAt(text, pattern, from) {
        MatchIndicesIncrease(text, pattern, from + |pattern|, limit);
        var rest := MatchIndices(text, pattern, from + |pattern|, limit);
        assert MatchIndices(text, pattern, from, limit) == [from] + rest;
      } else {
        MatchIndicesIncrease(text, pattern, from + 1, limit);
      }
    }
  }

  lemma {:induction false} ElementsOfIncreasing(s: seq<nat>)
    requires Increasing(s)
    ensures |Elems(s)| == |s|
  {
    if s != [] {
      var rest := s[1..];
      ElementsOfIncreasing(rest);
      assert Elems(s) == {s[0]} + Elems(rest);
    }
  }

  /** A stretch with as many terminators as follow the cut contains each of them. */
  lemma SameCountMeansAll(text: string, cut: nat, r: Range, p: nat)
    requires cut <= r.start <= r.end <= |text|
    requires Terminators(text, r.start, r.end) == Terminators(text, cut, |text|)
    requires cut <= p && OccursAt(text, TERMINATOR, p)
    ensures r.start <= p && p + |TERMINATOR| <= r.end
  {
    var inner, outer := MatchIndices(text, TERMINATOR, r.start, r.end), MatchIndices(text, TERMINATOR, cut, |text|);
    TerminatorsAreCounted(text, r.start, r.end);
    TerminatorsAreCounted(text, cut, |text|);
    assert Elems(inner) <= Elems(outer);
    SubsetOfSameSizeIsAll(Elems(inner), Elems(outer));
    assert p in Elems(outer);
  }

  /** The matches are the terminators in the stretch, and there are as many as their count says. */
  lemma TerminatorsAreCounted(text: string, from: nat, limit: nat)
    requires from <= limit <= |text|
    ensures |Elems(MatchIndices(text, TERMINATOR, from, limit))| == Terminators(text, from, limit)
    ensures forall p :: p in Elems(MatchIndices(text, TERMINATOR, from, limit))
                   <==> from <= p && p + |TERMINATOR| <= limit && OccursAt(text, TERMINATOR, p)
  {
    MatchIndicesIncrease(text, TERMINATOR, from, limit);
    ElementsOfIncreasing(MatchIndices(text, TERMINATOR, from, limit));
    TerminatorHasNoSelfOverlap();
    forall p: nat | from <= p && p + |TERMINATOR| <= limit && OccursAt(text, TERMINATOR, p)
      ensures p in MatchIndices(text, TERMINATOR, from, limit)
    {
      MatchIndicesAreAll(text, TERMINATOR, from, limit, p);
    }
  }

  /** A stretch that contains each terminator behind the cut has as many of them. */
  lemma AllMeansSameCount(text: string, cut: nat, r: Range)
    requires cut <= r.start <= r.end <= |text|
    requires forall p: nat | cut <= p && OccursAt(text, TERMINATOR, p) :: r.start <= p && p + |TERMINATOR| <= r.end
    ensures Terminators(text, r.start, r.end) == Terminators(text, cut, |text|)
  {
    TerminatorsAreCounted(text, r.start, r.end);
    TerminatorsAreCounted(text, cut, |text|);
    assert Elems(MatchIndices(text, TERMINATOR, r.start, r.end)) == Elems(MatchIndices(text, TERMINATOR, cut, |text|));
  }

  ghost predicate HoldsObject(text: string, x: Range) { x.start <= x.end <= |text| && IsObject(text[x.start..x.end]) }

  lemma LeadingIsAnObject(text: string)
    requires Leading(text).Some?
    ensures IsObject(Leading(text).value)
  {
    LeadingIsExact(text, Leading(text).value);
  }

  lemma PrefixAsRange(text: string, start: nat, p: string)
    requires start <= |text| && p <= text[start..]
    ensures start + |p| <= |text| && text[start..start + |p|] == p
  {}

  lemma RangesHoldObjects(text: string, from: nat, x: Range)
    requires x in LeadingRange(text, from)
    ensures from <= x.start && HoldsObject(text, x)
  {
    var p := LeadingRangeParts(text, from, x);
    ObjectAsRange(text, x.start, p);
  }

  lemma LeadingRangeParts(text: string, from: nat, x: Range) returns (p: string)
    requires x in LeadingRange(text, from)
    ensures IsObject(p) && from <= x.start <= |text| && p <= text[x.start..] && x.end == x.start + |p|
  {
    var tail := text[from..];
    p := Leading(tail).value;
    LeadingIsAnObject(tail);
  }

  lemma ObjectAsRange(text: string, start: nat, p: string)
    requires start <= |text| && p <= text[start..] && IsObject(p)
    ensures HoldsObject(text, Range(start, start + |p|))
  {
    PrefixAsRange(text, start, p);
  }

  ghost predicate IsCut(text: string, cut: nat) {
    11 <= cut <= |text| && OccursAt(text, "</analysis>", cut - 11)
  }

  lemma FoundRangesFollow(text: string, cut: nat, fences: seq<nat>, x: Range)
    requires forall i | 0 <= i < |fences| :: cut <= fences[i]
    requires x in FromLast(BehindFence(text), fences) + LeadingRange(text, cut)
    ensures cut <= x.start && HoldsObject(text, x)
  {
    if x in LeadingRange(text, cut) {
      RangesHoldObjects(text, cut, x);
    } else {
      FoundBehindFences(text, cut, BehindFence(text), fences, x);
    }
  }

  lemma FoundBehindFences(text: string, cut: nat, f: nat -> seq<Range>, fences: seq<nat>, x: Range)
    requires f == BehindFence(text) && forall i | 0 <= i < |fences| :: cut <= fences[i]
    requires x in FromLast(f, fences)
    ensures cut <= x.start && HoldsObject(text, x)
  {
    var fence := FoundAt(f, fences, x);
    BehindOneFence(text, fence, x);
  }

  lemma BehindOneFence(text: string, fence: nat, x: Range)
    requires x in BehindFence(text)(fence)
    ensures fence <= x.start && HoldsObject(text, x)
  {
    RangesHoldObjects(text, fence + |FENCE|, x);
  }

  lemma CandidatesFollowTheirCut(text: string, cut: nat, x: Range)
    requires cut <= |text|
    ensures x in CandidatesAt(text, cut) ==> FollowsCut(text, cut, x)
  {
    if x in CandidatesAt(text, cut) {
      FoundRangesFollow(text, cut, MatchIndices(text, FENCE, cut, |text|), x);
    }
  }

  ghost predicate FollowsCut(text: string, cut: nat, x: Range)
    requires cut <= |text|
  {
    && cut <= x.start && HoldsObject(text, x)
    && Terminators(text, x.start, x.end) == Terminators(text, cut, |text|)
  }

  /** A candidate of a cut is an object behind it, and every terminator of the whole text lies
      wholly before it or wholly inside it: none follows it, so it is not part of the scratchpad. */
  lemma CandidatesAreNotFromTheScratchpad(text: string, cut: nat, x: Range, p: nat)
    requires IsCut(text, cut) && OccursAt(text, TERMINATOR, p)
    ensures x in CandidatesAt(text, cut) ==> cut <= x.start && HoldsObject(text, x) && LiesBesideOrInside(x, p)
  {
    CandidatesFollowTheirCut(text, cut, x);
    if x in CandidatesAt(text, cut) {
      WhatFollowsACutLiesBesideOrInside(text, cut, x, p);
    }
  }

  /** The terminator at `p` lies wholly before the stretch or wholly inside it. */
  predicate LiesBesideOrInside(x: Range, p: nat) {
    p + |TERMINATOR| <= x.start || (x.start <= p && p + |TERMINATOR| <= x.end)
  }

  lemma WhatFollowsACutLiesBesideOrInside(text: string, cut: nat, x: Range, p: nat)
    requires IsCut(text, cut) && FollowsCut(text, cut, x) && OccursAt(text, TERMINATOR, p)
    ensures LiesBesideOrInside(x, p)
  {
    if p >= cut {
      SameCountMeansAll(text, cut, x, p);
    } else {
      TerminatorsBeforeTheCut(text, cut, p);
    }
  }

  lemma TerminatorsBeforeTheCut(text: string, cut: nat, p: nat)
    requires IsCut(text, cut) && OccursAt(text, TERMINATOR, p) && p < cut
    ensures p + |TERMINATOR| <= cut
  {
    if p > cut - |TERMINATOR| {
      TerminatorHasNoSelfOverlap();
      OccurrencesDoNotOverlap(text, TERMINATOR, cut - |TERMINATOR|, p);
    } else if p < cut - |TERMINATOR| {
      TerminatorHasNoSelfOverlap();
      OccurrencesDoNotOverlap(text, TERMINATOR, p, cut - |TERMINATOR|);
    }
  }

  // ---------------------------------------------------------------- the list of candidates

  /** The cuts, each right behind a terminator; the start of the text when there is none. */
  function Cuts(text: string): (r: seq<nat>)
    ensures forall i | 0 <= i < |r| :: r[i] <= |text|
  {
    var ends := MatchIndices(text, TERMINATOR, 0, |text|);
    if ends == [] then [0] else seq(|ends|, i requires 0 <= i < |ends| => ends[i] + |TERMINATOR|)
  }

  method Collect(f: nat -> seq<Range>, positions: seq<nat>) returns (ranges: seq<Range>)
    ensures ranges == FromLast(f, positions)
  {
    ranges := [];
    var i := |positions|;
    assert positions[..i] == positions;
    while i > 0
      invariant 0 <= i <= |positions|
      invariant ranges + FromLast(f, positions[..i]) == FromLast(f, positions)
    {
      i := i - 1;
      assert positions[..i + 1][..i] == positions[..i];
      assert ranges + (f(positions[i]) + FromLast(f, positions[..i]))
          == (ranges + f(positions[i])) + FromLast(f, positions[..i]);
      ranges := ranges + f(positions[i]);
    }
    assert ranges + [] == ranges;
  }

  function Content(text: string, x: Range): string {
    if x.start <= x.end <= |text| then text[x.start..x.end] else ""
  }

  /** `dedup`: of neighbours with the same content the first stays. */
  function Dedup(text: string, ranges: seq<Range>): (r: seq<Range>)
    ensures forall x | x in r :: x in ranges
    decreases |ranges|
  {
    if |ranges| < 2 then ranges
    else if Content(text, ranges[0]) == Content(text, ranges[1]) then Dedup(text, [ranges[0]] + ranges[2..])
    else [ranges[0]] + Dedup(text, ranges[1..])
  }

  /** The candidates found at the cuts, the last cut first. */
  function CutCandidates(text: string): seq<Range> { FromLast(CandidatesOf(text), Cuts(text)) }

  method JsonCandidates(text: string) returns (candidates: seq<Range>)
    ensures candidates == Dedup(text, CutCandidates(text) + LeadingRange(text, 0))
  {
    var collected := Collect(CandidatesOf(text), Cuts(text));
    candidates := Dedup(text, collected + LeadingRange(text, 0));
  }

  /** In a response with a terminator, every candidate but the whole-text fallback is an object that
      has each terminator of the text wholly before it or wholly inside it. */
  lemma NoCandidateBeforeATerminator(text: string, x: Range, p: nat)
    requires OccursAt(text, TERMINATOR, p)
    ensures x in CutCandidates(text) ==> HoldsObject(text, x) && LiesBesideOrInside(x, p)
  {
    if x in CutCandidates(text) {
      var cut := FoundAt(CandidatesOf(text), Cuts(text), x);
      CutsFollowTerminators(text, cut, p);
      CandidatesAreNotFromTheScratchpad(text, cut, x, p);
    }
  }

  lemma CutsFollowTerminators(text: string, cut: nat, p: nat)
    requires cut in Cuts(text) && OccursAt(text, TERMINATOR, p)
    ensures IsCut(text, cut)
  {
    var ends := MatchIndices(text, TERMINATOR, 0, |text|);
    TerminatorHasNoSelfOverlap();
    MatchIndicesAreAll(text, TERMINATOR, 0, |text|, p);
    assert ends != [];
    CutBehindEnd(text, ends, cut);
  }

  lemma CutBehindEnd(text: string, ends: seq<nat>, cut: nat)
    requires forall i | 0 <= i < |ends| :: OccursAt(text, TERMINATOR, ends[i])
    requires cut in seq(|ends|, i requires 0 <= i < |ends| => ends[i] + |TERMINATOR|)
    ensures IsCut(text, cut)
  {
    var i :| 0 <= i < |ends| && cut == ends[i] + |TERMINATOR|;
  }

  // ---------------------------------------------------------------- no candidate is missed

  /** White space aside, the object in the stretch stands at `at`. */
  ghost predicate StandsAt(text: string, at: nat, x: Range) {
    at <= x.start <= |text| && TrimStart(text[at..]) == text[x.start..] && HoldsObject(text, x)
  }

  lemma LeadingRangeIsExact(text: string, at: nat, x: Range)
    requires at <= |text|
    ensures x in LeadingRange(text, at) <==> StandsAt(text, at, x)
  {
    if x in LeadingRange(text, at) {
      RangesHoldObjects(text, at, x);
      WhatIsFoundStands(text, at, x);
    }
    if StandsAt(text, at, x) {
      WhatStandsIsFound(text, at, x);
    }
  }

  lemma WhatIsFoundStands(text: string, at: nat, x: Range)
    requires x in LeadingRange(text, at)
    ensures x.start <= |text| && TrimStart(text[at..]) == text[x.start..]
  {
    var tail := text[at..];
    assert TrimStart(tail) == tail[|tail| - |TrimStart(tail)|..];
  }

  lemma WhatStandsIsFound(text: string, at: nat, x: Range)
    requires at <= |text| && StandsAt(text, at, x)
    ensures x in LeadingRange(text, at)
  {
    var p := text[x.start..x.end];
    assert p <= text[x.start..];
    LeadingIsExact(text[at..], p);
  }

  /** The cut itself, or right behind a fence that follows it. */
  ghost predicate IsPlace(text: string, cut: nat, at: nat) {
    at == cut || (cut + 7 <= at <= |text| && OccursAt(text, "```json", at - 7))
  }

  lemma {:induction false} FoundFrom(f: nat -> seq<Range>, positions: seq<nat>, position: nat, x: Range)
    requires position in positions && x in f(position)
    ensures x in FromLast(f, positions)
  {
    var last := |positions| - 1;
    if x !in f(positions[last]) {
      assert position in positions[..last];
      FoundFrom(f, positions[..last], position, x);
    }
  }

  lemma {:induction false} KeptExactlyWhen(text: string, ranges: seq<Range>, count: nat, x: Range)
    ensures x in KeepWith(text, ranges, count) <==> x in ranges && HasTerminators(text, x, count)
  {
    if ranges != [] {
      KeptExactlyWhen(text, ranges[1..], count, x);
      assert ranges == [ranges[0]] + ranges[1..];
    }
  }

  ghost predicate StandsAtAPlace(text: string, cut: nat, x: Range) {
    exists at :: IsPlace(text, cut, at) && StandsAt(text, at, x)
  }

  /** What is found from a cut on stands at the cut or behind a fence, and all of that is found. */
  lemma FoundExactlyWhen(text: string, cut: nat, x: Range)
    requires cut <= |text|
    ensures x in FromLast(BehindFence(text), MatchIndices(text, FENCE, cut, |text|)) + LeadingRange(text, cut)
       <==> StandsAtAPlace(text, cut, x)
  {
    var f, fences := BehindFence(text), MatchIndices(text, FENCE, cut, |text|);
    LeadingRangeIsExact(text, cut, x);
    if x in LeadingRange(text, cut) {
      assert IsPlace(text, cut, cut) && StandsAt(text, cut, x);
    }
    if x in FromLast(f, fences) {
      FoundBehindAFence(text, cut, fences, x);
    }
    if at :| IsPlace(text, cut, at) && StandsAt(text, at, x) {
      if at != cut {
        FenceIsFound(text, cut, at, x);
      }
    }
  }

  lemma FoundBehindAFence(text: string, cut: nat, fences: seq<nat>, x: Range)
    requires forall i | 0 <= i < |fences| :: cut <= fences[i] && OccursAt(text, FENCE, fences[i])
    requires x in FromLast(BehindFence(text), fences)
    ensures StandsAtAPlace(text, cut, x)
  {
    var fence := FoundAt(BehindFence(text), fences, x);
    LeadingRangeIsExact(text, fence + |FENCE|, x);
    assert IsPlace(text, cut, fence + |FENCE|);
  }

  lemma FenceIsFound(text: string, cut: nat, at: nat, x: Range)
    requires cut <= |text| && IsPlace(text, cut, at) && at != cut && StandsAt(text, at, x)
    ensures x in FromLast(BehindFence(text), MatchIndices(text, FENCE, cut, |text|))
  {
    var f, fence := BehindFence(text), at - |FENCE|;
    FenceHasNoSelfOverlap();
    MatchIndicesAreAll(text, FENCE, cut, |text|, fence);
    WhatStandsIsFound(text, at, x);
    assert f(fence) == LeadingRange(text, at);
    FoundFrom(f, MatchIndices(text, FENCE, cut, |text|), fence, x);
  }

  /** The candidates of a cut are exactly the objects at the cut or right behind a fence that contain
      every terminator behind the cut. */
  lemma CandidatesOfACutExactlyWhen(text: string, cut: nat, x: Range)
    requires cut <= |text|
    ensures x in CandidatesAt(text, cut)
       <==> StandsAtAPlace(text, cut, x) && ContainsAllBehind(text, cut, x)
  {
    var found := FromLast(BehindFence(text), MatchIndices(text, FENCE, cut, |text|)) + LeadingRange(text, cut);
    KeptExactlyWhen(text, found, Terminators(text, cut, |text|), x);
    FoundExactlyWhen(text, cut, x);
    if at :| IsPlace(text, cut, at) && StandsAt(text, at, x) {
      CountsWhenAllInside(text, cut, x);
    }
  }

  ghost predicate ContainsAllBehind(text: string, cut: nat, x: Range) {
    forall p: nat | cut <= p && OccursAt(text, TERMINATOR, p) :: x.start <= p && p + |TERMINATOR| <= x.end
  }

  lemma CountsWhenAllInside(text: string, cut: nat, x: Range)
    requires cut <= x.start <= x.end <= |text|
    ensures HasTerminators(text, x, Terminators(text, cut, |text|)) <==> ContainsAllBehind(text, cut, x)
  {
    if HasTerminators(text, x, Terminators(text, cut, |text|)) {
      forall p: nat | cut <= p && OccursAt(text, TERMINATOR, p) ensures x.start <= p && p + |TERMINATOR| <= x.end {
        SameCountMeansAll(text, cut, x, p);
      }
    }
    if ContainsAllBehind(text, cut, x) {
      AllMeansSameCount(text, cut, x);
    }
  }

  ghost predicate HasContent(text: string, ranges: seq<Range>, content: string) {
    exists i | 0 <= i < |ranges| :: Content(text, ranges[i]) == content
  }

  lemma {:induction false} DedupKeepsContents(text: string, ranges: seq<Range>, content: string)
    requires HasContent(text, ranges, content)
    ensures HasContent(text, Dedup(text, ranges), content)
    decreases |ranges|
  {
    var i :| 0 <= i < |ranges| && Content(text, ranges[i]) == content;
    if |ranges| >= 2 {
      if Content(text, ranges[0]) == Content(text, ranges[1]) {
        var shorter := [ranges[0]] + ranges[2..];
        assert Content(text, shorter[if i < 2 then 0 else i - 1]) == content;
        DedupKeepsContents(text, shorter, content);
      } else {
        DedupKeepsTheRest(text, ranges, content, i);
      }
    }
  }

  lemma {:induction false} DedupKeepsTheRest(text: string, ranges: seq<Range>, content: string, i: nat)
    requires |ranges| >= 2 && Content(text, ranges[0]) != Content(text, ranges[1])
    requires i < |ranges| && Content(text, ranges[i]) == content
    ensures HasContent(text, Dedup(text, ranges), content)
    decreases |ranges|, 0
  {
    var rest := Dedup(text, ranges[1..]);
    var all := [ranges[0]] + rest;
    if i == 0 {
      assert Content(text, all[0]) == content;
    } else {
      assert Content(text, ranges[1..][i - 1]) == content;
      DedupKeepsContents(text, ranges[1..], content);
      var j :| 0 <= j < |rest| && Content(text, rest[j]) == content;
      assert Content(text, all[j + 1]) == content;
    }
  }

  lemma FoundIsListed(
    text: string, f: nat -> seq<Range>, positions: seq<nat>, position: nat, x: Range, more: seq<Range>)
    requires position in positions && x in f(position)
    ensures HasContent(text, Dedup(text, FromLast(f, positions) + more), Content(text, x))
  {
    FoundFrom(f, positions, position, x);
    var collected := FromLast(f, positions) + more;
    assert x in collected;
    var i :| 0 <= i < |collected| && collected[i] == x;
    DedupKeepsContents(text, collected, Content(text, x));
  }

  /** No candidate of a cut is missing from the list. */
  lemma EveryCandidateIsListed(text: string, cut: nat, x: Range)
    requires cut in Cuts(text) && x in CandidatesAt(text, cut)
    ensures HasContent(text, Dedup(text, CutCandidates(text) + LeadingRange(text, 0)), Content(text, x))
  {
    FoundIsListed(text, CandidatesOf(text), Cuts(text), cut, x, LeadingRange(text, 0));
  }
}

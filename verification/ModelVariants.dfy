/** Choosing the files of a model: what a repository advertises for a quantization, and what a
    request for that quantization resolves to. */
module ModelVariants {
  import opened FiniteSets
  import opened NameOrder
  import opened Wrappers

  /** What a shard's name says: the prefix and the total as written, and the numbers read from it. */
  datatype ShardKey = ShardKey(prefix: string, total: string)

  datatype Shard = Shard(index: nat, total: Option<nat>, key: ShardKey)

  /** A file of the repository, with what is read from its name. */
  datatype File = File(name: string, size: Option<nat>, isGguf: bool, isAuxiliary: bool,
                       tag: string, family: string, shard: Option<Shard>)

  datatype Variant = Variant(tag: string, size: nat, filename: string, sharded: bool)

  const UNKNOWN := "unknown"

  function SizeOf(f: File): nat { if f.size.Some? then f.size.value else 0 }

  ghost predicate DistinctNames(files: set<File>) {
    forall f, g | f in files && g in files && f.name == g.name :: f == g
  }

  // ---------------------------------------------------------------- which single file

  /** The plainer of two names: the shorter one, then the first in the order of names. */
  predicate Plainer(f: File, g: File) {
    |f.name| < |g.name| || (|f.name| == |g.name| && Before(f.name, g.name))
  }

  lemma PlainerIsStrict()
    ensures IsStrictOrder(Plainer)
  {
    forall f, g, h | Plainer(f, g) && Plainer(g, h) ensures Plainer(f, h) {
      if |f.name| == |g.name| == |h.name| {
        BeforeIsTransitive(f.name, g.name, h.name);
      }
    }
    forall f ensures !Plainer(f, f) {
      if Before(f.name, f.name) {
        BeforeIsAsymmetric(f.name, f.name);
      }
    }
  }

  ghost predicate IsPlainest(files: set<File>, f: File) {
    f in files && f.shard.None? && forall g | g in files && g.shard.None? :: g == f || Plainer(f, g)
  }

  // ---------------------------------------------------------------- which set of shards

  function ShardSet(files: set<File>, key: ShardKey): set<File> {
    set f | f in files && f.shard.Some? && f.shard.value.key == key
  }

  /** All of the shards of one set of `total`: so many files, each with its own index up to it. */
  ghost predicate IsAllOf(shards: set<File>, total: nat) {
    && shards != {} && |shards| == total
    && (forall f | f in shards :: IsShardOf(f, total))
    && forall f, g | f in shards && g in shards && f.shard.value.index == g.shard.value.index :: f == g
  }

  ghost predicate IsComplete(shards: set<File>) {
    exists total :: IsAllOf(shards, total)
  }

  function Weight(key: ShardKey): nat { |key.prefix| + |key.total| }

  predicate KeyBefore(a: ShardKey, b: ShardKey) {
    Before(a.prefix, b.prefix) || (a.prefix == b.prefix && Before(a.total, b.total))
  }

  /** Which of two sets of shards is taken: a complete one, then the one with the shorter key, then
      the one with the first key. */
  predicate Preferred(completeA: bool, a: ShardKey, completeB: bool, b: ShardKey) {
    if completeA != completeB then completeA
    else if Weight(a) != Weight(b) then Weight(a) < Weight(b)
    else KeyBefore(a, b)
  }

  lemma PreferenceIsTotal(completeA: bool, a: ShardKey, completeB: bool, b: ShardKey)
    ensures a == b || Preferred(completeA, a, completeB, b) || Preferred(completeB, b, completeA, a)
  {
    BeforeIsTotal(a.prefix, b.prefix);
    BeforeIsTotal(a.total, b.total);
  }

  lemma PreferenceIsAsymmetric(completeA: bool, a: ShardKey, completeB: bool, b: ShardKey)
    requires Preferred(completeA, a, completeB, b)
    ensures !Preferred(completeB, b, completeA, a)
  {
    if Before(a.prefix, b.prefix) {
      BeforeIsAsymmetric(a.prefix, b.prefix);
    } else if Before(a.total, b.total) {
      BeforeIsAsymmetric(a.total, b.total);
    }
    if Before(a.prefix, a.prefix) {
      BeforeIsAsymmetric(a.prefix, a.prefix);
    }
  }

  lemma PreferenceIsTransitive(cA: bool, a: ShardKey, cB: bool, b: ShardKey, cC: bool, c: ShardKey)
    requires Preferred(cA, a, cB, b) && Preferred(cB, b, cC, c)
    ensures Preferred(cA, a, cC, c)
  {
    if KeyBefore(a, b) && KeyBefore(b, c) {
      if Before(a.prefix, b.prefix) && Before(b.prefix, c.prefix) {
        BeforeIsTransitive(a.prefix, b.prefix, c.prefix);
      } else if a.prefix == b.prefix == c.prefix {
        BeforeIsTransitive(a.total, b.total, c.total);
      }
    }
  }

  ghost predicate Beats(files: set<File>, a: ShardKey, b: ShardKey) {
    Preferred(IsComplete(ShardSet(files, a)), a, IsComplete(ShardSet(files, b)), b)
  }

  ghost predicate IsPreferredKey(files: set<File>, key: ShardKey) {
    && ShardSet(files, key) != {}
    && forall other | other != key && ShardSet(files, other) != {} :: Beats(files, key, other)
  }

  // ---------------------------------------------------------------- the choice

  predicate HasSingle(files: set<File>) { exists f | f in files :: f.shard.None? }

  /** The files taken of all those of a quantization: the plainest single file if there is one, or
      else the preferred set of shards. */
  ghost predicate IsChoice(files: set<File>, chosen: set<File>) {
    if HasSingle(files) then exists f :: IsPlainest(files, f) && chosen == {f}
    else IsShardChoice(files, chosen)
  }

  ghost predicate IsShardChoice(files: set<File>, chosen: set<File>) {
    exists key :: IsPreferredKey(files, key) && chosen == ShardSet(files, key)
  }

  /** The choice depends on nothing but the set of files. */
  lemma ChoiceIsUnique(files: set<File>, a: set<File>, b: set<File>)
    requires IsChoice(files, a) && IsChoice(files, b)
    ensures a == b
  {
    if HasSingle(files) {
      var f :| IsPlainest(files, f) && a == {f};
      var g :| IsPlainest(files, g) && b == {g};
      PlainerIsStrict();
      assert f == g || (Plainer(f, g) && Plainer(g, f) && !Plainer(f, f));
    } else {
      var k :| IsPreferredKey(files, k) && a == ShardSet(files, k);
      var l :| IsPreferredKey(files, l) && b == ShardSet(files, l);
      OnlyOneIsPreferred(files, k, l);
    }
  }

  lemma OnlyOneIsPreferred(files: set<File>, k: ShardKey, l: ShardKey)
    requires IsPreferredKey(files, k) && IsPreferredKey(files, l)
    ensures k == l
  {
    if Beats(files, k, l) {
      PreferenceIsAsymmetric(IsComplete(ShardSet(files, k)), k, IsComplete(ShardSet(files, l)), l);
    }
  }

  ghost predicate IsFirst(files: set<File>, f: File) {
    f in files && forall g | g in files :: g == f || Before(f.name, g.name)
  }

  lemma FirstIsUnique(files: set<File>, f: File, g: File)
    requires IsFirst(files, f) && IsFirst(files, g)
    ensures f == g
  {
    if Before(f.name, g.name) {
      BeforeIsAsymmetric(f.name, g.name);
    }
  }

  ghost function TotalSize(files: set<File>): nat {
    if files == {} then 0 else var f :| f in files; SizeOf(f) + TotalSize(files - {f})
  }

  lemma {:induction false} TotalSizeWithout(files: set<File>, f: File)
    requires f in files
    ensures TotalSize(files) == SizeOf(f) + TotalSize(files - {f})
  {
    var g :| g in files && TotalSize(files) == SizeOf(g) + TotalSize(files - {g});
    if g != f {
      TotalSizeWithout(files - {g}, f);
      TotalSizeWithout(files - {f}, g);
      assert files - {g} - {f} == files - {f} - {g};
    }
  }

  // ---------------------------------------------------------------- a complete set has every shard

  function Indices(shards: set<File>): set<nat> {
    set f | f in shards && f.shard.Some? :: f.shard.value.index
  }

  function UpTo(n: nat): (r: set<nat>)
    ensures forall i: nat :: i in r <==> 1 <= i <= n
  {
    if n == 0 then {} else UpTo(n - 1) + {n}
  }

  lemma {:induction false} UpToHasSize(n: nat)
    ensures |UpTo(n)| == n
  {
    if n > 0 {
      UpToHasSize(n - 1);
    }
  }

  lemma {:induction false} AsManyIndicesAsShards(shards: set<File>)
    requires forall f | f in shards :: f.shard.Some?
    requires forall f, g | f in shards && g in shards && f.shard.value.index == g.shard.value.index :: f == g
    ensures |Indices(shards)| == |shards|
  {
    if shards != {} {
      var f :| f in shards;
      AsManyIndicesAsShards(shards - {f});
      assert Indices(shards) == Indices(shards - {f}) + {f.shard.value.index};
    }
  }

  /** A set of shards judged complete holds each shard from the first to the last. */
  lemma CompleteSetsHaveEveryIndex(shards: set<File>, total: nat)
    requires IsAllOf(shards, total)
    ensures Indices(shards) == UpTo(total)
  {
    AsManyIndicesAsShards(shards);
    UpToHasSize(total);
    SubsetOfSameSizeIsAll(Indices(shards), UpTo(total));
  }

  // ---------------------------------------------------------------- selecting

  lemma {:induction false} AsManyElements<T(!new)>(items: seq<T>)
    requires NoDuplicates(items)
    ensures |Elems(items)| == |items|
  {
    if items != [] {
      var last := |items| - 1;
      AsManyElements(items[..last]);
      assert items[last] !in items[..last];
      assert Elems(items) == Elems(items[..last]) + {items[last]};
    }
  }

  ghost predicate AreGroup<K>(group: seq<File>, files: seq<File>, key: File -> K, k: K) {
    NoDuplicates(group) && forall f :: f in group <==> f in files && key(f) == k
  }

  method GroupBy<K(==, !new)>(files: seq<File>, key: File -> K) returns (groups: map<K, seq<File>>)
    requires NoDuplicates(files)
    ensures forall k | k in groups :: AreGroup(groups[k], files, key, k) && groups[k] != []
    ensures forall f | f in files :: key(f) in groups
  {
    groups := map[];
    for i := 0 to |files|
      invariant forall k | k in groups :: AreGroup(groups[k], files[..i], key, k) && groups[k] != []
      invariant forall f | f in files[..i] :: key(f) in groups
    {
      var f := files[i];
      var k := key(f);
      assert files[..i + 1] == files[..i] + [f];
      assert f !in files[..i];
      groups := groups[k := (if k in groups then groups[k] else []) + [f]];
    }
    assert files[..|files|] == files;
  }

  /** `is_complete_shard_set`. */
  method IsCompleteShardSet(files: seq<File>) returns (complete: bool)
    requires NoDuplicates(files) && forall f | f in files :: f.shard.Some?
    ensures complete <==> IsComplete(Elems(files))
  {
    AsManyElements(files);
    if files == [] || files[0].shard.value.total.None? {
      return false;
    }
    var total := files[0].shard.value.total.value;
    if |files| != total {
      return false;
    }
    var indices: set<nat> := {};
    for i := 0 to |files|
      invariant forall k | 0 <= k < i :: IsShardOf(files[k], total) && files[k].shard.value.index in indices
      invariant forall n | n in indices :: exists k :: 0 <= k < i && files[k].shard.value.index == n
      invariant forall j, k | 0 <= j < k < i :: files[j].shard.value.index != files[k].shard.value.index
    {
      if !IsShardOf(files[i], total) {
        OtherShardMeansIncomplete(files, i, total);
        return false;
      }
      if files[i].shard.value.index in indices {
        var k :| 0 <= k < i && files[k].shard.value.index == files[i].shard.value.index;
        DoubleShardMeansIncomplete(files, k, i);
        return false;
      }
      indices := indices + {files[i].shard.value.index};
    }
    assert IsAllOf(Elems(files), total);
    return true;
  }

  lemma OtherShardMeansIncomplete(files: seq<File>, i: nat, total: nat)
    requires forall f | f in files :: f.shard.Some?
    requires i < |files| && files[0].shard.value.total == Some(total) && !IsShardOf(files[i], total)
    ensures !IsComplete(Elems(files))
  {
    assert files[0] in Elems(files) && files[i] in Elems(files);
  }

  lemma DoubleShardMeansIncomplete(files: seq<File>, k: nat, i: nat)
    requires NoDuplicates(files) && forall f | f in files :: f.shard.Some?
    requires k < i < |files| && files[k].shard.value.index == files[i].shard.value.index
    ensures !IsComplete(Elems(files))
  {
    assert files[k] in Elems(files) && files[i] in Elems(files);
  }

  predicate IsShardOf(f: File, total: nat) {
    f.shard.Some? && f.shard.value.total == Some(total) && 0 < f.shard.value.index <= total
  }

  function KeyOf(f: File): ShardKey {
    if f.shard.Some? then f.shard.value.key else ShardKey("", "")
  }

  ghost predicate AreShards(files: seq<File>) {
    NoDuplicates(files) && forall f | f in files :: f.shard.Some?
  }

  lemma GroupIsShardSet(group: seq<File>, files: seq<File>, key: ShardKey)
    requires AreShards(files) && AreGroup(group, files, KeyOf, key)
    ensures Elems(group) == ShardSet(Elems(files), key) && AreShards(group)
  {}

  /** `select_preferred_shard_set`: whichever order the sets are visited in. */
  method SelectPreferredShardSet(files: seq<File>) returns (r: seq<File>)
    requires AreShards(files)
    ensures files == [] ==> r == []
    ensures files != [] ==> AreShards(r) && r != [] && IsShardChoice(Elems(files), Elems(r))
  {
    if files == [] {
      return [];
    }
    ghost var all := Elems(files);
    var groups := GroupBy(files, KeyOf);
    var keys := groups.Keys;
    assert KeyOf(files[0]) in keys;
    var best :| best in keys;
    var bestIsComplete := CompleteGroup(files, groups[best], best);
    keys := keys - {best};
    while keys != {}
      invariant keys <= groups.Keys && best in groups.Keys - keys
      invariant bestIsComplete == IsComplete(ShardSet(all, best))
      invariant forall k | k in groups && k !in keys && k != best :: Beats(all, best, k)
      decreases |keys|
    {
      var key :| key in keys;
      keys := keys - {key};
      var keyIsComplete := CompleteGroup(files, groups[key], key);
      if Preferred(keyIsComplete, key, bestIsComplete, best) {
        BeatsTheRest(all, groups.Keys - keys - {key}, key, best);
        best, bestIsComplete := key, keyIsComplete;
      } else {
        PreferenceIsTotal(keyIsComplete, key, bestIsComplete, best);
      }
    }
    r := groups[best];
    GroupIsShardSet(r, files, best);
    assert IsPreferredKey(all, best) by {
      forall k | k != best && ShardSet(all, k) != {} ensures Beats(all, best, k) {
        var f :| f in ShardSet(all, k);
        assert KeyOf(f) == k;
      }
      assert r[0] in ShardSet(all, best);
    }
  }

  method CompleteGroup(ghost files: seq<File>, group: seq<File>, key: ShardKey) returns (complete: bool)
    requires AreShards(files) && AreGroup(group, files, KeyOf, key)
    ensures complete == IsComplete(ShardSet(Elems(files), key))
  {
    GroupIsShardSet(group, files, key);
    complete := IsCompleteShardSet(group);
  }

  lemma BeatsTheRest(files: set<File>, keys: set<ShardKey>, key: ShardKey, best: ShardKey)
    requires Beats(files, key, best) && forall k | k in keys && k != best :: Beats(files, best, k)
    ensures forall k | k in keys :: Beats(files, key, k)
  {
    forall k | k in keys && k != best ensures Beats(files, key, k) {
      PreferenceIsTransitive(IsComplete(ShardSet(files, key)), key, IsComplete(ShardSet(files, best)), best,
                             IsComplete(ShardSet(files, k)), k);
    }
  }

  // ---------------------------------------------------------------- sorting and adding up

  predicate FirstByName(f: File, g: File) { Before(f.name, g.name) }

  lemma FirstByNameIsStrict()
    ensures IsStrictOrder(FirstByName)
  {
    forall f, g, h | FirstByName(f, g) && FirstByName(g, h) ensures FirstByName(f, h) {
      BeforeIsTransitive(f.name, g.name, h.name);
    }
    forall f ensures !FirstByName(f, f) {
      if Before(f.name, f.name) {
        BeforeIsAsymmetric(f.name, f.name);
      }
    }
  }

  ghost predicate AreDistinct(files: seq<File>) {
    NoDuplicates(files) && DistinctNames(Elems(files))
  }

  method SortByName(files: seq<File>) returns (r: seq<File>)
    requires AreDistinct(files)
    ensures AreDistinct(r) && Elems(r) == Elems(files) && |r| == |files|
    ensures IsOrdered(r, FirstByName)
  {
    FirstByNameIsStrict();
    r := SortBy(files, FirstByName);
    RearrangedItems(files, r);
    assert Elems(r) == Elems(files);
  }

  lemma SortedFilesStartWithTheFirst(files: seq<File>)
    requires AreDistinct(files) && IsOrdered(files, FirstByName) && files != []
    ensures IsFirst(Elems(files), files[0])
  {
    forall f | f in Elems(files) ensures f == files[0] || Before(files[0].name, f.name) {
      var i :| 0 <= i < |files| && files[i] == f;
      if i > 0 {
        BeforeIsTotal(files[0].name, f.name);
        assert files[0] in Elems(files);
      }
    }
  }

  method SumOfSizes(files: seq<File>) returns (total: nat)
    requires NoDuplicates(files)
    ensures total == TotalSize(Elems(files))
  {
    total := 0;
    for i := 0 to |files|
      invariant total == TotalSize(Elems(files[..i]))
    {
      assert files[i] !in files[..i];
      assert Elems(files[..i + 1]) - {files[i]} == Elems(files[..i]);
      TotalSizeWithout(Elems(files[..i + 1]), files[i]);
      total := total + SizeOf(files[i]);
    }
    assert files[..|files|] == files;
  }

  method Where(files: seq<File>, p: File -> bool) returns (r: seq<File>)
    requires AreDistinct(files)
    ensures AreDistinct(r) && forall f :: f in r <==> f in files && p(f)
  {
    r := [];
    for i := 0 to |files|
      invariant NoDuplicates(r) && forall f :: f in r <==> f in files[..i] && p(f)
    {
      assert files[..i + 1] == files[..i] + [files[i]];
      assert files[i] !in files[..i];
      if p(files[i]) {
        r := r + [files[i]];
      }
    }
    assert files[..|files|] == files;
  }

  // ---------------------------------------------------------------- families

  ghost predicate IsOneFamily(files: set<File>) {
    forall f, g | f in files && g in files :: f.family == g.family
  }

  /** `ensure_unambiguous_model_family`. */
  method IsUnambiguous(files: seq<File>) returns (ok: bool)
    ensures ok <==> IsOneFamily(Elems(files))
  {
    var families: set<string> := {};
    for i := 0 to |files|
      invariant families == set f | f in files[..i] :: f.family
    {
      assert files[..i + 1] == files[..i] + [files[i]];
      families := families + {files[i].family};
    }
    assert files[..|files|] == files;
    assert forall f | f in files :: f.family in families;
    if IsOneFamily(Elems(files)) && files != [] {
      assert families == {files[0].family};
    }
    ok := |families| <= 1;
    if ok {
      AtMostOne(families);
    }
  }

  lemma AtMostOne(a: set<string>)
    requires |a| <= 1
    ensures forall x, y | x in a && y in a :: x == y
  {
    forall x, y | x in a && y in a ensures x == y {
      if x != y {
        assert |{x, y}| == 2;
        SubsetHasFewer({x, y}, a);
      }
    }
  }

  // ---------------------------------------------------------------- what a repository advertises

  predicate IsModelFile(f: File) { f.isGguf && !f.isAuxiliary }

  predicate IsListed(f: File) { IsModelFile(f) && f.tag != UNKNOWN }

  /** The files of a quantization, its tag taken as it is. */
  function Exactly(files: set<File>, tag: string): set<File> {
    set f | f in files && IsModelFile(f) && f.tag == tag
  }

  /** A variant stands for the choice among the files of its tag: the name of the first file, the
      size of all, and whether they are shards. */
  ghost predicate IsAdvertised(files: set<File>, v: Variant) {
    && v.tag != UNKNOWN
    && exists chosen, first ::
         && IsChoice(Exactly(files, v.tag), chosen) && IsFirst(chosen, first)
         && v == Variant(v.tag, TotalSize(chosen), first.name, !HasSingle(Exactly(files, v.tag)))
  }

  function TagOf(f: File): string { f.tag }

  predicate TagThenPlainer(f: File, g: File) {
    Before(f.tag, g.tag) || (f.tag == g.tag && Plainer(f, g))
  }

  lemma TagThenPlainerIsStrict()
    ensures IsStrictOrder(TagThenPlainer)
  {
    PlainerIsStrict();
    forall f, g, h | TagThenPlainer(f, g) && TagThenPlainer(g, h) ensures TagThenPlainer(f, h) {
      if Before(f.tag, g.tag) && Before(g.tag, h.tag) {
        BeforeIsTransitive(f.tag, g.tag, h.tag);
      }
    }
    forall f ensures !TagThenPlainer(f, f) {
      if Before(f.tag, f.tag) {
        BeforeIsAsymmetric(f.tag, f.tag);
      }
    }
  }

  /** Sorted by tag, the files of a tag stand together. */
  lemma TagsStandTogether(r: seq<File>, i: nat, j: nat, k: nat)
    requires IsOrdered(r, TagThenPlainer) && i <= j <= k < |r| && r[i].tag == r[k].tag
    ensures r[j].tag == r[i].tag
  {
    BeforeIsTotal(r[i].tag, r[j].tag);
    assert i == j || !TagThenPlainer(r[j], r[i]);
    assert j == k || !TagThenPlainer(r[k], r[j]);
  }

  ghost predicate IsPlainestOfTag(files: set<File>, f: File) {
    f in files && forall g | g in files && g.tag == f.tag :: g == f || Plainer(f, g)
  }

  lemma FirstOfTagIsPlainest(r: seq<File>, i: nat)
    requires AreDistinct(r) && IsOrdered(r, TagThenPlainer) && i < |r|
    requires i == 0 || r[i - 1].tag != r[i].tag
    ensures IsPlainestOfTag(Elems(r), r[i])
  {
    forall g | g in Elems(r) && g.tag == r[i].tag ensures g == r[i] || Plainer(r[i], g) {
      var k :| 0 <= k < |r| && r[k] == g;
      if k < i {
        TagsStandTogether(r, k, i - 1, i);
      } else if k > i {
        assert !TagThenPlainer(r[k], r[i]);
        BeforeIsTotal(r[i].name, g.name);
      }
    }
  }

  function Single(f: File): Variant { Variant(f.tag, SizeOf(f), f.name, false) }

  ghost predicate TagsAreDistinct(variants: seq<Variant>) {
    forall i, j | 0 <= i < j < |variants| :: variants[i].tag != variants[j].tag
  }

  ghost predicate IsOfPlainest(files: set<File>, v: Variant) {
    exists f :: IsPlainestOfTag(files, f) && v == Single(f)
  }

  ghost predicate IsTagAmong(files: seq<File>, tag: string) {
    exists f :: f in files && f.tag == tag
  }

  /** One variant for each tag among the first `n` files. */
  ghost predicate CoverTags(variants: seq<Variant>, r: seq<File>, n: nat)
    requires n <= |r|
  {
    && TagsAreDistinct(variants)
    && (forall v | v in variants :: IsTagAmong(r[..n], v.tag))
    && forall k | 0 <= k < n :: HasTag(variants, r[k].tag)
  }

  ghost predicate AreOfPlainest(variants: seq<Variant>, files: set<File>) {
    forall v | v in variants :: IsOfPlainest(files, v)
  }

  lemma CoverOneMore(variants: seq<Variant>, r: seq<File>, n: nat, v: Variant)
    requires n < |r| && CoverTags(variants, r, n) && v.tag == r[n].tag && !IsTagAmong(r[..n], v.tag)
    ensures CoverTags(variants + [v], r, n + 1)
  {
    WithOneMoreTag(variants, v);
    assert r[..n + 1] == r[..n] + [r[n]];
    forall w | w in variants + [v] ensures IsTagAmong(r[..n + 1], w.tag) {
      assert r[n] in r[..n + 1];
      if w in variants {
        var f :| f in r[..n] && f.tag == w.tag;
        assert f in r[..n + 1];
      }
    }
  }

  lemma CoverSameTag(variants: seq<Variant>, r: seq<File>, n: nat)
    requires 0 < n < |r| && CoverTags(variants, r, n) && r[n - 1].tag == r[n].tag
    ensures CoverTags(variants, r, n + 1)
  {
    assert r[..n + 1] == r[..n] + [r[n]];
    forall v | v in variants ensures IsTagAmong(r[..n + 1], v.tag) {
      var f :| f in r[..n] && f.tag == v.tag;
      assert f in r[..n + 1];
    }
  }

  lemma TagIsNew(r: seq<File>, n: nat)
    requires IsOrdered(r, TagThenPlainer) && n < |r|
    requires n == 0 || r[n - 1].tag != r[n].tag
    ensures !IsTagAmong(r[..n], r[n].tag)
  {
    forall k | 0 <= k < n ensures r[..n][k].tag != r[n].tag {
      if r[k].tag == r[n].tag {
        TagsStandTogether(r, k, n - 1, n);
      }
    }
  }

  /** The variants of the single files: sorted, the first file of each tag. */
  method SingleVariants(singles: seq<File>) returns (variants: seq<Variant>)
    requires AreDistinct(singles)
    ensures CoverTags(variants, singles, |singles|) && AreOfPlainest(variants, Elems(singles))
  {
    TagThenPlainerIsStrict();
    var r := SortBy(singles, TagThenPlainer);
    RearrangedItems(singles, r);
    assert Elems(r) == Elems(singles);
    variants := [];
    for i := 0 to |r|
      invariant CoverTags(variants, r, i) && AreOfPlainest(variants, Elems(r))
    {
      if i == 0 || r[i].tag != r[i - 1].tag {
        TagIsNew(r, i);
        FirstOfTagIsPlainest(r, i);
        CoverOneMore(variants, r, i, Single(r[i]));
        assert IsOfPlainest(Elems(r), Single(r[i]));
        variants := variants + [Single(r[i])];
      } else {
        CoverSameTag(variants, r, i);
      }
    }
    SameFilesSameTags(variants, r, singles);
  }

  lemma SameFilesSameTags(variants: seq<Variant>, r: seq<File>, singles: seq<File>)
    requires CoverTags(variants, r, |r|) && Elems(r) == Elems(singles)
    ensures CoverTags(variants, singles, |singles|)
  {
    assert forall f :: f in r <==> f in Elems(r);
    assert forall f :: f in singles <==> f in Elems(singles);
    assert r[..|r|] == r && singles[..|singles|] == singles;
    forall k | 0 <= k < |singles| ensures HasTag(variants, singles[k].tag) {
      assert singles[k] in r;
    }
  }

  ghost predicate HasTag(variants: seq<Variant>, tag: string) {
    exists v :: v in variants && v.tag == tag
  }

  lemma WithOneMoreTag(variants: seq<Variant>, v: Variant)
    requires TagsAreDistinct(variants) && !HasTag(variants, v.tag)
    ensures TagsAreDistinct(variants + [v]) && HasTag(variants + [v], v.tag)
    ensures forall tag :: HasTag(variants, tag) ==> HasTag(variants + [v], tag)
  {
    forall i | 0 <= i < |variants| ensures variants[i].tag != v.tag {
      assert variants[i] in variants;
    }
    assert v in variants + [v];
    forall tag | HasTag(variants, tag) ensures HasTag(variants + [v], tag) {
      var w :| w in variants && w.tag == tag;
      assert w in variants + [v];
    }
  }

  function WithTag(files: set<File>, tag: string): set<File> { set f | f in files && f.tag == tag }

  /** A variant of shards only. */
  ghost predicate IsOfShards(shards: set<File>, v: Variant) {
    exists chosen, first ::
      && IsShardChoice(shards, chosen) && IsFirst(chosen, first)
      && v == Variant(v.tag, TotalSize(chosen), first.name, true)
  }

  method ShardVariant(shards: seq<File>, tag: string) returns (v: Variant)
    requires AreShards(shards) && AreDistinct(shards) && shards != []
    ensures v.tag == tag && IsOfShards(Elems(shards), v)
  {
    var chosen := SelectPreferredShardSet(shards);
    ChosenShardsAreDistinct(shards, chosen);
    var sorted := SortByName(chosen);
    SortedFilesStartWithTheFirst(sorted);
    var size := SumOfSizes(sorted);
    v := Variant(tag, size, sorted[0].name, true);
  }

  lemma ChosenShardsAreDistinct(shards: seq<File>, chosen: seq<File>)
    requires AreDistinct(shards) && NoDuplicates(chosen) && IsShardChoice(Elems(shards), Elems(chosen))
    ensures AreDistinct(chosen)
  {
    assert Elems(chosen) <= Elems(shards);
  }

  ghost predicate AreOfShards(variants: seq<Variant>, shards: set<File>) {
    forall v | v in variants :: IsOfShards(WithTag(shards, v.tag), v)
  }

  lemma GroupHasTag(group: seq<File>, files: seq<File>, tag: string)
    requires AreDistinct(files) && AreGroup(group, files, TagOf, tag)
    ensures Elems(group) == WithTag(Elems(files), tag) && AreDistinct(group)
  {
    forall f ensures f in Elems(group) <==> f in WithTag(Elems(files), tag) {
      assert f in group <==> f in files && TagOf(f) == tag;
    }
  }

  /** The variants of the tags that only shards have. */
  method ShardVariants(shards: seq<File>, singles: seq<Variant>) returns (variants: seq<Variant>)
    requires AreShards(shards) && AreDistinct(shards) && TagsAreDistinct(singles)
    ensures TagsAreDistinct(singles + variants) && AreOfShards(variants, Elems(shards))
    ensures forall f | f in shards :: HasTag(singles + variants, f.tag)
    ensures forall v | v in variants :: !HasTag(singles, v.tag) && IsTagAmong(shards, v.tag)
  {
    var groups := GroupBy(shards, TagOf);
    var tags := groups.Keys;
    variants := [];
    assert singles + variants == singles;
    while tags != {}
      invariant tags <= groups.Keys
      invariant TagsAreDistinct(singles + variants) && AreOfShards(variants, Elems(shards))
      invariant forall tag | tag in groups && tag !in tags :: HasTag(singles + variants, tag)
      invariant forall v | v in variants :: !HasTag(singles, v.tag) && v.tag in groups.Keys - tags
      decreases |tags|
    {
      var tag :| tag in tags;
      tags := tags - {tag};
      var seen := SeenTag(singles, tag);
      if seen {
        LaterTagsStay(singles, variants, tag);
      } else {
        var shard := groups[tag][0];
        GroupHasTag(groups[tag], shards, tag);
        var v := ShardVariant(groups[tag], tag);
        NewTagInBoth(singles, variants, v);
        variants := variants + [v];
      }
    }
    forall v | v in variants ensures IsTagAmong(shards, v.tag) {
      assert AreGroup(groups[v.tag], shards, TagOf, v.tag);
      assert groups[v.tag][0] in groups[v.tag];
    }
    forall f | f in shards ensures HasTag(singles + variants, f.tag) {
      assert TagOf(f) in groups;
    }
  }

  method SeenTag(variants: seq<Variant>, tag: string) returns (seen: bool)
    ensures seen <==> HasTag(variants, tag)
  {
    seen := exists v | v in variants :: v.tag == tag;
  }

  lemma LaterTagsStay(singles: seq<Variant>, variants: seq<Variant>, tag: string)
    requires HasTag(singles, tag)
    ensures HasTag(singles + variants, tag)
  {
    var v :| v in singles && v.tag == tag;
    assert v in singles + variants;
  }

  lemma NewTagInBoth(singles: seq<Variant>, variants: seq<Variant>, v: Variant)
    requires TagsAreDistinct(singles + variants) && !HasTag(singles, v.tag) && !HasTag(variants, v.tag)
    ensures TagsAreDistinct(singles + (variants + [v])) && HasTag(singles + (variants + [v]), v.tag)
    ensures forall tag :: HasTag(singles + variants, tag) ==> HasTag(singles + (variants + [v]), tag)
  {
    assert singles + (variants + [v]) == (singles + variants) + [v];
    assert forall w :: w in singles + variants <==> w in singles || w in variants;
    WithOneMoreTag(singles + variants, v);
  }

  // ---------------------------------------------------------------- the list of variants

  /** A variant of a single file is the choice among the files of its tag. */
  lemma SingleIsAdvertised(files: set<File>, singles: set<File>, v: Variant)
    requires singles == set f | f in files && IsListed(f) && f.shard.None?
    requires IsOfPlainest(singles, v)
    ensures IsAdvertised(files, v)
  {
    var f :| IsPlainestOfTag(singles, f) && v == Single(f);
    var all := Exactly(files, v.tag);
    assert f in all && HasSingle(all);
    assert IsPlainest(all, f);
    TotalSizeWithout({f}, f);
    assert {f} - {f} == {};
    assert IsChoice(all, {f}) && IsFirst({f}, f);
  }

  /** So is a variant of shards, when no single file has its tag. */
  lemma ShardsAreAdvertised(files: set<File>, shards: set<File>, v: Variant)
    requires shards == set f | f in files && IsListed(f) && f.shard.Some?
    requires IsOfShards(WithTag(shards, v.tag), v) && v.tag != UNKNOWN
    requires !HasSingle(Exactly(files, v.tag))
    ensures IsAdvertised(files, v)
  {
    assert WithTag(shards, v.tag) == Exactly(files, v.tag);
  }

  function BetterBy(rank: string -> nat): (Variant, Variant) -> bool {
    (v: Variant, w: Variant) => rank(v.tag) > rank(w.tag) || (rank(v.tag) == rank(w.tag) && v.size > w.size)
  }

  /** `group_into_variants`; no result when the files of a tag are of several families. */
  method GroupIntoVariants(files: seq<File>, rank: string -> nat) returns (r: Option<seq<Variant>>)
    requires AreDistinct(files)
    ensures r.None? <==> exists tag :: tag != UNKNOWN && !IsOneFamily(Exactly(Elems(files), tag))
    ensures r.Some? ==> forall v | v in r.value :: IsAdvertised(Elems(files), v)
    ensures r.Some? ==> forall f | f in files && IsListed(f) :: HasTag(r.value, f.tag)
    ensures r.Some? ==> TagsAreDistinct(r.value) && IsOrdered(r.value, BetterBy(rank))
  {
    var listed := Where(files, IsListed);
    var ok := AllFamiliesAreOne(files, listed);
    if !ok {
      return None;
    }
    var variants := VariantsOf(files, listed);
    var sorted := SortBy(variants, BetterBy(rank));
    SortedVariants(variants, sorted);
    return Some(sorted);
  }

  method AllFamiliesAreOne(ghost files: seq<File>, listed: seq<File>) returns (ok: bool)
    requires AreDistinct(listed) && forall f :: f in listed <==> f in files && IsListed(f)
    ensures ok <==> forall tag | tag != UNKNOWN :: IsOneFamily(Exactly(Elems(files), tag))
  {
    var groups := GroupBy(listed, TagOf);
    var tags := groups.Keys;
    while tags != {}
      invariant tags <= groups.Keys
      invariant forall tag | tag in groups && tag !in tags :: IsOneFamily(Exactly(Elems(files), tag))
      decreases |tags|
    {
      var tag :| tag in tags;
      tags := tags - {tag};
      TagsAreListed(files, listed, groups[tag], tag);
      var one := IsUnambiguous(groups[tag]);
      if !one {
        return false;
      }
    }
    forall tag | tag != UNKNOWN ensures IsOneFamily(Exactly(Elems(files), tag)) {
      forall f | f in Exactly(Elems(files), tag) ensures tag in groups {
        assert TagOf(f) in groups;
      }
    }
    return true;
  }

  lemma TagsAreListed(files: seq<File>, listed: seq<File>, group: seq<File>, tag: string)
    requires AreDistinct(listed) && forall f :: f in listed <==> f in files && IsListed(f)
    requires AreGroup(group, listed, TagOf, tag) && group != []
    ensures tag != UNKNOWN && Elems(group) == Exactly(Elems(files), tag)
  {
    assert group[0] in group;
    forall f ensures f in group <==> f in Exactly(Elems(files), tag) {
      assert f in group <==> f in listed && TagOf(f) == tag;
    }
  }

  method VariantsOf(ghost files: seq<File>, listed: seq<File>) returns (variants: seq<Variant>)
    requires AreDistinct(listed) && forall f :: f in listed <==> f in files && IsListed(f)
    ensures forall v | v in variants :: IsAdvertised(Elems(files), v)
    ensures forall f | f in listed :: HasTag(variants, f.tag)
    ensures TagsAreDistinct(variants)
  {
    var singles := Where(listed, (f: File) => f.shard.None?);
    var shards := Where(listed, (f: File) => f.shard.Some?);
    var ofSingles := SingleVariants(singles);
    var ofShards := ShardVariants(shards, ofSingles);
    AllAreAdvertised(files, singles, shards, ofSingles, ofShards);
    variants := ofSingles + ofShards;
    forall f | f in listed ensures HasTag(variants, f.tag) {
      if f in singles {
        var k :| 0 <= k < |singles| && singles[k] == f;
        LaterTagsStay(ofSingles, ofShards, f.tag);
      } else {
        assert f in shards;
      }
    }
  }

  lemma AllAreAdvertised(files: seq<File>, singles: seq<File>, shards: seq<File>,
                         ofSingles: seq<Variant>, ofShards: seq<Variant>)
    requires forall f :: f in singles <==> f in files && IsListed(f) && f.shard.None?
    requires forall f :: f in shards <==> f in files && IsListed(f) && f.shard.Some?
    requires CoverTags(ofSingles, singles, |singles|) && AreOfPlainest(ofSingles, Elems(singles))
    requires AreOfShards(ofShards, Elems(shards))
    requires forall v | v in ofShards :: !HasTag(ofSingles, v.tag) && IsTagAmong(shards, v.tag)
    ensures forall v | v in ofSingles + ofShards :: IsAdvertised(Elems(files), v)
  {
    forall v | v in ofSingles ensures IsAdvertised(Elems(files), v) {
      SingleIsAdvertised(Elems(files), Elems(singles), v);
    }
    forall v | v in ofShards ensures IsAdvertised(Elems(files), v) {
      var f :| f in shards && f.tag == v.tag;
      NoSingleHasTheTag(files, singles, ofSingles, v.tag);
      ShardsAreAdvertised(Elems(files), Elems(shards), v);
    }
  }

  lemma NoSingleHasTheTag(files: seq<File>, singles: seq<File>, ofSingles: seq<Variant>, tag: string)
    requires forall f :: f in singles <==> f in files && IsListed(f) && f.shard.None?
    requires CoverTags(ofSingles, singles, |singles|) && !HasTag(ofSingles, tag) && tag != UNKNOWN
    ensures !HasSingle(Exactly(Elems(files), tag))
  {
    forall f | f in singles ensures f.tag != tag {
      var k :| 0 <= k < |singles| && singles[k] == f;
      assert HasTag(ofSingles, singles[k].tag);
    }
  }

  lemma SortedVariants(variants: seq<Variant>, sorted: seq<Variant>)
    requires TagsAreDistinct(variants) && multiset(sorted) == multiset(variants)
    ensures TagsAreDistinct(sorted) && forall v :: v in sorted <==> v in variants
  {
    RearrangedItems(variants, sorted);
    forall i, j | 0 <= i < j < |sorted| ensures sorted[i].tag != sorted[j].tag {
      assert sorted[i] in sorted && sorted[j] in sorted;
    }
  }

  // ---------------------------------------------------------------- what a request resolves to

  predicate SameLetter(a: char, b: char) {
    a == b || ('A' <= a <= 'Z' && b as int == a as int + 32) || ('A' <= b <= 'Z' && a as int == b as int + 32)
  }

  predicate SameIgnoringCase(a: string, b: string) {
    |a| == |b| && forall i | 0 <= i < |a| :: SameLetter(a[i], b[i])
  }

  /** The files of a quantization, whatever the case of its tag. */
  function Matching(files: set<File>, quant: string): set<File> {
    set f | f in files && IsModelFile(f) && SameIgnoringCase(f.tag, quant)
  }

  datatype Resolution =
    | Resolved(files: seq<File>, totalSize: nat)
    | NotFound | Ambiguous
    | NoShardTotal | IncompleteShards | InconsistentTotals | NonContiguousShards

  /** The files are the shards one to the last, in this order. */
  ghost predicate AreInSequence(files: seq<File>) {
    forall i | 0 <= i < |files| :: IsShardAt(files[i], i, |files|)
  }

  predicate IsShardAt(f: File, i: nat, n: nat) {
    f.shard.Some? && f.shard.value.total == Some(n) && f.shard.value.index == i + 1
  }

  /** A complete set of shards whose names sort as their numbers do. */
  ghost predicate NamesFollowIndices(shards: set<File>) {
    && IsComplete(shards)
    && forall f, g | f in shards && g in shards && f.shard.value.index < g.shard.value.index ::
         Before(f.name, g.name)
  }

  ghost predicate IsResolved(all: set<File>, files: seq<File>, total: nat) {
    && files != [] && AreDistinct(files) && IsOrdered(files, FirstByName)
    && IsChoice(all, Elems(files)) && total == TotalSize(Elems(files))
    && (!HasSingle(all) ==> AreInSequence(files))
  }

  /** `resolve_model_spec_full`. */
  method ResolveModelSpec(files: seq<File>, quant: string) returns (r: Resolution)
    requires AreDistinct(files)
    ensures r.NotFound? <==> Matching(Elems(files), quant) == {}
    ensures r.Ambiguous? <==> !IsOneFamily(Matching(Elems(files), quant))
    ensures r.Resolved? ==> IsResolved(Matching(Elems(files), quant), r.files, r.totalSize)
    ensures r.Resolved? <==> CanResolve(Matching(Elems(files), quant))
  {
    var matching := Where(files, (f: File) => IsModelFile(f) && SameIgnoringCase(f.tag, quant));
    assert Elems(matching) == Matching(Elems(files), quant);
    if matching == [] {
      return NotFound;
    }
    assert matching[0] in Elems(matching);
    var ok := IsUnambiguous(matching);
    if !ok {
      return Ambiguous;
    }
    r := ResolveMatching(matching);
  }

  ghost predicate CanResolve(all: set<File>) {
    && all != {} && IsOneFamily(all)
    && (HasSingle(all) || exists chosen :: IsShardChoice(all, chosen) && NamesFollowIndices(chosen))
  }

  method ResolveMatching(matching: seq<File>) returns (r: Resolution)
    requires AreDistinct(matching) && matching != [] && IsOneFamily(Elems(matching))
    ensures !r.NotFound? && !r.Ambiguous?
    ensures r.Resolved? ==> IsResolved(Elems(matching), r.files, r.totalSize)
    ensures r.Resolved? <==> CanResolve(Elems(matching))
  {
    assert matching[0] in Elems(matching);
    var singles := Where(matching, (f: File) => f.shard.None?);
    if singles != [] {
      var single := PlainestOf(matching, singles);
      TotalSizeWithout({single}, single);
      assert {single} - {single} == {} && Elems([single]) == {single};
      return Resolved([single], SizeOf(single));
    }
    NoneIsSingle(matching, singles);
    r := ResolveShards(matching);
  }

  lemma NoneIsSingle(files: seq<File>, singles: seq<File>)
    requires singles == [] && forall f :: f in singles <==> f in files && f.shard.None?
    requires AreDistinct(files)
    ensures AreShards(files) && !HasSingle(Elems(files))
  {
    forall f | f in files ensures f.shard.Some? {
      assert f !in singles;
    }
  }

  method PlainestOf(ghost files: seq<File>, singles: seq<File>) returns (single: File)
    requires AreDistinct(singles) && singles != []
    requires forall f :: f in singles <==> f in files && f.shard.None?
    ensures IsPlainest(Elems(files), single) && HasSingle(Elems(files))
  {
    PlainerIsStrict();
    var sorted := SortBy(singles, Plainer);
    RearrangedItems(singles, sorted);
    single := sorted[0];
    assert single in sorted;
    forall f | f in singles ensures f == single || Plainer(single, f) {
      assert f in sorted;
      var i :| 0 <= i < |sorted| && sorted[i] == f;
      assert i == 0 || !Plainer(sorted[i], sorted[0]);
      BeforeIsTotal(single.name, f.name);
      assert f in Elems(singles) && single in Elems(singles);
    }
  }

  method ResolveShards(shards: seq<File>) returns (r: Resolution)
    requires AreDistinct(shards) && AreShards(shards) && shards != [] && !HasSingle(Elems(shards))
    requires IsOneFamily(Elems(shards))
    ensures !r.NotFound? && !r.Ambiguous?
    ensures r.Resolved? ==> IsResolved(Elems(shards), r.files, r.totalSize)
    ensures r.Resolved? <==> CanResolve(Elems(shards))
  {
    var chosen := SelectPreferredShardSet(shards);
    ChosenShardsAreDistinct(shards, chosen);
    var sorted := SortByName(chosen);
    r := CheckSequence(sorted);
    OnlyTheChosenMatter(Elems(shards), Elems(sorted));
    assert shards[0] in Elems(shards);
  }

  lemma OnlyTheChosenMatter(all: set<File>, chosen: set<File>)
    requires all != {} && IsOneFamily(all) && !HasSingle(all) && IsShardChoice(all, chosen)
    ensures CanResolve(all) <==> NamesFollowIndices(chosen)
  {
    forall other | IsShardChoice(all, other) ensures other == chosen {
      ChoiceIsUnique(all, other, chosen);
    }
  }

  /** Whether the shards, sorted by name, are those of a complete set in sequence. */
  method CheckSequence(shards: seq<File>) returns (r: Resolution)
    requires AreDistinct(shards) && IsOrdered(shards, FirstByName) && shards != []
    requires forall f | f in shards :: f.shard.Some?
    ensures !r.NotFound? && !r.Ambiguous?
    ensures r.Resolved? ==> r.files == shards && r.totalSize == TotalSize(Elems(shards)) && AreInSequence(shards)
    ensures r.Resolved? <==> NamesFollowIndices(Elems(shards))
  {
    SequenceExactlyWhenNamesFollowIndices(shards);
    assert shards[0] in shards;
    assert AreInSequence(shards) ==> IsShardAt(shards[0], 0, |shards|);
    if shards[0].shard.value.total.None? {
      return NoShardTotal;
    }
    var total := shards[0].shard.value.total.value;
    if |shards| != total {
      return IncompleteShards;
    }
    for i := 0 to |shards|
      invariant forall k | 0 <= k < i :: IsShardAt(shards[k], k, total)
    {
      assert AreInSequence(shards) ==> IsShardAt(shards[i], i, |shards|);
      assert shards[i] in shards;
      if shards[i].shard.value.total != Some(total) {
        return InconsistentTotals;
      }
      if shards[i].shard.value.index != i + 1 {
        return NonContiguousShards;
      }
    }
    var size := SumOfSizes(shards);
    return Resolved(shards, size);
  }

  lemma SequenceExactlyWhenNamesFollowIndices(shards: seq<File>)
    requires AreDistinct(shards) && IsOrdered(shards, FirstByName) && shards != []
    requires forall f | f in shards :: f.shard.Some?
    ensures AreInSequence(shards) <==> NamesFollowIndices(Elems(shards))
  {
    if AreInSequence(shards) {
      SequencesAreComplete(shards);
    }
    if NamesFollowIndices(Elems(shards)) {
      NamesInOrderAreInSequence(shards);
    }
  }

  lemma SequencesAreComplete(shards: seq<File>)
    requires AreDistinct(shards) && IsOrdered(shards, FirstByName) && shards != []
    requires AreInSequence(shards)
    ensures NamesFollowIndices(Elems(shards))
  {
    AsManyElements(shards);
    assert shards[0] in Elems(shards);
    forall f | f in Elems(shards) ensures IsShardOf(f, |shards|) && shards[f.shard.value.index - 1] == f {
      var i :| 0 <= i < |shards| && shards[i] == f;
      assert IsShardAt(shards[i], i, |shards|);
    }
    assert IsAllOf(Elems(shards), |shards|);
    forall f, g | f in Elems(shards) && g in Elems(shards) && f.shard.value.index < g.shard.value.index
      ensures Before(f.name, g.name)
    {
      var i, j := f.shard.value.index - 1, g.shard.value.index - 1;
      assert !FirstByName(shards[j], shards[i]);
      BeforeIsTotal(f.name, g.name);
    }
  }

  lemma NamesInOrderAreInSequence(shards: seq<File>)
    requires AreDistinct(shards) && IsOrdered(shards, FirstByName)
    requires NamesFollowIndices(Elems(shards))
    ensures AreInSequence(shards)
  {
    var total :| IsAllOf(Elems(shards), total);
    AsManyElements(shards);
    var n := |shards|;
    forall i | 0 <= i < n ensures IsShardOf(shards[i], n) {
      assert shards[i] in Elems(shards);
    }
    var indices := seq(n, i requires 0 <= i < n => shards[i].shard.value.index);
    forall i, j | 0 <= i < j < n ensures indices[i] < indices[j] {
      assert shards[i] in Elems(shards) && shards[j] in Elems(shards);
      assert !FirstByName(shards[j], shards[i]);
    }
    forall i | 0 <= i < n ensures IsShardAt(shards[i], i, n) {
      IncreasingIndicesAreAll(indices, i);
    }
  }

  /** So many increasing numbers from one to as many are all of these. */
  lemma IncreasingIndicesAreAll(indices: seq<nat>, i: nat)
    requires i < |indices|
    requires forall i, j | 0 <= i < j < |indices| :: indices[i] < indices[j]
    requires forall i | 0 <= i < |indices| :: 1 <= indices[i] <= |indices|
    ensures indices[i] == i + 1
  {
    AtLeastAsManyApart(indices, 0, i);
    AtLeastAsManyApart(indices, i, |indices| - 1);
  }

  lemma {:induction false} AtLeastAsManyApart(indices: seq<nat>, i: nat, j: nat)
    requires i <= j < |indices|
    requires forall i, j | 0 <= i < j < |indices| :: indices[i] < indices[j]
    ensures indices[j] >= indices[i] + (j - i)
    decreases j - i
  {
    if i < j {
      AtLeastAsManyApart(indices, i, j - 1);
    }
  }

  // ---------------------------------------------------------------- advertised and resolved

  /** No file of the quantization has a tag that differs from `tag` in case only. */
  ghost predicate HasNoTwins(files: set<File>, tag: string) {
    forall f | f in files && IsModelFile(f) && SameIgnoringCase(f.tag, tag) :: f.tag == tag
  }

  lemma SameIsSymmetricAndTransitive(a: string, b: string, c: string)
    requires SameIgnoringCase(a, b) && SameIgnoringCase(c, b)
    ensures SameIgnoringCase(a, c)
  {
    forall i | 0 <= i < |a| ensures SameLetter(a[i], c[i]) {
      assert SameLetter(a[i], b[i]) && SameLetter(c[i], b[i]);
    }
  }

  lemma WithoutTwinsMatchingIsExact(files: set<File>, tag: string, quant: string)
    requires HasNoTwins(files, tag) && SameIgnoringCase(tag, quant)
    ensures Matching(files, quant) == Exactly(files, tag)
  {
    forall f | f in Matching(files, quant) ensures f.tag == tag {
      SameIsSymmetricAndTransitive(f.tag, quant, tag);
    }
  }

  /** What a repository advertises for a quantization does not depend on the order in which its files
      are listed or its groups are visited. */
  lemma OneVariantPerTag(files: set<File>, v: Variant, w: Variant)
    requires IsAdvertised(files, v) && IsAdvertised(files, w) && v.tag == w.tag
    ensures v == w
  {
    var a, f :| IsChoice(Exactly(files, v.tag), a) && IsFirst(a, f)
                && v == Variant(v.tag, TotalSize(a), f.name, !HasSingle(Exactly(files, v.tag)));
    var b, g :| IsChoice(Exactly(files, w.tag), b) && IsFirst(b, g)
                && w == Variant(w.tag, TotalSize(b), g.name, !HasSingle(Exactly(files, w.tag)));
    ChoiceIsUnique(Exactly(files, v.tag), a, b);
    FirstIsUnique(a, f, g);
  }

  /** Advertised is resolved: a request for an advertised quantization that resolves gets the file
      name and the size advertised, when no tag differs from it in case only. */
  lemma AdvertisedIsResolved(files: set<File>, v: Variant, quant: string, resolved: seq<File>, total: nat)
    requires IsAdvertised(files, v) && SameIgnoringCase(v.tag, quant) && HasNoTwins(files, v.tag)
    requires IsResolved(Matching(files, quant), resolved, total)
    ensures resolved[0].name == v.filename && total == v.size
    ensures v.sharded ==> IsComplete(Elems(resolved)) && Indices(Elems(resolved)) == UpTo(|resolved|)
  {
    WithoutTwinsMatchingIsExact(files, v.tag, quant);
    SortedFilesStartWithTheFirst(resolved);
    ResolvedIsAdvertised(files, v, resolved);
    if v.sharded {
      SequencesAreComplete(resolved);
      var n :| IsAllOf(Elems(resolved), n);
      AsManyElements(resolved);
      CompleteSetsHaveEveryIndex(Elems(resolved), n);
    }
  }

  lemma ResolvedIsAdvertised(files: set<File>, v: Variant, resolved: seq<File>)
    requires IsAdvertised(files, v) && resolved != []
    requires IsChoice(Exactly(files, v.tag), Elems(resolved)) && IsFirst(Elems(resolved), resolved[0])
    ensures v == Variant(v.tag, TotalSize(Elems(resolved)), resolved[0].name, !HasSingle(Exactly(files, v.tag)))
  {
    OneVariantPerTag(files, v, Variant(v.tag, TotalSize(Elems(resolved)), resolved[0].name,
                                       !HasSingle(Exactly(files, v.tag))));
  }

  /** Being advertised is not enough to resolve: shards must be a complete set whose names sort as
      their numbers do. A single file always resolves. */
  lemma AdvertisedResolvesExactlyWhen(files: set<File>, v: Variant, quant: string, chosen: set<File>)
    requires IsAdvertised(files, v) && SameIgnoringCase(v.tag, quant) && HasNoTwins(files, v.tag)
    requires IsOneFamily(Exactly(files, v.tag)) && IsChoice(Exactly(files, v.tag), chosen)
    ensures CanResolve(Matching(files, quant)) <==> !v.sharded || NamesFollowIndices(chosen)
  {
    WithoutTwinsMatchingIsExact(files, v.tag, quant);
    var all := Exactly(files, v.tag);
    if v.sharded {
      var key :| IsPreferredKey(all, key) && chosen == ShardSet(all, key);
      assert ShardSet(all, key) <= all;
      OnlyTheChosenMatter(all, chosen);
    }
  }
}

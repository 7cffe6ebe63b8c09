/** Where what is advertised and what is resolved differ: shards whose names sort otherwise than their
    numbers, and tags that differ in case only. */
module VariantTwins {
  import opened FiniteSets
  import opened ModelVariants
  import opened NameOrder
  import opened Wrappers

  // ---------------------------------------------------------------- a complete set that is refused

  /** Shard `index` of two, of the quantization `tag` in the repository of a model `family`. */
  function ShardFile(name: string, index: nat, size: nat, tag: string, family: string): File {
    File(name, Some(size), true, false, tag, family, Some(Shard(index, Some(2), ShardKey(family + "-" + tag, "2"))))
  }

  /** Two shards, complete and advertised and yet refused: the second one's name comes first. */
  lemma CompleteShardsCanBeRefused(first: string, second: string, m: nat, n: nat, tag: string, family: string)
    returns (files: set<File>, v: Variant)
    requires first == "m-Q4_K_M-1-of-2.gguf" && second == "m-Q4_K_M-02-of-2.gguf" && tag == "Q4_K_M" && family == "m"
    ensures files == {ShardFile(first, 1, m, tag, family), ShardFile(second, 2, n, tag, family)} && IsComplete(files)
    ensures IsAdvertised(files, v) && v == Variant(tag, m + n, second, true)
    ensures !CanResolve(Matching(files, tag))
  {
    SecondNameFirst(first, second);
    assert tag != UNKNOWN by { assert |tag| != |UNKNOWN|; }
    files, v := ShardsInTheWrongOrder(ShardFile(first, 1, m, tag, family), ShardFile(second, 2, n, tag, family), tag);
  }

  /** So are any two shards of one set whose names sort the other way round. */
  lemma ShardsInTheWrongOrder(f: File, g: File, tag: string) returns (files: set<File>, v: Variant)
    requires IsModelFile(f) && IsModelFile(g) && f.tag == g.tag == tag && tag != UNKNOWN && f.family == g.family
    requires IsShardAt(f, 0, 2) && IsShardAt(g, 1, 2) && f.shard.value.key == g.shard.value.key
    requires Before(g.name, f.name)
    ensures files == {f, g} && IsComplete(files)
    ensures IsAdvertised(files, v) && v == Variant(tag, SizeOf(f) + SizeOf(g), g.name, true)
    ensures !CanResolve(Matching(files, tag))
  {
    files := {f, g};
    BeforeIsAsymmetric(g.name, f.name);
    TwoShardsOutOfOrder(f, g);
    v := OneKeyIsChosen(files, g, tag);
    TotalSizeWithout(files, f);
    assert files - {f} == {g};
    TotalSizeWithout({g}, g);
    assert {g} - {g} == {};
  }

  /** Shards of one key and tag are the choice among themselves, advertised by their first name. */
  lemma OneKeyIsChosen(files: set<File>, first: File, tag: string) returns (v: Variant)
    requires IsFirst(files, first) && tag != UNKNOWN && first.shard.Some?
    requires forall f | f in files ::
               IsModelFile(f) && f.tag == tag && f.shard.Some? && f.shard.value.key == first.shard.value.key
               && f.family == first.family
    requires !NamesFollowIndices(files)
    ensures IsAdvertised(files, v) && v == Variant(tag, TotalSize(files), first.name, true)
    ensures !CanResolve(Matching(files, tag))
  {
    var key := first.shard.value.key;
    assert Exactly(files, tag) == files && Matching(files, tag) == files;
    assert ShardSet(files, key) == files;
    assert IsPreferredKey(files, key);
    assert IsShardChoice(files, files);
    v := Variant(tag, TotalSize(files), first.name, true);
    OnlyTheChosenMatter(files, files);
  }

  lemma TwoShardsOutOfOrder(f: File, g: File)
    requires IsShardAt(f, 0, 2) && IsShardAt(g, 1, 2) && !Before(f.name, g.name)
    ensures IsComplete({f, g}) && !NamesFollowIndices({f, g})
  {
    assert IsAllOf({f, g}, 2);
    assert f in {f, g} && g in {f, g};
  }

  lemma SecondNameFirst(first: string, second: string)
    requires first == "m-Q4_K_M-1-of-2.gguf" && second == "m-Q4_K_M-02-of-2.gguf"
    ensures Before(second, first)
  {
    var start, a, b := "m-Q4_K_M-", "1-of-2.gguf", "02-of-2.gguf";
    assert first == start + a;
    assert second == start + b;
    SharedStart(start, b, a);
  }

  lemma {:induction false} SharedStart(start: string, a: string, b: string)
    ensures Before(start + a, start + b) == Before(a, b)
  {
    if start == "" {
      assert start + a == a && start + b == b;
    } else {
      SharedStart(start[1..], a, b);
      assert (start + a)[1..] == start[1..] + a && (start + b)[1..] == start[1..] + b;
    }
  }

  // ---------------------------------------------------------------- tags that differ in case only

  /** The tag of a shard is read from the part of its name that is in its key. */
  ghost predicate TagFollowsKey(files: set<File>) {
    forall f, g | f in files && g in files && f.shard.Some? && g.shard.Some? ::
      f.shard.value.key == g.shard.value.key ==> f.tag == g.tag
  }

  lemma AdvertisedAs(files: set<File>, v: Variant, chosen: set<File>, first: File)
    requires IsAdvertised(files, v) && IsChoice(Exactly(files, v.tag), chosen) && IsFirst(chosen, first)
    ensures v.filename == first.name && v.size == TotalSize(chosen) && v.sharded == !HasSingle(Exactly(files, v.tag))
  {
    OneVariantPerTag(files, v, Variant(v.tag, TotalSize(chosen), first.name, !HasSingle(Exactly(files, v.tag))));
  }

  /** A single file resolves as advertised exactly when it is plainer than the single files of the
      tags that differ from its own in case only. */
  lemma SingleResolvesAsAdvertisedExactlyWhen(files: set<File>, v: Variant, quant: string, f: File,
                                              resolved: seq<File>, total: nat)
    requires DistinctNames(files) && IsAdvertised(files, v) && SameIgnoringCase(v.tag, quant)
    requires IsPlainest(Exactly(files, v.tag), f)
    requires IsResolved(Matching(files, quant), resolved, total)
    ensures resolved[0].name == v.filename
       <==> forall g | g in Matching(files, quant) && g.shard.None? && g.tag != v.tag :: Plainer(f, g)
    ensures resolved[0].name == v.filename ==> total == v.size
  {
    var all := Exactly(files, v.tag);
    var matching := Matching(files, quant);
    assert f in matching && HasSingle(all) && HasSingle(matching);
    assert IsChoice(all, {f}) && IsFirst({f}, f);
    AdvertisedAs(files, v, {f}, f);
    if forall g | g in matching && g.shard.None? && g.tag != v.tag :: Plainer(f, g) {
      assert IsPlainest(matching, f) && IsChoice(matching, {f});
      ChoiceIsUnique(matching, {f}, Elems(resolved));
      assert resolved[0] in Elems(resolved);
    }
    if resolved[0].name == f.name {
      assert resolved[0] in Elems(resolved);
      var p :| IsPlainest(matching, p) && Elems(resolved) == {p};
      assert p == f;
    }
  }

  /** Shards resolve as advertised exactly when no tag that differs from theirs in case only has a
      single file, or a set of shards that is not behind theirs. */
  lemma ShardsResolveAsAdvertisedExactlyWhen(files: set<File>, v: Variant, quant: string, key: ShardKey,
                                             resolved: seq<File>, total: nat)
    requires DistinctNames(files) && TagFollowsKey(files)
    requires IsAdvertised(files, v) && v.sharded && SameIgnoringCase(v.tag, quant)
    requires IsPreferredKey(Exactly(files, v.tag), key)
    requires IsResolved(Matching(files, quant), resolved, total)
    ensures resolved[0].name == v.filename
       <==> forall g | g in Matching(files, quant) && g.tag != v.tag ::
              g.shard.Some? && Beats(Matching(files, quant), key, g.shard.value.key)
    ensures resolved[0].name == v.filename ==> total == v.size
  {
    var all, matching := Exactly(files, v.tag), Matching(files, quant);
    var chosen := ShardSet(all, key);
    var first := FirstOf(files, chosen);
    assert IsShardChoice(all, chosen);
    NoneIsSingleIn(files, v);
    AdvertisedAs(files, v, chosen, first);
    SameShardsOfKey(files, v.tag, quant);
    if Undisputed(matching, key, v.tag) {
      UndisputedIsPreferred(files, v.tag, quant, key);
      assert IsChoice(matching, chosen);
      ChoiceIsUnique(matching, chosen, Elems(resolved));
      SortedFilesStartWithTheFirst(resolved);
      FirstIsUnique(chosen, first, resolved[0]);
    }
    if resolved[0].name == first.name {
      assert resolved[0] in Elems(resolved) && resolved[0] == first;
      TakenIsUndisputed(files, v.tag, quant, key, Elems(resolved), first);
    }
  }

  /** No other tag of the quantization has a single file or shards that are not behind those of `key`. */
  ghost predicate Undisputed(matching: set<File>, key: ShardKey, tag: string) {
    forall g | g in matching && g.tag != tag :: g.shard.Some? && Beats(matching, key, g.shard.value.key)
  }

  lemma NoneIsSingleIn(files: set<File>, v: Variant)
    requires IsAdvertised(files, v) && v.sharded
    ensures !HasSingle(Exactly(files, v.tag))
  {}

  lemma {:induction false} FirstOf(files: set<File>, chosen: set<File>) returns (first: File)
    requires DistinctNames(files) && chosen <= files && chosen != {}
    ensures IsFirst(chosen, first)
    decreases |chosen|
  {
    var f :| f in chosen;
    if chosen == {f} {
      first := f;
    } else {
      var rest := chosen - {f};
      var g := FirstOf(files, rest);
      BeforeIsTotal(f.name, g.name);
      first := if Before(f.name, g.name) then f else g;
      forall h | h in chosen ensures h == first || Before(first.name, h.name) {
        if h in rest && h != g && Before(f.name, g.name) {
          BeforeIsTransitive(f.name, g.name, h.name);
        }
      }
    }
  }

  /** A set of shards lies wholly within one tag. */
  lemma SameShardsOfKey(files: set<File>, tag: string, quant: string)
    requires TagFollowsKey(files) && SameIgnoringCase(tag, quant)
    ensures forall f | f in Exactly(files, tag) && f.shard.Some? ::
              ShardSet(Matching(files, quant), f.shard.value.key) == ShardSet(Exactly(files, tag), f.shard.value.key)
  {}

  lemma UndisputedIsPreferred(files: set<File>, tag: string, quant: string, key: ShardKey)
    requires TagFollowsKey(files) && SameIgnoringCase(tag, quant)
    requires !HasSingle(Exactly(files, tag)) && IsPreferredKey(Exactly(files, tag), key)
    requires Undisputed(Matching(files, quant), key, tag)
    ensures !HasSingle(Matching(files, quant)) && IsPreferredKey(Matching(files, quant), key)
    ensures ShardSet(Matching(files, quant), key) == ShardSet(Exactly(files, tag), key)
  {
    var all, matching := Exactly(files, tag), Matching(files, quant);
    SameShardsOfKey(files, tag, quant);
    var f :| f in ShardSet(all, key);
    forall other | other != key && ShardSet(matching, other) != {} ensures Beats(matching, key, other) {
      var g :| g in ShardSet(matching, other);
      if g.tag == tag {
        assert g in ShardSet(all, other);
        assert Beats(all, key, other);
      }
    }
    forall g | g in matching ensures g.shard.Some? {
      assert g.tag == tag ==> g in all;
    }
  }

  lemma TakenIsUndisputed(
    files: set<File>, tag: string, quant: string, key: ShardKey, taken: set<File>, first: File)
    requires TagFollowsKey(files) && SameIgnoringCase(tag, quant)
    requires IsChoice(Matching(files, quant), taken) && first in taken
    requires first in ShardSet(Exactly(files, tag), key)
    ensures Undisputed(Matching(files, quant), key, tag) && taken == ShardSet(Exactly(files, tag), key)
  {
    var matching := Matching(files, quant);
    SameShardsOfKey(files, tag, quant);
    assert !HasSingle(matching);
    var k :| IsPreferredKey(matching, k) && taken == ShardSet(matching, k);
    assert k == key;
    forall g | g in matching && g.tag != tag
      ensures g.shard.Some? && Beats(matching, key, g.shard.value.key)
    {
      assert g in ShardSet(matching, g.shard.value.key);
    }
  }

  // ---------------------------------------------------------------- another file than the one advertised

  function SingleFile(name: string, size: nat, tag: string, family: string): File {
    File(name, Some(size), true, false, tag, family, None)
  }

  /** `v` is advertised and resolves, but always to another file. */
  ghost predicate ResolvesToAnother(files: set<File>, v: Variant, other: string) {
    && IsAdvertised(files, v) && CanResolve(Matching(files, v.tag)) && v.filename != other
    && forall resolved: seq<File>, total | IsResolved(Matching(files, v.tag), resolved, total) ::
         resolved[0].name == other
  }

  lemma LiteralTags(tag: string, twin: string)
    requires tag == "quality" && twin == "Quality"
    ensures SameIgnoringCase(twin, tag) && SameIgnoringCase(tag, tag) && twin != tag && tag != UNKNOWN
  {
    assert tag[0] == 'q' && twin[0] == 'Q' && UNKNOWN[0] == 'u';
    forall i | 0 <= i < |tag| ensures SameLetter(twin[i], tag[i]) {
      if i > 0 {
        assert twin[1..] == tag[1..] == "uality";
        assert twin[1..][i - 1] == tag[1..][i - 1];
      }
    }
  }

  /** `Model-quality.gguf` is advertised for `quality`; `Model-Quality.gguf` is resolved. */
  lemma TwinIsResolvedInstead(tag: string, twin: string, name: string, other: string, m: nat, n: nat, family: string)
    returns (files: set<File>, v: Variant)
    requires tag == "quality" && twin == "Quality" && name == "Model-quality.gguf" && other == "Model-Quality.gguf"
    ensures files == {SingleFile(name, m, tag, family), SingleFile(other, n, twin, family)}
    ensures v == Variant(tag, m, name, false) && ResolvesToAnother(files, v, other)
  {
    LiteralTags(tag, twin);
    CapitalComesFirst(name, other);
    files, v := PlainerTwinIsResolved(SingleFile(name, m, tag, family), SingleFile(other, n, twin, family));
  }

  lemma CapitalComesFirst(name: string, other: string)
    requires name == "Model-quality.gguf" && other == "Model-Quality.gguf"
    ensures Before(other, name) && name != other && |name| == |other|
  {
    var start, a, b := "Model-", "Quality.gguf", "quality.gguf";
    assert other == start + a && name == start + b;
    assert a[0] == 'Q' && b[0] == 'q';
    SharedStart(start, a, b);
  }

  lemma PlainerTwinIsResolved(f: File, g: File) returns (files: set<File>, v: Variant)
    requires IsModelFile(f) && IsModelFile(g) && f.shard.None? && g.shard.None? && f.family == g.family
    requires f.tag != g.tag && SameIgnoringCase(g.tag, f.tag) && SameIgnoringCase(f.tag, f.tag) && f.tag != UNKNOWN
    requires Plainer(g, f) && f.name != g.name
    ensures files == {f, g} && v == Single(f) && ResolvesToAnother(files, v, g.name)
  {
    files, v := {f, g}, Single(f);
    assert Exactly(files, f.tag) == {f} && Matching(files, f.tag) == {f, g};
    LoneFileIsAdvertised(files, f);
    PlainerIsStrict();
    assert IsPlainest(files, g) && IsChoice(files, {g});
    forall resolved: seq<File>, total | IsResolved(files, resolved, total) ensures resolved[0].name == g.name {
      ChoiceIsUnique(files, {g}, Elems(resolved));
      assert resolved[0] in Elems(resolved);
    }
    assert f in files && f.shard.None?;
  }

  lemma LoneFileIsAdvertised(files: set<File>, f: File)
    requires Exactly(files, f.tag) == {f} && f.shard.None? && f.tag != UNKNOWN
    ensures IsAdvertised(files, Single(f))
  {
    TotalSizeWithout({f}, f);
    assert {f} - {f} == {};
    assert f in {f} && HasSingle({f});
    assert IsPlainest({f}, f) && IsFirst({f}, f);
    assert IsChoice(Exactly(files, f.tag), {f});
  }

  /** The one shard of `quality` is advertised; the single file of `Quality` is resolved. */
  lemma SingleTwinIsResolvedInstead(tag: string, twin: string, name: string, other: string, f: File, g: File)
    returns (files: set<File>, v: Variant)
    requires tag == "quality" && twin == "Quality"
    requires name == "Model-quality-1-of-1.gguf" && other == "Model-Quality.gguf"
    requires IsModelFile(f) && f.name == name && f.tag == tag && IsShardAt(f, 0, 1)
    requires IsModelFile(g) && g.name == other && g.tag == twin && g.shard.None? && f.family == g.family
    ensures files == {f, g} && v == Variant(tag, SizeOf(f), name, true) && ResolvesToAnother(files, v, other)
  {
    LiteralTags(tag, twin);
    assert |name| != |other|;
    files, v := SingleBeatsShard(f, g);
  }

  lemma SingleBeatsShard(f: File, g: File) returns (files: set<File>, v: Variant)
    requires IsModelFile(f) && IsModelFile(g) && f.shard.Some? && g.shard.None? && f.family == g.family
    requires f.tag != g.tag && SameIgnoringCase(g.tag, f.tag) && SameIgnoringCase(f.tag, f.tag) && f.tag != UNKNOWN
    requires f.name != g.name
    ensures files == {f, g} && v == Variant(f.tag, SizeOf(f), f.name, true) && ResolvesToAnother(files, v, g.name)
  {
    files, v := {f, g}, Variant(f.tag, SizeOf(f), f.name, true);
    assert Exactly(files, f.tag) == {f} && Matching(files, f.tag) == {f, g};
    LoneShardIsAdvertised(files, f);
    assert g in files && g.shard.None? && IsPlainest(files, g) && IsChoice(files, {g});
    forall resolved: seq<File>, total | IsResolved(files, resolved, total) ensures resolved[0].name == g.name {
      ChoiceIsUnique(files, {g}, Elems(resolved));
      assert resolved[0] in Elems(resolved);
    }
  }

  lemma LoneShardIsAdvertised(files: set<File>, f: File)
    requires Exactly(files, f.tag) == {f} && f.shard.Some? && f.tag != UNKNOWN
    ensures IsAdvertised(files, Variant(f.tag, SizeOf(f), f.name, true))
  {
    TotalSizeWithout({f}, f);
    assert {f} - {f} == {};
    assert ShardSet({f}, f.shard.value.key) == {f};
    assert IsPreferredKey({f}, f.shard.value.key) && IsShardChoice({f}, {f}) && IsFirst({f}, f);
  }
}

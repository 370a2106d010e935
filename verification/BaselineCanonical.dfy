/**
 When the written form is canonical: loading forgets the input order, writing a loaded list is
 a fixed point, and a first write is already canonical exactly when tied findings came in id order.
 */
module BaselineCanonical {
  import opened Text
  import opened Sequences
  import opened Sorting
  import opened BaselineModel
  import opened BaselineLines
  import opened BaselineLoad
  import opened BaselineWrite

  lemma PlainPermute(fs: seq<Finding>, gs: seq<Finding>, config: WriteConfig, store: Store)
    requires multiset(fs) == multiset(gs)
    ensures PlainShards(fs) <==> PlainShards(gs)
    ensures Loadable(fs, config, store) ==> Loadable(gs, config, store)
  {
    MultisetMembers(fs, gs);
    if DistinctIds(fs) { DistinctIdsPermute(fs, gs); }
  }

  // The order in which findings are handed to the writer does not show after loading.
  lemma LoadForgetsOrder(files: Files, files': Files, fs: seq<Finding>, gs: seq<Finding>,
                         config: WriteConfig, store: Store)
    requires GoodStore(store)
    requires multiset(fs) == multiset(gs) && PlainShards(fs) && Loadable(fs, config, store)
    ensures LoadAll(Written(files, fs, config, store), store).Loaded?
    ensures LoadAll(Written(files, fs, config, store), store) == LoadAll(Written(files', gs, config, store), store)
  {
    PlainPermute(fs, gs, config, store);
    StoreRoundTrip(files, fs, config, store);
    StoreRoundTrip(files', gs, config, store);
    KeySortCanonical(fs, gs);
  }

  // The loader's order refines the writer's, so the writer leaves a loaded list as it is.
  lemma KeySortedIsGroupSorted(fs: seq<Finding>)
    requires StrictlySortedBy(fs, KeyLess)
    ensures StableSort(fs, GroupLess) == fs
  {
    forall i, j | 0 <= i < j < |fs| ensures !GroupLess(fs[j], fs[i]) {
      KeyLessKeepsGroup(fs[i], fs[j]);
    }
    SortFixed(fs, GroupLess);
  }

  lemma KeyLessKeepsGroup(a: Finding, b: Finding)
    requires KeyLess(a, b)
    ensures !GroupLess(b, a)
  {
    FindingOrders();
  }

  // Each shard of a loaded list is a subsequence of it.
  lemma CanonicalShards(fs: seq<Finding>, name: string)
    requires StrictlySortedBy(fs, KeyLess)
    ensures ShardOf(fs, name) == Filter(fs, InShard(name))
  {
    KeySortedIsGroupSorted(fs);
  }

  // Writing the same findings over their own store changes no file.
  lemma RewriteSame(files: Files, fs: seq<Finding>, config: WriteConfig, store: Store)
    ensures Written(Written(files, fs, config, store), fs, config, store) == Written(files, fs, config, store)
  {
    OverlayTwice(files, ShardFiles(fs, store), MANIFEST_NAME, store.manifest(ManifestOf(fs, config)));
  }

  lemma OverlayTwice(files: Files, shards: Files, name: string, text: string)
    ensures ((files + shards)[name := text] + shards)[name := text] == (files + shards)[name := text]
  {}

  // Writing a loaded list gives a store that loads to the same list, and writing that list
  // over the store changes no file.
  lemma CanonicalFixedPoint(files: Files, files': Files, fs: seq<Finding>, config: WriteConfig, store: Store)
    requires GoodStore(store)
    requires PlainShards(fs) && Loadable(fs, config, store)
    ensures var loaded := LoadAll(Written(files, fs, config, store), store);
            && loaded.Loaded?
            && var canonical := Written(files', loaded.value, config, store);
               LoadAll(canonical, store) == loaded && Written(canonical, loaded.value, config, store) == canonical
  {
    StoreRoundTrip(files, fs, config, store);
    var k := StableSort(fs, KeyLess);
    KeySortStrict(fs);
    LoadForgetsOrder(files, files', fs, k, config, store);
    RewriteSame(files', k, config, store);
  }

  // ----- when the first write is already canonical -----

  ghost predicate TiesOrdered(fs: seq<Finding>) {
    forall i, j | 0 <= i < j < |fs| && Tied(fs[i], fs[j]) :: StringLess(fs[i].findingId, fs[j].findingId)
  }

  lemma {:induction false} InsertAgrees(x: Finding, s: seq<Finding>)
    requires forall y | y in s && Tied(x, y) :: StringLess(x.findingId, y.findingId)
    ensures Insert(x, s, GroupLess) == Insert(x, s, KeyLess)
  {
    if s != [] {
      StringLessTotal();
      assert s[0] in s;
      InsertAgrees(x, s[1..]);
    }
  }

  lemma {:induction false} OrderedTiesSort(fs: seq<Finding>)
    requires TiesOrdered(fs)
    ensures StableSort(fs, GroupLess) == StableSort(fs, KeyLess)
  {
    if fs != [] {
      OrderedTiesSort(fs[1..]);
      var t := StableSort(fs[1..], KeyLess);
      SortPermutes(fs[1..], KeyLess);
      MultisetMembers(t, fs[1..]);
      forall y | y in t && Tied(fs[0], y) ensures StringLess(fs[0].findingId, y.findingId) {
        assert y in fs[1..];
      }
      InsertAgrees(fs[0], t);
    }
  }

  function IsEither(a: Finding, b: Finding): Finding -> bool {
    (f: Finding) => f == a || f == b
  }

  lemma PairOf(fs: seq<Finding>, i: nat, j: nat)
    requires DistinctIds(fs) && i < j < |fs|
    ensures Filter(fs, IsEither(fs[i], fs[j])) == [fs[i], fs[j]]
  {
    var a, b, c := fs[..i], fs[i + 1..j], fs[j + 1..];
    forall z | z in a || z in b || z in c ensures !IsEither(fs[i], fs[j])(z) {
      var k :| 0 <= k < |fs| && k != i && k != j && fs[k] == z;
    }
    FilterPair(a, fs[i], b, fs[j], c, IsEither(fs[i], fs[j]));
    CutAt(fs, i, j);
  }

  // The writer keeps a tied pair in input order; the loader puts it in id order.
  lemma TiedPair(fs: seq<Finding>, i: nat, j: nat)
    requires DistinctIds(fs) && i < j < |fs| && Tied(fs[i], fs[j])
    ensures Filter(StableSort(fs, GroupLess), IsEither(fs[i], fs[j])) == [fs[i], fs[j]]
    ensures Filter(StableSort(fs, KeyLess), IsEither(fs[i], fs[j]))
            == if StringLess(fs[j].findingId, fs[i].findingId) then [fs[j], fs[i]] else [fs[i], fs[j]]
  {
    var a, b := fs[i], fs[j];
    FindingOrders();
    FilterSort(fs, GroupLess, IsEither(a, b));
    FilterSort(fs, KeyLess, IsEither(a, b));
    PairOf(fs, i, j);
    SortPair(a, b, GroupLess);
    SortPair(a, b, KeyLess);
  }

  lemma FirstOfPair(a: Finding, b: Finding, swap: bool)
    requires a != b && [a, b] == if swap then [b, a] else [a, b]
    ensures !swap
  {
    assert [a, b][0] == a && [b, a][0] == b;
  }

  // The writer's order is the loader's exactly when ties come in id order.
  lemma SortsAlikeIff(fs: seq<Finding>)
    requires DistinctIds(fs)
    ensures StableSort(fs, GroupLess) == StableSort(fs, KeyLess) <==> TiesOrdered(fs)
  {
    if StableSort(fs, GroupLess) == StableSort(fs, KeyLess) {
      forall i, j | 0 <= i < j < |fs| && Tied(fs[i], fs[j])
        ensures StringLess(fs[i].findingId, fs[j].findingId)
      {
        TiedPair(fs, i, j);
        FirstOfPair(fs[i], fs[j], StringLess(fs[j].findingId, fs[i].findingId));
        StringLessOrder(fs[i].findingId, fs[j].findingId, "");
      }
    }
    if TiesOrdered(fs) { OrderedTiesSort(fs); }
  }

  // ----- when two writes are the same -----

  function TiedTo(x: Finding): Finding -> bool { f => Tied(x, f) }

  // On every line of every file of every surface the same findings, in the same order.
  ghost predicate SameTies(fs: seq<Finding>, gs: seq<Finding>) {
    forall x :: Filter(fs, TiedTo(x)) == Filter(gs, TiedTo(x))
  }

  lemma TiedPrecisely(x: Finding, y: Finding)
    ensures Tied(x, y) <==> !GroupLess(x, y) && !GroupLess(y, x)
  {
    StringLessOrder(x.surfaceId, y.surfaceId, "");
    StringLessOrder(y.surfaceId, x.surfaceId, "");
    StringLessOrder(x.file, y.file, "");
    StringLessOrder(y.file, x.file, "");
  }

  lemma TiedIsLike(fs: seq<Finding>, x: Finding)
    ensures Filter(fs, TiedTo(x)) == Filter(fs, Like(x, GroupLess))
  {
    forall y ensures TiedTo(x)(y) <==> Like(x, GroupLess)(y) { TiedPrecisely(x, y); }
    FilterSame(fs, TiedTo(x), Like(x, GroupLess));
  }

  lemma SameTiesSort(fs: seq<Finding>, gs: seq<Finding>)
    ensures StableSort(fs, GroupLess) == StableSort(gs, GroupLess) <==> SameTies(fs, gs)
  {
    FindingOrders();
    forall x
      ensures Filter(fs, TiedTo(x)) == Filter(fs, Like(x, GroupLess))
      ensures Filter(gs, TiedTo(x)) == Filter(gs, Like(x, GroupLess))
    {
      TiedIsLike(fs, x);
      TiedIsLike(gs, x);
    }
    SortAgreesIff(fs, gs, GroupLess);
  }

  // In its shard a finding stands among those it ties with as they were handed over.
  lemma ShardKeepsTies(fs: seq<Finding>, x: Finding)
    ensures Filter(ShardOf(fs, ShardName(x)), TiedTo(x)) == Filter(fs, TiedTo(x))
  {
    FindingOrders();
    SortLike(fs, GroupLess, x);
    TiedIsLike(StableSort(fs, GroupLess), x);
    TiedIsLike(fs, x);
    FilterTwice(StableSort(fs, GroupLess), InShard(ShardName(x)), TiedTo(x));
  }

  lemma SameTiesMembers(fs: seq<Finding>, gs: seq<Finding>)
    requires SameTies(fs, gs)
    ensures forall x :: x in fs <==> x in gs
  {
    forall x ensures x in fs <==> x in gs {
      FilterMembers(fs, TiedTo(x), x);
      FilterMembers(gs, TiedTo(x), x);
      assert Filter(fs, TiedTo(x)) == Filter(gs, TiedTo(x));
    }
  }

  lemma SameTiesWrite(files: Files, fs: seq<Finding>, gs: seq<Finding>, config: WriteConfig, store: Store)
    requires SameTies(fs, gs)
    ensures Written(files, fs, config, store) == Written(files, gs, config, store)
  {
    SameTiesSort(fs, gs);
    SameTiesMembers(fs, gs);
    NamesAgree(fs, gs);
    SameShardFiles(fs, gs, store);
  }

  lemma SameShardFiles(fs: seq<Finding>, gs: seq<Finding>, store: Store)
    requires forall n :: n in ShardNamesOf(fs) <==> n in ShardNamesOf(gs)
    requires StableSort(fs, GroupLess) == StableSort(gs, GroupLess)
    ensures ShardFiles(fs, store) == ShardFiles(gs, store)
  {
    forall n ensures ShardOf(fs, n) == ShardOf(gs, n) {}
  }

  // The manifest tells the shards apart, and the shards their findings.
  lemma SameFilesNames(files: Files, fs: seq<Finding>, gs: seq<Finding>, config: WriteConfig, store: Store)
    requires GoodStore(store)
    requires Written(files, fs, config, store) == Written(files, gs, config, store)
    ensures forall n :: n in ShardNamesOf(fs) <==> n in ShardNamesOf(gs)
  {
    assert Written(files, fs, config, store)[MANIFEST_NAME] == store.manifest(ManifestOf(fs, config));
    assert Written(files, gs, config, store)[MANIFEST_NAME] == store.manifest(ManifestOf(gs, config));
    assert store.readManifest(store.manifest(ManifestOf(fs, config))) == Some(ManifestOf(fs, config));
    assert store.readManifest(store.manifest(ManifestOf(gs, config))) == Some(ManifestOf(gs, config));
    assert ManifestOf(fs, config).shards == ShardList(fs) && ManifestOf(gs, config).shards == ShardList(gs);
    SortedDistinctStrict(ShardNamesOf(fs));
    SortedDistinctStrict(ShardNamesOf(gs));
  }

  lemma SameFilesShards(files: Files, fs: seq<Finding>, gs: seq<Finding>, config: WriteConfig, name: string,
                        store: Store)
    requires GoodStore(store)
    requires name in ShardNamesOf(fs) && name in ShardNamesOf(gs) && name != MANIFEST_NAME
    requires Written(files, fs, config, store) == Written(files, gs, config, store)
    ensures ShardOf(fs, name) == ShardOf(gs, name)
  {
    WrittenAt(files, fs, config, name, store);
    WrittenAt(files, gs, config, name, store);
    assert store.shard(ShardOf(fs, name)) == store.shard(ShardOf(gs, name));
  }

  // Findings that tie stand in one shard.
  lemma SameShardTies(fs: seq<Finding>, gs: seq<Finding>, x: Finding)
    requires ShardOf(fs, ShardName(x)) == ShardOf(gs, ShardName(x))
    ensures Filter(fs, TiedTo(x)) == Filter(gs, TiedTo(x))
  {
    ShardKeepsTies(fs, x);
    ShardKeepsTies(gs, x);
  }

  lemma SameWriteTies(files: Files, fs: seq<Finding>, gs: seq<Finding>, config: WriteConfig, store: Store, x: Finding)
    requires GoodStore(store) && PlainShards(fs)
    requires Written(files, fs, config, store) == Written(files, gs, config, store)
    ensures Filter(fs, TiedTo(x)) == Filter(gs, TiedTo(x))
  {
    var n := ShardName(x);
    SameFilesNames(files, fs, gs, config, store);
    if n in ShardNamesOf(fs) {
      ShardNameSource(fs, n);
      PlainShardValid(x);
      SameFilesShards(files, fs, gs, config, n, store);
      SameShardTies(fs, gs, x);
    } else {
      NoneTied(fs, x);
      NoneTied(gs, x);
    }
  }

  lemma NoneTied(fs: seq<Finding>, x: Finding)
    requires ShardName(x) !in ShardNamesOf(fs)
    ensures Filter(fs, TiedTo(x)) == []
  {
    forall f | f in fs ensures !TiedTo(x)(f) { ShardNameSource(fs, ShardName(x)); }
    FilterNone(fs, TiedTo(x));
  }

  // Main result. Two lists of findings are written as the same files exactly when those that tie
  // are the same and stand in the same order in both; the order of all others does not matter.
  lemma WrittenSameIff(files: Files, fs: seq<Finding>, gs: seq<Finding>, config: WriteConfig, store: Store)
    requires GoodStore(store) && PlainShards(fs)
    ensures Written(files, fs, config, store) == Written(files, gs, config, store) <==> SameTies(fs, gs)
  {
    if Written(files, fs, config, store) == Written(files, gs, config, store) {
      forall x ensures Filter(fs, TiedTo(x)) == Filter(gs, TiedTo(x)) {
        SameWriteTies(files, fs, gs, config, store, x);
      }
    }
    if SameTies(fs, gs) { SameTiesWrite(files, fs, gs, config, store); }
  }

  // Writing the findings and writing what loading would return give the same files exactly
  // when findings that share surface, file and line were handed over in id order.
  lemma FirstWriteCanonicalIff(files: Files, fs: seq<Finding>, config: WriteConfig, store: Store)
    requires GoodStore(store)
    requires PlainShards(fs) && DistinctIds(fs)
    ensures Written(files, fs, config, store) == Written(files, StableSort(fs, KeyLess), config, store) <==>
            TiesOrdered(fs)
  {
    var k := StableSort(fs, KeyLess);
    WrittenSameIff(files, fs, k, config, store);
    SameTiesSort(fs, k);
    KeySortStrict(fs);
    KeySortedIsGroupSorted(k);
    SortsAlikeIff(fs);
  }

  // Two tied findings handed over against id order: the first write is not canonical.
  lemma FirstWriteExample(files: Files, config: WriteConfig, store: Store)
    requires GoodStore(store)
    ensures var a := Finding("a", "s", "f.go", 1, "", "", "", "", "", "", "");
            var b := a.(findingId := "b");
            Written(files, [b, a], config, store) != Written(files, [a, b], config, store)
  {
    var a := Finding("a", "s", "f.go", 1, "", "", "", "", "", "", "");
    var b := a.(findingId := "b");
    StringLessOrder("a", "b", "a");
    assert StringLess("a", "b");
    assert ShardName(a) == "s.jsonl" && ShardName(b) == "s.jsonl";
    TiedPairWrite(files, a, b, config, store);
  }

  // Two findings that differ only in what the grouping does not compare.
  lemma TiedPairWrite(files: Files, a: Finding, b: Finding, config: WriteConfig, store: Store)
    requires GoodStore(store)
    requires PlainName(ShardName(a)) && PlainName(ShardName(b))
    requires Tied(b, a) && StringLess(a.findingId, b.findingId)
    ensures Written(files, [b, a], config, store) != Written(files, [a, b], config, store)
  {
    var fs := [b, a];
    StringLessOrder(a.findingId, b.findingId, a.findingId);
    SortPair(b, a, KeyLess);
    assert Tied(fs[0], fs[1]) && !StringLess(fs[0].findingId, fs[1].findingId);
    FirstWriteCanonicalIff(files, fs, config, store);
  }
}

/**
 What loading a baseline directory means. A directory is the map from the clean relative path
 of each file to its text, so files left over from earlier writes are part of it.
 */
module BaselineLoad {
  import opened Text
  import opened Sequences
  import opened Sorting
  import opened BaselineModel
  import opened BaselineLines

  type Files = map<string, string>

  const MANIFEST_NAME := "manifest.json"

  // ----- shard names -----

  predicate ProperComponent(p: string) { p != "" && p != "." && p != ".." }

  // A local, clean path with the .jsonl extension: every component is a real name.
  predicate ValidShardName(name: string) {
    EndsWith(name, ".jsonl") && forall p | p in Split(name, '/') :: ProperComponent(p)
  }

  function LoadShard(files: Files, name: string, store: Store): Result<seq<Finding>> {
    if !ValidShardName(name) then Failed(InvalidPath(name))
    else if name !in files then Failed(MissingShard(name))
    else store.readShard(name, files[name])
  }

  function LoadManifest(files: Files, store: Store): Result<Manifest> {
    if MANIFEST_NAME !in files then Failed(MissingManifest)
    else
      match store.readManifest(files[MANIFEST_NAME])
      case None => Failed(MalformedManifest)
      case Some(m) => if ValidManifest(m) then Loaded(m) else Failed(InvalidManifest(ManifestFault(m)))
  }

  // ----- all shards -----

  predicate HasId(fs: seq<Finding>, id: string) { exists f | f in fs :: f.findingId == id }

  function AppendDistinct(shard: string, acc: seq<Finding>, fs: seq<Finding>): Result<seq<Finding>>
    decreases |fs|
  {
    if fs == [] then Loaded(acc)
    else if HasId(acc, fs[0].findingId) then Failed(DuplicateFinding(shard, fs[0].findingId))
    else AppendDistinct(shard, acc + [fs[0]], fs[1..])
  }

  function LoadShards(files: Files, names: seq<string>, acc: seq<Finding>, store: Store): Result<seq<Finding>>
    decreases |names|
  {
    if names == [] then Loaded(acc)
    else
      match LoadShard(files, names[0], store)
      case Failed(e) => Failed(e)
      case Loaded(fs) =>
        match AppendDistinct(names[0], acc, fs)
        case Failed(e) => Failed(e)
        case Loaded(all) => LoadShards(files, names[1..], all, store)
  }

  predicate HasSurface(fs: seq<Finding>, s: string) { exists f | f in fs :: f.surfaceId == s }

  // The first declared surface without findings, if there is one.
  function Unbacked(declared: seq<string>, fs: seq<Finding>): (r: Option<string>)
    ensures r.None? <==> forall s | s in declared :: HasSurface(fs, s)
    ensures r.Some? ==> exists k | 0 <= k < |declared| ::
                          declared[k] == r.value && !HasSurface(fs, r.value)
                          && forall j | 0 <= j < k :: HasSurface(fs, declared[j])
  {
    if declared == [] then None
    else if !HasSurface(fs, declared[0]) then Some(declared[0])
    else Unbacked(declared[1..], fs)
  }

  function LoadAll(files: Files, store: Store): Result<seq<Finding>> {
    match LoadManifest(files, store)
    case Failed(e) => Failed(e)
    case Loaded(m) =>
      match LoadShards(files, m.shards, [], store)
      case Failed(e) => Failed(e)
      case Loaded(fs) =>
        if Unbacked(m.surfaceIds, fs).Some? then Failed(SurfaceWithoutFindings(Unbacked(m.surfaceIds, fs).value))
        else if exists f | f in fs :: f.surfaceId !in m.surfaceIds then Failed(UndeclaredSurface)
        else Loaded(StableSort(fs, KeyLess))
  }

  // ----- what a successful load says -----

  // The records of all shards, in manifest order.
  function Records(files: Files, names: seq<string>, store: Store): seq<Finding> {
    if names == [] then []
    else
      (match LoadShard(files, names[0], store) case Loaded(fs) => fs case Failed(_) => [])
      + Records(files, names[1..], store)
  }

  lemma {:induction false} AppendDistinctIff(shard: string, acc: seq<Finding>, fs: seq<Finding>)
    requires DistinctIds(acc)
    ensures AppendDistinct(shard, acc, fs).Loaded? <==> DistinctIds(acc + fs)
    ensures DistinctIds(acc + fs) ==> AppendDistinct(shard, acc, fs) == Loaded(acc + fs)
    decreases |fs|
  {
    if fs == [] {
      assert acc + fs == acc;
    } else {
      var all := acc + fs;
      assert all[|acc|] == fs[0];
      if HasId(acc, fs[0].findingId) {
        var f :| f in acc && f.findingId == fs[0].findingId;
        var i :| 0 <= i < |acc| && acc[i] == f;
        assert all[i].findingId == all[|acc|].findingId;
      } else {
        assert DistinctIds(acc + [fs[0]]);
        AppendDistinctIff(shard, acc + [fs[0]], fs[1..]);
        assert acc + [fs[0]] + fs[1..] == all;
      }
    }
  }

  // Record k is the first whose id is taken, and is the one reported.
  ghost predicate Duplicates(e: LoadError, shard: string, acc: seq<Finding>, fs: seq<Finding>, k: nat)
    requires k < |fs|
  {
    && e == DuplicateFinding(shard, fs[k].findingId) && HasId(acc + fs[..k], fs[k].findingId)
    && AppendDistinct(shard, acc, fs[..k]).Loaded?
  }

  lemma {:induction false} FirstDuplicate(shard: string, acc: seq<Finding>, fs: seq<Finding>)
    ensures var r := AppendDistinct(shard, acc, fs);
            r.Failed? ==> exists k | 0 <= k < |fs| :: Duplicates(r.error, shard, acc, fs, k)
    decreases |fs|
  {
    var r := AppendDistinct(shard, acc, fs);
    if fs != [] && r.Failed? {
      if HasId(acc, fs[0].findingId) {
        assert acc + fs[..0] == acc;
        assert Duplicates(r.error, shard, acc, fs, 0);
      } else {
        FirstDuplicate(shard, acc + [fs[0]], fs[1..]);
        var k :| 0 <= k < |fs[1..]| && Duplicates(r.error, shard, acc + [fs[0]], fs[1..], k);
        DuplicatesLater(r.error, shard, acc, fs, k);
      }
    }
  }

  lemma DuplicatesLater(e: LoadError, shard: string, acc: seq<Finding>, fs: seq<Finding>, k: nat)
    requires fs != [] && !HasId(acc, fs[0].findingId) && k < |fs[1..]|
    requires Duplicates(e, shard, acc + [fs[0]], fs[1..], k)
    ensures Duplicates(e, shard, acc, fs, k + 1)
  {
    var front := fs[..k + 1];
    assert front[0] == fs[0] && front[1..] == fs[1..][..k];
    assert acc + [fs[0]] + fs[1..][..k] == acc + front;
  }

  lemma DistinctPrefix(fs: seq<Finding>, gs: seq<Finding>)
    requires DistinctIds(fs + gs)
    ensures DistinctIds(fs)
  {
    forall i, j | 0 <= i < j < |fs| ensures fs[i].findingId != fs[j].findingId {
      assert (fs + gs)[i] == fs[i] && (fs + gs)[j] == fs[j];
    }
  }

  ghost predicate AllLoad(files: Files, names: seq<string>, store: Store) {
    forall n | n in names :: LoadShard(files, n, store).Loaded?
  }

  lemma {:induction false} LoadShardsIff(files: Files, names: seq<string>, acc: seq<Finding>, store: Store)
    requires DistinctIds(acc)
    ensures LoadShards(files, names, acc, store).Loaded? <==>
            AllLoad(files, names, store) && DistinctIds(acc + Records(files, names, store))
    ensures LoadShards(files, names, acc, store).Loaded? ==>
            LoadShards(files, names, acc, store).value == acc + Records(files, names, store)
    decreases |names|
  {
    if names == [] {
      assert acc + [] == acc;
    } else {
      AllLoadCons(files, names, store);
      var r := LoadShard(files, names[0], store);
      if r.Loaded? {
        LoadShardsStep(files, names, acc, r.value, store);
        if DistinctIds(acc + r.value) {
          LoadShardsIff(files, names[1..], acc + r.value, store);
        }
      }
    }
  }

  lemma AllLoadCons(files: Files, names: seq<string>, store: Store)
    requires names != []
    ensures AllLoad(files, names, store) <==>
            LoadShard(files, names[0], store).Loaded? && AllLoad(files, names[1..], store)
  {
    assert names == [names[0]] + names[1..];
  }

  lemma LoadShardsStep(files: Files, names: seq<string>, acc: seq<Finding>, fs: seq<Finding>, store: Store)
    requires names != [] && DistinctIds(acc) && LoadShard(files, names[0], store) == Loaded(fs)
    ensures acc + Records(files, names, store) == (acc + fs) + Records(files, names[1..], store)
    ensures DistinctIds(acc + Records(files, names, store)) ==> DistinctIds(acc + fs)
    ensures if DistinctIds(acc + fs)
            then LoadShards(files, names, acc, store) == LoadShards(files, names[1..], acc + fs, store)
            else LoadShards(files, names, acc, store).Failed?
  {
    AppendDistinctIff(names[0], acc, fs);
    RecordsCons(files, names, acc, fs, store);
    if DistinctIds((acc + fs) + Records(files, names[1..], store)) {
      DistinctPrefix(acc + fs, Records(files, names[1..], store));
    }
  }

  lemma RecordsCons(files: Files, names: seq<string>, acc: seq<Finding>, fs: seq<Finding>, store: Store)
    requires names != [] && LoadShard(files, names[0], store) == Loaded(fs)
    ensures acc + Records(files, names, store) == (acc + fs) + Records(files, names[1..], store)
  {
    assert Records(files, names, store) == fs + Records(files, names[1..], store);
  }

  // Loading succeeds exactly when the manifest is valid, every listed shard loads, no id is
  // repeated across all records, and the declared surfaces are those of the records.
  ghost predicate WellFormedStore(files: Files, store: Store) {
    && LoadManifest(files, store).Loaded?
    && var m := LoadManifest(files, store).value;
       var records := Records(files, m.shards, store);
       && AllLoad(files, m.shards, store)
       && DistinctIds(records)
       && (forall s :: s in m.surfaceIds <==> HasSurface(records, s))
  }

  lemma SurfacesIff(surfaceIds: seq<string>, fs: seq<Finding>)
    ensures (forall s :: s in surfaceIds <==> HasSurface(fs, s)) <==>
            Unbacked(surfaceIds, fs).None? && !exists f | f in fs :: f.surfaceId !in surfaceIds
  {
    if forall s :: s in surfaceIds <==> HasSurface(fs, s) {
      forall f | f in fs ensures f.surfaceId in surfaceIds {
        assert HasSurface(fs, f.surfaceId);
      }
    }
  }

  lemma LoadAllIff(files: Files, store: Store)
    ensures LoadAll(files, store).Loaded? <==> WellFormedStore(files, store)
    ensures LoadAll(files, store).Loaded? ==>
            LoadAll(files, store).value ==
            StableSort(Records(files, LoadManifest(files, store).value.shards, store), KeyLess)
  {
    if LoadManifest(files, store).Loaded? {
      var m := LoadManifest(files, store).value;
      var records := Records(files, m.shards, store);
      LoadShardsIff(files, m.shards, [], store);
      assert [] + records == records;
      SurfacesIff(m.surfaceIds, records);
    }
  }

  lemma {:induction false} RecordsValid(files: Files, names: seq<string>, store: Store)
    requires GoodStore(store)
    ensures forall f | f in Records(files, names, store) :: ValidFinding(f)
  {
    if names != [] {
      RecordsValid(files, names[1..], store);
      if LoadShard(files, names[0], store).Loaded? {
        assert AllValid(LoadShard(files, names[0], store).value);
      }
    }
  }

  lemma DistinctIdsPermute(s: seq<Finding>, t: seq<Finding>)
    requires DistinctIds(s) && multiset(s) == multiset(t)
    ensures DistinctIds(t)
  {
    forall i, j | 0 <= i < j < |t| ensures t[i].findingId != t[j].findingId {
      DistinctPermutation(s, t, i, j);
      MultisetMembers(s, t);
      assert t[i] in s && t[j] in s;
      var a :| 0 <= a < |s| && s[a] == t[i];
      var b :| 0 <= b < |s| && s[b] == t[j];
      assert a < b || b < a;
    }
  }

  // With distinct ids the loader's order leaves no ties.
  lemma KeySortStrict(fs: seq<Finding>)
    requires DistinctIds(fs)
    ensures var r := StableSort(fs, KeyLess);
            multiset(r) == multiset(fs) && DistinctIds(r) && StrictlySortedBy(r, KeyLess)
  {
    FindingOrders();
    SortSorts(fs, KeyLess);
    SortPermutes(fs, KeyLess);
    DistinctIdsPermute(fs, StableSort(fs, KeyLess));
  }

  // The loader's list depends on the records only as a collection.
  lemma KeySortCanonical(s: seq<Finding>, t: seq<Finding>)
    requires DistinctIds(s) && multiset(s) == multiset(t)
    ensures StableSort(s, KeyLess) == StableSort(t, KeyLess)
  {
    DistinctIdsPermute(s, t);
    KeySortStrict(s);
    KeySortStrict(t);
    FindingOrders();
    MultisetMembers(StableSort(s, KeyLess), StableSort(t, KeyLess));
    StrictlySortedUnique(StableSort(s, KeyLess), StableSort(t, KeyLess), KeyLess);
  }

  // Every list the loader hands out is strictly ordered by (surface, file, line, id), has
  // distinct ids and valid records, rearranges exactly the shard records, and covers exactly
  // the surfaces the manifest declares.
  lemma AcceptedStore(files: Files, store: Store)
    requires GoodStore(store)
    requires LoadAll(files, store).Loaded?
    ensures LoadManifest(files, store).Loaded? && ValidManifest(LoadManifest(files, store).value)
    ensures var fs := LoadAll(files, store).value;
            var m := LoadManifest(files, store).value;
            && StrictlySortedBy(fs, KeyLess)
            && DistinctIds(fs)
            && (forall f | f in fs :: ValidFinding(f))
            && multiset(fs) == multiset(Records(files, m.shards, store))
            && (forall s :: s in m.surfaceIds <==> HasSurface(fs, s))
  {
    LoadAllIff(files, store);
    var m, fs := LoadManifest(files, store).value, LoadAll(files, store).value;
    var records := Records(files, m.shards, store);
    KeySortStrict(records);
    MultisetMembers(fs, records);
    RecordsValid(files, m.shards, store);
    forall s ensures s in m.surfaceIds <==> HasSurface(fs, s) {
      assert HasSurface(records, s) <==> HasSurface(fs, s);
    }
  }

  // Of any two records the loader hands out, the earlier one is below at the first of surface,
  // file, line and id in which they differ.
  lemma LoadedAscending(files: Files, store: Store)
    requires LoadAll(files, store).Loaded?
    ensures var fs := LoadAll(files, store).value; forall i, j | 0 <= i < j < |fs| :: BelowInKey(fs[i], fs[j])
  {
    LoadAllIff(files, store);
    var fs := LoadAll(files, store).value;
    KeySortStrict(Records(files, LoadManifest(files, store).value.shards, store));
    forall i, j | 0 <= i < j < |fs| ensures BelowInKey(fs[i], fs[j]) { KeyLessIff(fs[i], fs[j]); }
  }

  // Which manifests are accepted.
  lemma ManifestAcceptedIff(files: Files, store: Store, m: Manifest)
    ensures LoadManifest(files, store) == Loaded(m) <==>
            && "manifest.json" in files && store.readManifest(files["manifest.json"]) == Some(m)
            && m.schemaVersion == "ratchet-sharded-v1" && m.baselineCommit != "" && m.generator != ""
            && (m.shards == [] <==> m.surfaceIds == []) && "" !in m.shards && "" !in m.surfaceIds
            && (forall i, j | 0 <= i < j < |m.shards| :: m.shards[i] != m.shards[j])
            && (forall i, j | 0 <= i < j < |m.surfaceIds| :: m.surfaceIds[i] != m.surfaceIds[j])
  {
    NoneEmpty(m.shards);
    NoneEmpty(m.surfaceIds);
  }

  lemma NoneEmpty(ss: seq<string>)
    ensures "" !in ss <==> forall i | 0 <= i < |ss| :: ss[i] != ""
  {}

  // ----- shard names stay in the directory -----

  // Where the components of a path lead from a directory; nothing and a single dot stay, two dots
  // go up, and at the root they stay.
  function Walk(dir: seq<string>, parts: seq<string>): seq<string>
    decreases |parts|
  {
    if parts == [] then dir
    else if parts[0] == "" || parts[0] == "." then Walk(dir, parts[1..])
    else if parts[0] == ".." then Walk(if dir == [] then dir else dir[..|dir| - 1], parts[1..])
    else Walk(dir + [parts[0]], parts[1..])
  }

  lemma {:induction false} WalkLength(dir: seq<string>, parts: seq<string>)
    ensures |Walk(dir, parts)| <= |dir| + |parts|
    decreases |parts|
  {
    if parts != [] {
      WalkLength(dir, parts[1..]);
      WalkLength(if dir == [] then dir else dir[..|dir| - 1], parts[1..]);
      WalkLength(dir + [parts[0]], parts[1..]);
    }
  }

  lemma {:induction false} WalkDown(dir: seq<string>, parts: seq<string>)
    ensures Walk(dir, parts) == dir + parts <==> forall p | p in parts :: ProperComponent(p)
    decreases |parts|
  {
    if parts == [] {
      assert dir + parts == dir;
    } else {
      assert parts == [parts[0]] + parts[1..];
      if ProperComponent(parts[0]) {
        WalkDown(dir + [parts[0]], parts[1..]);
        assert dir + [parts[0]] + parts[1..] == dir + parts;
      } else {
        WalkLength(dir, parts[1..]);
        WalkLength(if dir == [] then dir else dir[..|dir| - 1], parts[1..]);
        assert parts[0] in parts;
      }
    }
  }

  // Main result. A shard name is accepted exactly when it has the extension and leads, from
  // whatever directory, down to the file its components spell: no accepted name leaves the
  // directory or has a second spelling.
  lemma ValidShardIff(name: string, dir: seq<string>)
    ensures ValidShardName(name) <==>
            EndsWith(name, ".jsonl") && Walk(dir, Split(name, '/')) == dir + Split(name, '/')
  {
    WalkDown(dir, Split(name, '/'));
  }

  // A name with a parent directory in it is refused by the loader of a shard.
  lemma ClimbingShardRefused(files: Files, name: string, store: Store)
    requires ".." in Split(name, '/') || "." in Split(name, '/') || "" in Split(name, '/')
    ensures LoadShard(files, name, store) == Failed(InvalidPath(name))
  {
    assert !ProperComponent("..") && !ProperComponent(".") && !ProperComponent("");
  }
}

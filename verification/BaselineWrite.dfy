/**
 What writing a baseline means, and why loading it gives the findings back: grouping into
 shards is a partition, every record is one line, and the loader's order has no ties.
 */
module BaselineWrite {
  import opened Text
  import opened Sequences
  import opened Sorting
  import opened BaselineModel
  import opened BaselineLines
  import opened BaselineLoad

  datatype WriteConfig = WriteConfig(baselineCommit: string, generator: string, generatedAt: string)

  // ----- shard names -----

  function TrimSlashes(path: string): string {
    if path != "" && path[|path| - 1] == '/' then TrimSlashes(path[..|path| - 1]) else path
  }

  function LastIndex(s: string, c: char): (r: Option<nat>)
    ensures r.Some? ==> r.value < |s| && s[r.value] == c
  {
    if s == "" then None
    else if s[|s| - 1] == c then Some(|s| - 1)
    else LastIndex(s[..|s| - 1], c)
  }

  // filepath.Base
  function Base(path: string): string {
    if path == "" then "."
    else
      var p := TrimSlashes(path);
      if p == "" then "/"
      else
        match LastIndex(p, '/')
        case None => p
        case Some(i) => p[i + 1..]
  }

  // A base name without its filepath.Ext.
  function Stem(base: string): string {
    match LastIndex(base, '.')
    case None => base
    case Some(i) => base[..i]
  }

  const SPLIT_SURFACE := "memory-lab-evidence"

  function ShardName(f: Finding): string {
    if f.surfaceId == SPLIT_SURFACE then "memory-lab-evidence-" + Stem(Base(f.file)) + ".jsonl"
    else f.surfaceId + ".jsonl"
  }

  // The part of a path behind its last slash.
  lemma BaseOf(dir: string, base: string)
    requires base != "" && '/' !in base
    ensures Base(dir + "/" + base) == base && Base(base) == base
  {
    assert base[|base| - 1] in base;
    LastIndexOf(dir, '/', base);
    NoIndex(base, '/');
    assert (dir + "/" + base)[|dir| + 1..] == base;
  }

  // Slashes at the end do not count; a path of slashes alone is its own base.
  lemma BaseOfEnds(path: string)
    ensures path != "" ==> Base(path + "/") == Base(path)
    ensures Base("") == "." && Base("/") == "/"
  {
    assert (path + "/")[..|path|] == path && "/"[..0] == "";
  }

  lemma {:induction false} NoIndex(s: string, c: char)
    requires c !in s
    ensures LastIndex(s, c) == None
  {
    if s != "" {
      assert s[|s| - 1] in s;
      NoIndex(s[..|s| - 1], c);
    }
  }

  lemma {:induction false} LastIndexOf(a: string, c: char, b: string)
    requires c !in b
    ensures LastIndex(a + [c] + b, c) == Some(|a|)
  {
    var s := a + [c] + b;
    if b == "" {
      assert s[|s| - 1] == c;
    } else {
      assert s[|s| - 1] == b[|b| - 1] && b[|b| - 1] in b && s[..|s| - 1] == a + [c] + b[..|b| - 1];
      LastIndexOf(a, c, b[..|b| - 1]);
    }
  }

  // The shard of a finding: its surface, and for the split surface the name of its file without
  // directories and without what stands behind its last dot.
  lemma ShardNameExactly(f: Finding, dir: string, stem: string, ext: string)
    requires '.' !in ext && '/' !in stem && '/' !in ext
    ensures f.surfaceId != "memory-lab-evidence" ==> ShardName(f) == f.surfaceId + ".jsonl"
    ensures f.surfaceId == "memory-lab-evidence" && f.file in [stem + "." + ext, dir + "/" + (stem + "." + ext)] ==>
              ShardName(f) == "memory-lab-evidence-" + stem + ".jsonl"
    ensures f.surfaceId == "memory-lab-evidence" && ext != "" && f.file in [ext, dir + "/" + ext] ==>
              ShardName(f) == "memory-lab-evidence-" + ext + ".jsonl"
  {
    var base := stem + "." + ext;
    assert '/' !in base;
    BaseOf(dir, base);
    if ext != "" { BaseOf(dir, ext); }
    LastIndexOf(stem, '.', ext);
    NoIndex(ext, '.');
    assert base[..|stem|] == stem;
  }

  // A file name that os.Create can make directly inside the directory.
  predicate PlainName(name: string) { name != "" && '/' !in name && '\0' !in name }

  predicate PlainShards(fs: seq<Finding>) { forall f | f in fs :: PlainName(ShardName(f)) }

  lemma PlainShardValid(f: Finding)
    requires PlainName(ShardName(f))
    ensures ValidShardName(ShardName(f)) && ShardName(f) != MANIFEST_NAME
  {
    var name := ShardName(f);
    SplitFree(name, '/');
    assert EndsWith(name, ".jsonl");
    assert name[|name| - 1] == 'l' && MANIFEST_NAME[|MANIFEST_NAME| - 1] == 'n';
  }

  // ----- grouping -----

  function ShardNamesOf(fs: seq<Finding>): seq<string> {
    seq(|fs|, i requires 0 <= i < |fs| => ShardName(fs[i]))
  }

  function SurfacesOf(fs: seq<Finding>): seq<string> {
    seq(|fs|, i requires 0 <= i < |fs| => fs[i].surfaceId)
  }

  function InShard(name: string): Finding -> bool {
    (f: Finding) => ShardName(f) == name
  }

  // The findings of one shard, in the writer's order.
  function ShardOf(fs: seq<Finding>, name: string): seq<Finding> {
    Filter(StableSort(fs, GroupLess), InShard(name))
  }

  function ShardList(fs: seq<Finding>): seq<string> { SortedDistinct(ShardNamesOf(fs)) }

  // The map from shard name to findings, each list in the order of s.
  function GroupInOrder(s: seq<Finding>): map<string, seq<Finding>> {
    map name | name in ShardNamesOf(s) :: Filter(s, InShard(name))
  }

  function Entry(g: map<string, seq<Finding>>, n: string): seq<Finding> { if n in g then g[n] else [] }

  // The entry of a name is the findings of that shard, absent or empty.
  lemma EntryOf(s: seq<Finding>, n: string)
    ensures Entry(GroupInOrder(s), n) == Filter(s, InShard(n))
    ensures n in GroupInOrder(s) <==> n in ShardNamesOf(s)
  {
    if n !in ShardNamesOf(s) { NoneInShard(s, n); }
  }

  lemma NamesAppend(s: seq<Finding>, f: Finding, n: string)
    ensures n in ShardNamesOf(s + [f]) <==> n in ShardNamesOf(s) || ShardName(f) == n
  {
    assert ShardNamesOf(s + [f]) == ShardNamesOf(s) + [ShardName(f)];
    AppendMember(ShardNamesOf(s), [ShardName(f)], n);
  }

  lemma FilterOneMore(s: seq<Finding>, f: Finding, p: Finding -> bool)
    ensures Filter(s + [f], p) == Filter(s, p) + (if p(f) then [f] else [])
  {
    FilterAppend(s, [f], p);
    FilterCons(f, [], p);
  }

  lemma EntryAppend(s: seq<Finding>, f: Finding, n: string)
    ensures Entry(GroupInOrder(s + [f]), n) == Entry(GroupInOrder(s), n) + (if ShardName(f) == n then [f] else [])
    ensures n in GroupInOrder(s + [f]) <==> n in GroupInOrder(s) || ShardName(f) == n
  {
    EntryOf(s, n);
    EntryOf(s + [f], n);
    NamesAppend(s, f, n);
    FilterOneMore(s, f, InShard(n));
  }

  lemma GroupAppend(s: seq<Finding>, f: Finding)
    ensures GroupInOrder(s + [f])
            == GroupInOrder(s)[ShardName(f) := Entry(GroupInOrder(s), ShardName(f)) + [f]]
  {
    var g, h := GroupInOrder(s), GroupInOrder(s + [f]);
    forall n
      ensures n in h <==> n in g || ShardName(f) == n
      ensures Entry(h, n) == Entry(g, n) + (if ShardName(f) == n then [f] else [])
    {
      EntryAppend(s, f, n);
    }
    SameEntries(g[ShardName(f) := Entry(g, ShardName(f)) + [f]], h);
  }

  lemma SameEntries(g: map<string, seq<Finding>>, h: map<string, seq<Finding>>)
    requires forall n :: n in g <==> n in h
    requires forall n :: Entry(g, n) == Entry(h, n)
    ensures g == h
  {
    forall n | n in g ensures g[n] == h[n] { assert Entry(g, n) == Entry(h, n); }
  }

  lemma NoneInShard(s: seq<Finding>, name: string)
    requires name !in ShardNamesOf(s)
    ensures Filter(s, InShard(name)) == []
  {
    forall f | f in s ensures !InShard(name)(f) { ShardNameSource(s, name); }
    FilterNone(s, InShard(name));
  }

  // ----- files -----

  // The directory after the shards with the given names have been written.
  function WithShards(files: Files, names: seq<string>, shards: map<string, seq<Finding>>,
                      text: seq<Finding> -> string): Files
    requires forall n | n in names :: n in shards
  {
    files + map n | n in names :: text(shards[n])
  }

  lemma WithOneMore(files: Files, names: seq<string>, shards: map<string, seq<Finding>>, i: nat,
                    text: seq<Finding> -> string)
    requires i < |names| && forall n | n in names :: n in shards
    ensures WithShards(files, names[..i + 1], shards, text)
            == WithShards(files, names[..i], shards, text)[names[i] := text(shards[names[i]])]
  {
    forall n ensures n in names[..i + 1] <==> n in names[..i] || n == names[i] {
      assert names[..i + 1] == names[..i] + [names[i]];
      AppendMember(names[..i], [names[i]], n);
    }
  }

  lemma WithShardsAt(files: Files, names: seq<string>, shards: map<string, seq<Finding>>,
                     text: seq<Finding> -> string, n: string)
    requires forall k | k in names :: k in shards
    ensures var r := WithShards(files, names, shards, text);
            && (n in r <==> n in names || n in files)
            && (n in names ==> r[n] == text(shards[n]))
            && (n !in names && n in files ==> r[n] == files[n])
  {}

  lemma ShardFilesAt(files: Files, fs: seq<Finding>, n: string, store: Store)
    ensures var r := files + ShardFiles(fs, store);
            && (n in r <==> n in ShardNamesOf(fs) || n in files)
            && (n in ShardNamesOf(fs) ==> r[n] == store.shard(ShardOf(fs, n)))
            && (n !in ShardNamesOf(fs) && n in files ==> r[n] == files[n])
  {}

  lemma SameFiles(a: Files, b: Files)
    requires forall n :: (n in a <==> n in b) && (n in a && n in b ==> a[n] == b[n])
    ensures a == b
  {}

  lemma WithAllShards(files: Files, names: seq<string>, shards: map<string, seq<Finding>>,
                      fs: seq<Finding>, store: Store)
    requires forall n :: n in names <==> n in ShardNamesOf(fs)
    requires forall n | n in names :: n in shards && shards[n] == ShardOf(fs, n)
    ensures WithShards(files, names, shards, store.shard) == files + ShardFiles(fs, store)
  {
    var a, b := WithShards(files, names, shards, store.shard), files + ShardFiles(fs, store);
    forall n ensures (n in a <==> n in b) && (n in a && n in b ==> a[n] == b[n]) {
      WithShardsAt(files, names, shards, store.shard, n);
      ShardFilesAt(files, fs, n, store);
    }
    SameFiles(a, b);
  }

  function ShardFiles(fs: seq<Finding>, store: Store): Files {
    map name | name in ShardNamesOf(fs) :: store.shard(ShardOf(fs, name))
  }

  function ManifestOf(fs: seq<Finding>, config: WriteConfig): Manifest {
    Manifest(SCHEMA_VERSION, config.baselineCommit, config.generator, config.generatedAt,
             ShardList(fs), SortedDistinct(SurfacesOf(fs)))
  }

  // Files that are neither a shard of this write nor the manifest stay as they were.
  function Written(files: Files, fs: seq<Finding>, config: WriteConfig, store: Store): Files {
    (files + ShardFiles(fs, store))[MANIFEST_NAME := store.manifest(ManifestOf(fs, config))]
  }

  ghost predicate AllStorable(fs: seq<Finding>, store: Store) { forall f | f in fs :: store.storable(f) }

  // ----- shards partition the findings -----

  // The shards with the given names, one after the other.
  function Gather(fs: seq<Finding>, names: seq<string>): seq<Finding> {
    if names == [] then [] else ShardOf(fs, names[0]) + Gather(fs, names[1..])
  }

  function InShards(names: seq<string>): Finding -> bool {
    (f: Finding) => ShardName(f) in names
  }

  lemma SplitFilter(s: seq<Finding>, names: seq<string>)
    requires names != [] && names[0] !in names[1..]
    ensures multiset(Filter(s, InShards(names)))
            == multiset(Filter(s, InShard(names[0]))) + multiset(Filter(s, InShards(names[1..])))
  {
    forall f ensures InShards(names)(f) <==> InShard(names[0])(f) || InShards(names[1..])(f) {
      assert names == [names[0]] + names[1..];
    }
    FilterDisjoint(s, InShards(names), InShard(names[0]), InShards(names[1..]));
  }

  lemma {:induction false} GatherPartitions(fs: seq<Finding>, names: seq<string>)
    requires forall i, j | 0 <= i < j < |names| :: names[i] != names[j]
    ensures multiset(Gather(fs, names)) == multiset(Filter(StableSort(fs, GroupLess), InShards(names)))
  {
    var s := StableSort(fs, GroupLess);
    if names == [] {
      FilterNone(s, InShards([]));
    } else {
      GatherPartitions(fs, names[1..]);
      SplitFilter(s, names);
    }
  }

  // No finding is lost or repeated by grouping, even when two surfaces share a shard file.
  lemma ShardsPartition(fs: seq<Finding>)
    ensures multiset(Gather(fs, ShardList(fs))) == multiset(fs)
    ensures forall i, j | 0 <= i < j < |ShardList(fs)| :: ShardList(fs)[i] != ShardList(fs)[j]
    ensures forall n :: n in ShardList(fs) <==> exists f | f in fs :: ShardName(f) == n
  {
    var names, s := ShardList(fs), StableSort(fs, GroupLess);
    SortedDistinctStrict(ShardNamesOf(fs));
    StringLessTotal();
    SortPermutes(fs, GroupLess);
    MultisetMembers(s, fs);
    forall n ensures n in names <==> exists f | f in fs :: ShardName(f) == n {
      ShardNameSource(fs, n);
    }
    GatherPartitions(fs, names);
    FilterAll(s, InShards(names));
  }

  lemma ShardNameSource(fs: seq<Finding>, n: string)
    ensures n in ShardNamesOf(fs) <==> exists f | f in fs :: ShardName(f) == n
  {
    if n in ShardNamesOf(fs) {
      var i :| 0 <= i < |fs| && ShardNamesOf(fs)[i] == n;
      assert fs[i] in fs && ShardName(fs[i]) == n;
    }
    if f :| f in fs && ShardName(f) == n {
      var i :| 0 <= i < |fs| && fs[i] == f;
      assert ShardNamesOf(fs)[i] == n;
    }
  }

  lemma SurfaceSource(fs: seq<Finding>, s: string)
    ensures s in SortedDistinct(SurfacesOf(fs)) <==> HasSurface(fs, s)
  {
    SortedDistinctStrict(SurfacesOf(fs));
    if s in SurfacesOf(fs) {
      var i :| 0 <= i < |fs| && SurfacesOf(fs)[i] == s;
      assert fs[i] in fs && fs[i].surfaceId == s;
    }
    if f :| f in fs && f.surfaceId == s {
      var i :| 0 <= i < |fs| && fs[i] == f;
      assert SurfacesOf(fs)[i] == s;
    }
  }

  lemma NamesAgree(fs: seq<Finding>, gs: seq<Finding>)
    requires forall f :: f in fs <==> f in gs
    ensures forall n :: n in ShardNamesOf(fs) <==> n in ShardNamesOf(gs)
    ensures ShardList(fs) == ShardList(gs)
    ensures SortedDistinct(SurfacesOf(fs)) == SortedDistinct(SurfacesOf(gs))
  {
    StringLessTotal();
    forall n ensures n in ShardNamesOf(fs) <==> n in ShardNamesOf(gs) {
      ShardNameSource(fs, n);
      ShardNameSource(gs, n);
    }
    SortedDistinctStrict(ShardNamesOf(fs));
    SortedDistinctStrict(ShardNamesOf(gs));
    StrictlySortedUnique(ShardList(fs), ShardList(gs), StringLess);
    forall s ensures s in SortedDistinct(SurfacesOf(fs)) <==> s in SortedDistinct(SurfacesOf(gs)) {
      SurfaceSource(fs, s);
      SurfaceSource(gs, s);
      assert HasSurface(fs, s) <==> HasSurface(gs, s);
    }
    SortedDistinctStrict(SurfacesOf(fs));
    SortedDistinctStrict(SurfacesOf(gs));
    StrictlySortedUnique(SortedDistinct(SurfacesOf(fs)), SortedDistinct(SurfacesOf(gs)), StringLess);
  }

  // The manifest lists shards and surfaces in dictionary order, each once.
  lemma ManifestAscending(fs: seq<Finding>, config: WriteConfig)
    ensures var m := ManifestOf(fs, config);
            && Ascending(m.shards) && Ascending(m.surfaceIds)
            && (forall n :: n in m.shards <==> exists f | f in fs :: ShardName(f) == n)
            && (forall n :: n in m.surfaceIds <==> exists f | f in fs :: f.surfaceId == n)
  {
    DistinctAscending(ShardNamesOf(fs));
    DistinctAscending(SurfacesOf(fs));
    forall n ensures n in ShardNamesOf(fs) <==> exists f | f in fs :: ShardName(f) == n { ShardNameSource(fs, n); }
    forall n ensures n in SortedDistinct(SurfacesOf(fs)) <==> HasSurface(fs, n) { SurfaceSource(fs, n); }
  }

  // In a shard no record is below the one before it.
  lemma ShardAscending(fs: seq<Finding>, name: string)
    ensures var g := ShardOf(fs, name); forall i, j | 0 <= i < j < |g| :: !BelowInGroup(g[j], g[i])
  {
    FindingOrders();
    SortSorts(fs, GroupLess);
    var s, g := StableSort(fs, GroupLess), ShardOf(fs, name);
    FilterSorted(s, GroupLess, InShard(name));
    forall i, j | 0 <= i < j < |g| ensures !BelowInGroup(g[j], g[i]) { GroupLessIff(g[j], g[i]); }
  }

  // ----- store round trip -----

  ghost predicate Loadable(fs: seq<Finding>, config: WriteConfig, store: Store) {
    && config.baselineCommit != ""
    && config.generator != ""
    && DistinctIds(fs)
    && AllStorable(fs, store)
  }

  lemma WrittenManifest(files: Files, fs: seq<Finding>, config: WriteConfig, store: Store)
    requires GoodStore(store)
    ensures var m := ManifestOf(fs, config);
            LoadManifest(Written(files, fs, config, store), store) ==
            if ValidManifest(m) then Loaded(m) else Failed(InvalidManifest(ManifestFault(m)))
  {
    var m := ManifestOf(fs, config);
    assert store.readManifest(store.manifest(m)) == Some(m);
    assert Written(files, fs, config, store)[MANIFEST_NAME] == store.manifest(m);
  }

  lemma LoadableManifest(fs: seq<Finding>, config: WriteConfig, store: Store)
    requires GoodStore(store) && Loadable(fs, config, store)
    ensures ValidManifest(ManifestOf(fs, config))
  {
    var m := ManifestOf(fs, config);
    StringLessTotal();
    SortedDistinctStrict(SurfacesOf(fs));
    SortedDistinctStrict(ShardNamesOf(fs));
    forall i | 0 <= i < |m.surfaceIds| ensures m.surfaceIds[i] != "" {
      assert m.surfaceIds[i] in m.surfaceIds;
      SurfaceSource(fs, m.surfaceIds[i]);
    }
    forall i | 0 <= i < |m.shards| ensures m.shards[i] != "" {
      assert m.shards[i] in m.shards;
      ShardNameSource(fs, m.shards[i]);
    }
    assert fs != [] ==> ShardNamesOf(fs)[0] in m.shards && SurfacesOf(fs)[0] in m.surfaceIds;
  }

  lemma WrittenAt(files: Files, fs: seq<Finding>, config: WriteConfig, name: string, store: Store)
    requires name in ShardNamesOf(fs) && name != MANIFEST_NAME
    ensures name in Written(files, fs, config, store)
    ensures Written(files, fs, config, store)[name] == store.shard(ShardOf(fs, name))
  {
    OverlayAt(files, ShardFiles(fs, store), MANIFEST_NAME, store.manifest(ManifestOf(fs, config)), name);
  }

  lemma OverlayAt(files: Files, shards: Files, last: string, text: string, name: string)
    requires name in shards && name != last
    ensures var r := (files + shards)[last := text]; name in r && r[name] == shards[name]
  {}

  lemma WrittenShard(files: Files, fs: seq<Finding>, config: WriteConfig, name: string, store: Store)
    requires GoodStore(store)
    requires PlainShards(fs) && name in ShardNamesOf(fs)
    ensures var r := LoadShard(Written(files, fs, config, store), name, store);
            && (r.Loaded? <==> AllStorable(ShardOf(fs, name), store))
            && (r.Loaded? ==> r.value == ShardOf(fs, name))
  {
    ShardNameSource(fs, name);
    var f :| f in fs && ShardName(f) == name;
    PlainShardValid(f);
    WrittenAt(files, fs, config, name, store);
    assert ReadsBack(store.readShard(name, store.shard(ShardOf(fs, name))), ShardOf(fs, name), store.storable);
  }

  lemma ShardMember(fs: seq<Finding>, name: string, f: Finding)
    ensures f in ShardOf(fs, name) <==> f in fs && ShardName(f) == name
  {
    var s := StableSort(fs, GroupLess);
    SortPermutes(fs, GroupLess);
    MultisetMembers(s, fs);
    FilterMembers(s, InShard(name), f);
  }

  lemma {:induction false} WrittenRecords(files: Files, fs: seq<Finding>, config: WriteConfig,
                                           names: seq<string>, store: Store)
    requires GoodStore(store)
    requires PlainShards(fs) && forall n | n in names :: n in ShardNamesOf(fs)
    requires AllLoad(Written(files, fs, config, store), names, store)
    ensures Records(Written(files, fs, config, store), names, store) == Gather(fs, names)
  {
    if names != [] {
      WrittenShard(files, fs, config, names[0], store);
      AllLoadCons(Written(files, fs, config, store), names, store);
      WrittenRecords(files, fs, config, names[1..], store);
    }
  }

  lemma WrittenAllLoad(files: Files, fs: seq<Finding>, config: WriteConfig, store: Store)
    requires GoodStore(store)
    requires PlainShards(fs)
    ensures AllLoad(Written(files, fs, config, store), ShardList(fs), store)
            <==> AllStorable(fs, store)
  {
    var files' := Written(files, fs, config, store);
    SortedDistinctStrict(ShardNamesOf(fs));
    if AllLoad(files', ShardList(fs), store) {
      forall f | f in fs ensures store.storable(f) {
        ShardNameSource(fs, ShardName(f));
        assert ShardName(f) in ShardList(fs);
        WrittenShard(files, fs, config, ShardName(f), store);
        ShardMember(fs, ShardName(f), f);
      }
    }
    if AllStorable(fs, store) {
      forall n | n in ShardList(fs) ensures LoadShard(files', n, store).Loaded? {
        WrittenShard(files, fs, config, n, store);
        forall f | f in ShardOf(fs, n) ensures f in fs { ShardMember(fs, n, f); }
      }
    }
  }

  lemma WrittenIds(files: Files, fs: seq<Finding>, config: WriteConfig, store: Store)
    requires GoodStore(store)
    requires PlainShards(fs) && AllLoad(Written(files, fs, config, store), ShardList(fs), store)
    ensures var records := Records(Written(files, fs, config, store), ShardList(fs), store);
            multiset(records) == multiset(fs) && (DistinctIds(records) <==> DistinctIds(fs))
  {
    var records := Records(Written(files, fs, config, store), ShardList(fs), store);
    ShardsPartition(fs);
    SortedDistinctStrict(ShardNamesOf(fs));
    WrittenRecords(files, fs, config, ShardList(fs), store);
    if DistinctIds(records) { DistinctIdsPermute(records, fs); }
    if DistinctIds(fs) { DistinctIdsPermute(fs, records); }
  }

  lemma WrittenSurfaces(fs: seq<Finding>, config: WriteConfig, records: seq<Finding>)
    requires multiset(records) == multiset(fs)
    ensures forall s :: s in ManifestOf(fs, config).surfaceIds <==> HasSurface(records, s)
  {
    MultisetMembers(records, fs);
    forall s ensures s in ManifestOf(fs, config).surfaceIds <==> HasSurface(records, s) {
      SurfaceSource(fs, s);
      assert HasSurface(fs, s) <==> HasSurface(records, s);
    }
  }

  // The manifest alone settles commit and generator, the shards validity and length.
  lemma WellFormedLoadable(files: Files, fs: seq<Finding>, config: WriteConfig, store: Store)
    requires GoodStore(store)
    requires PlainShards(fs)
    ensures WellFormedStore(Written(files, fs, config, store), store) ==> Loadable(fs, config, store)
  {
    if WellFormedStore(Written(files, fs, config, store), store) {
      WrittenManifest(files, fs, config, store);
      WrittenAllLoad(files, fs, config, store);
      WrittenIds(files, fs, config, store);
    }
  }

  lemma LoadableWellFormed(files: Files, fs: seq<Finding>, config: WriteConfig, store: Store)
    requires GoodStore(store)
    requires PlainShards(fs) && Loadable(fs, config, store)
    ensures WellFormedStore(Written(files, fs, config, store), store)
    ensures LoadManifest(Written(files, fs, config, store), store) == Loaded(ManifestOf(fs, config))
    ensures multiset(Records(Written(files, fs, config, store), ShardList(fs), store)) == multiset(fs)
  {
    WrittenManifest(files, fs, config, store);
    LoadableManifest(fs, config, store);
    WrittenAllLoad(files, fs, config, store);
    WrittenIds(files, fs, config, store);
    WrittenSurfaces(fs, config, Records(Written(files, fs, config, store), ShardList(fs), store));
  }

  // Main result. Whatever the directory held before, writing and loading gives back the findings
  // themselves, in the loader's order.
  lemma StoreRoundTrip(files: Files, fs: seq<Finding>, config: WriteConfig, store: Store)
    requires GoodStore(store)
    requires PlainShards(fs) && Loadable(fs, config, store)
    ensures LoadAll(Written(files, fs, config, store), store) == Loaded(StableSort(fs, KeyLess))
  {
    var files' := Written(files, fs, config, store);
    LoadAllIff(files', store);
    LoadableWellFormed(files, fs, config, store);
    KeySortCanonical(fs, Records(files', ShardList(fs), store));
  }

  // And it succeeds for no other findings: exactly when commit and generator are given, ids are
  // distinct, and every finding is valid and short enough for one line.
  lemma StoreAcceptedIff(files: Files, fs: seq<Finding>, config: WriteConfig, store: Store)
    requires GoodStore(store) && PlainShards(fs)
    ensures LoadAll(Written(files, fs, config, store), store).Loaded? <==> Loadable(fs, config, store)
  {
    LoadAllIff(Written(files, fs, config, store), store);
    WellFormedLoadable(files, fs, config, store);
    if Loadable(fs, config, store) {
      LoadableWellFormed(files, fs, config, store);
    }
  }
}

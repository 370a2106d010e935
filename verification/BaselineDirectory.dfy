/** The baseline directory with the store's loops, each tied to what loading and writing mean. */
module BaselineDirectory {
  import opened Text
  import opened Sequences
  import opened Sorting
  import opened BaselineModel
  import N = BaselineLines
  import L = BaselineLoad
  import W = BaselineWrite

  // The keys of a Go map, handed out one by one in an order nobody chooses.
  method KeysOf(keys: set<string>) returns (list: seq<string>)
    ensures forall k :: k in list <==> k in keys
    ensures forall i, j | 0 <= i < j < |list| :: list[i] != list[j]
  {
    list := [];
    var rest := keys;
    while rest != {}
      invariant rest <= keys
      invariant forall k :: k in list <==> k in keys && k !in rest
      invariant forall i, j | 0 <= i < j < |list| :: list[i] != list[j]
      decreases |rest|
    {
      var k :| k in rest;
      rest := rest - {k};
      list := list + [k];
    }
  }

  // groupFindings: one pass over the sorted copy, appending to the map entry of each shard.
  method GroupFindings(findings: seq<Finding>) returns (shards: map<string, seq<Finding>>)
    ensures forall n :: n in shards <==> n in W.ShardNamesOf(findings)
    ensures forall n | n in shards :: shards[n] == W.ShardOf(findings, n)
  {
    var sorted := StableSort(findings, GroupLess);
    shards := map[];
    for i := 0 to |sorted|
      invariant shards == W.GroupInOrder(sorted[..i])
    {
      var name := W.ShardName(sorted[i]);
      W.GroupAppend(sorted[..i], sorted[i]);
      assert sorted[..i + 1] == sorted[..i] + [sorted[i]];
      shards := shards[name := W.Entry(shards, name) + [sorted[i]]];
    }
    assert sorted[..|sorted|] == sorted;
    SortPermutes(findings, GroupLess);
    MultisetMembers(findings, sorted);
    W.NamesAgree(findings, sorted);
  }

  // ----- the loops of LoadAll -----

  lemma PrependOne(acc: seq<Finding>, f: Finding, r: N.Result<seq<Finding>>)
    ensures N.Prepend(acc, N.Prepend([f], r)) == N.Prepend(acc + [f], r)
  {
    if r.Loaded? { assert acc + ([f] + r.value) == acc + [f] + r.value; }
  }

  lemma LineStep(name: string, lines: seq<string>, n: nat, acc: seq<Finding>)
    requires n < |lines|
    ensures var r := N.Prepend(acc, N.LoadLines(name, lines[n..], n + 1, JSON_RECORDS));
            var next := N.LoadLines(name, lines[n + 1..], n + 2, JSON_RECORDS);
            match N.ReadLine(name, lines[n], n + 1, JSON_RECORDS)
            case Bad(e) => r == N.Failed(e)
            case Blank => r == N.Prepend(acc, next)
            case Record(f) => r == N.Prepend(acc + [f], next)
  {
    assert lines[n..][0] == lines[n] && lines[n..][1..] == lines[n + 1..];
    var line := N.ReadLine(name, lines[n], n + 1, JSON_RECORDS);
    if line.Record? {
      PrependOne(acc, line.finding, N.LoadLines(name, lines[n + 1..], n + 2, JSON_RECORDS));
    }
  }

  // One turn of the scanner loop.
  method ReadLine(name: string, text: string, lineNum: nat) returns (r: N.Line)
    ensures r == N.ReadLine(name, text, lineNum, JSON_RECORDS)
  {
    if N.ByteLength(text) >= N.MAX_LINE_BYTES {
      return N.Bad(N.LineTooLong(name));
    }
    var line := Strip(text, GoSpace);
    if line == "" {
      return N.Blank;
    }
    var decoded := ParseFinding(line);
    if decoded.None? {
      return N.Bad(N.MalformedLine(name, lineNum));
    }
    var errs := ValidateFinding(decoded.value);
    if |errs| > 0 {
      return N.Bad(N.InvalidRecord(name, lineNum, errs[0].field));
    }
    return N.Record(decoded.value);
  }

  // The first declared surface that no record carries.
  method FindUnbacked(declared: seq<string>, all: seq<Finding>, loadedSurfaces: set<string>) returns (r: Option<string>)
    requires forall s :: s in loadedSurfaces <==> L.HasSurface(all, s)
    ensures r == L.Unbacked(declared, all)
  {
    for k := 0 to |declared|
      invariant L.Unbacked(declared, all) == L.Unbacked(declared[k..], all)
    {
      assert declared[k..][0] == declared[k] && declared[k..][1..] == declared[k + 1..];
      if declared[k] !in loadedSurfaces {
        return Some(declared[k]);
      }
    }
    return None;
  }

  // Every record's surface must be declared; the map of surfaces is walked in any order.
  method AllDeclared(declared: seq<string>, loadedSurfaces: set<string>) returns (ok: bool)
    ensures ok <==> forall s | s in loadedSurfaces :: s in declared
  {
    var rest := loadedSurfaces;
    while rest != {}
      invariant rest <= loadedSurfaces
      invariant forall s | s in loadedSurfaces && s !in rest :: s in declared
      decreases |rest|
    {
      var s :| s in rest;
      rest := rest - {s};
      var found := false;
      for k := 0 to |declared|
        invariant !found && s !in declared[..k]
      {
        assert declared[..k + 1] == declared[..k] + [declared[k]];
        if declared[k] == s {
          found := true;
          break;
        }
      }
      if !found {
        assert declared[..|declared|] == declared;
        return false;
      }
    }
    return true;
  }

  method SurfacesIn(findings: seq<Finding>) returns (surfaces: set<string>)
    ensures forall s :: s in surfaces <==> L.HasSurface(findings, s)
  {
    surfaces := {};
    for i := 0 to |findings|
      invariant surfaces == set f | f in findings[..i] :: f.surfaceId
    {
      assert findings[..i + 1] == findings[..i] + [findings[i]];
      surfaces := surfaces + {findings[i].surfaceId};
    }
    assert findings[..|findings|] == findings;
  }

  // The loop of writeShard: each record, then a line break.
  method RecordLines(findings: seq<Finding>) returns (text: string)
    ensures text == N.ShardText(findings, JSON_RECORDS)
  {
    text := "";
    for i := 0 to |findings|
      invariant text == N.ShardText(findings[..i], JSON_RECORDS)
    {
      N.ShardTextNext(findings, i, JSON_RECORDS);
      text := text + FindingText(findings[i]) + ['\n'];
    }
    assert findings[..|findings|] == findings;
  }

  class Directory {
    var files: L.Files

    constructor (files: L.Files)
      ensures this.files == files
    {
      this.files := files;
    }

    // ----- load.go -----

    method LoadManifest() returns (r: N.Result<Manifest>)
      ensures r == L.LoadManifest(files, N.JSON_STORE)
    {
      if L.MANIFEST_NAME !in files {
        return N.Failed(N.MissingManifest);
      }
      var decoded := ParseManifest(files[L.MANIFEST_NAME]);
      if decoded.None? {
        return N.Failed(N.MalformedManifest);
      }
      var errs := ValidateManifest(decoded.value);
      if |errs| > 0 {
        return N.Failed(N.InvalidManifest(errs[0].field));
      }
      return N.Loaded(decoded.value);
    }

    method LoadShard(name: string) returns (r: N.Result<seq<Finding>>)
      ensures r == L.LoadShard(files, name, N.JSON_STORE)
    {
      if !L.ValidShardName(name) {
        return N.Failed(N.InvalidPath(name));
      }
      if name !in files {
        return N.Failed(N.MissingShard(name));
      }
      var lines := N.ScanLines(files[name]);
      var findings: seq<Finding> := [];
      ghost var whole := N.LoadLines(name, lines, 1, JSON_RECORDS);
      assert lines[0..] == lines;
      assert whole == N.Prepend([], whole) by { if whole.Loaded? { assert [] + whole.value == whole.value; } }
      for n := 0 to |lines|
        invariant whole == N.Prepend(findings, N.LoadLines(name, lines[n..], n + 1, JSON_RECORDS))
      {
        LineStep(name, lines, n, findings);
        var line := ReadLine(name, lines[n], n + 1);
        if line.Bad? {
          return N.Failed(line.error);
        }
        if line.Record? {
          findings := findings + [line.finding];
        }
      }
      assert findings + [] == findings;
      return N.Loaded(findings);
    }

    // The records of every shard, refusing a repeated id.
    method LoadRecords(shards: seq<string>) returns (r: N.Result<seq<Finding>>)
      ensures r == L.LoadShards(files, shards, [], N.JSON_STORE)
    {
      var seen: set<string> := {};
      var all: seq<Finding> := [];
      for i := 0 to |shards|
        invariant seen == set f | f in all :: f.findingId
        invariant L.LoadShards(files, shards, [], N.JSON_STORE) == L.LoadShards(files, shards[i..], all, N.JSON_STORE)
      {
        var name := shards[i];
        assert shards[i..][0] == name && shards[i..][1..] == shards[i + 1..];
        var shard := LoadShard(name);
        if shard.Failed? {
          return shard;
        }
        var fs := shard.value;
        ghost var before := all;
        for j := 0 to |fs|
          invariant seen == set f | f in all :: f.findingId
          invariant L.AppendDistinct(name, before, fs) == L.AppendDistinct(name, all, fs[j..])
        {
          assert fs[j..][0] == fs[j] && fs[j..][1..] == fs[j + 1..];
          if fs[j].findingId in seen {
            return N.Failed(N.DuplicateFinding(name, fs[j].findingId));
          }
          seen := seen + {fs[j].findingId};
          all := all + [fs[j]];
        }
      }
      return N.Loaded(all);
    }

    method LoadAll() returns (r: N.Result<seq<Finding>>)
      ensures r == L.LoadAll(files, N.JSON_STORE)
    {
      var manifest := LoadManifest();
      if manifest.Failed? {
        return N.Failed(manifest.error);
      }
      var m := manifest.value;
      var records := LoadRecords(m.shards);
      if records.Failed? {
        return records;
      }
      var all := records.value;

      var loadedSurfaces := SurfacesIn(all);
      var unbacked := FindUnbacked(m.surfaceIds, all, loadedSurfaces);
      if unbacked.Some? {
        return N.Failed(N.SurfaceWithoutFindings(unbacked.value));
      }
      var declared := AllDeclared(m.surfaceIds, loadedSurfaces);
      DeclaredSurfaces(m.surfaceIds, all, loadedSurfaces);
      if !declared {
        return N.Failed(N.UndeclaredSurface);
      }
      return N.Loaded(StableSort(all, KeyLess));
    }

    // ----- write.go -----

    method WriteShard(name: string, findings: seq<Finding>)
      modifies this
      ensures files == old(files)[name := N.ShardText(findings, JSON_RECORDS)]
    {
      var text := RecordLines(findings);
      files := files[name := text];
    }

    method WriteShards(names: seq<string>, shards: map<string, seq<Finding>>)
      requires forall n | n in names :: n in shards
      modifies this
      ensures files == W.WithShards(old(files), names, shards, N.JSON_STORE.shard)
    {
      for i := 0 to |names|
        invariant files == W.WithShards(old(files), names[..i], shards, N.JSON_STORE.shard)
      {
        W.WithOneMore(old(files), names, shards, i, N.JSON_STORE.shard);
        WriteShard(names[i], shards[names[i]]);
      }
      assert names[..|names|] == names;
    }

    method Write(findings: seq<Finding>, config: W.WriteConfig)
      modifies this
      ensures files == W.Written(old(files), findings, config, N.JSON_STORE)
    {
      var shards := GroupFindings(findings);
      var keys := KeysOf(shards.Keys);
      var shardNames := StableSort(keys, StringLess);
      SortKeys(keys, W.ShardNamesOf(findings));
      SortedDistinctStrict(W.ShardNamesOf(findings));

      var surfaces := SurfacesIn(findings);
      var surfaceKeys := KeysOf(surfaces);
      var sortedSurfaces := StableSort(surfaceKeys, StringLess);
      SurfaceKeys(findings, surfaceKeys);

      WriteShards(shardNames, shards);
      W.WithAllShards(old(files), shardNames, shards, findings, N.JSON_STORE);

      var manifest := Manifest(SCHEMA_VERSION, config.baselineCommit, config.generator, config.generatedAt,
                               shardNames, sortedSurfaces);
      assert manifest == W.ManifestOf(findings, config);
      files := files[L.MANIFEST_NAME := ManifestText(manifest)];
    }
  }

  lemma DeclaredSurfaces(declared: seq<string>, all: seq<Finding>, surfaces: set<string>)
    requires forall s :: s in surfaces <==> L.HasSurface(all, s)
    ensures (forall s | s in surfaces :: s in declared) <==> !(exists f | f in all :: f.surfaceId !in declared)
  {
    if forall s | s in surfaces :: s in declared {
      forall f | f in all ensures f.surfaceId in declared {
        assert L.HasSurface(all, f.surfaceId);
        assert f.surfaceId in surfaces;
      }
    }
  }

  lemma SurfaceKeys(findings: seq<Finding>, keys: seq<string>)
    requires forall s :: s in keys <==> L.HasSurface(findings, s)
    requires forall i, j | 0 <= i < j < |keys| :: keys[i] != keys[j]
    ensures StableSort(keys, StringLess) == SortedDistinct(W.SurfacesOf(findings))
  {
    SortedDistinctStrict(W.SurfacesOf(findings));
    forall s ensures s in keys <==> s in W.SurfacesOf(findings) { W.SurfaceSource(findings, s); }
    SortKeys(keys, W.SurfacesOf(findings));
  }
}

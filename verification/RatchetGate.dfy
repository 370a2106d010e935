/** The scanner's deduplication and the ratchet verifier's comparison of finding ids. */
module RatchetGate {
  import opened Sequences
  import opened Sorting
  import opened BaselineModel
  import opened BaselineLines
  import opened BaselineLoad
  import opened BaselineWrite

  function IdSet(fs: seq<Finding>): set<string> { set f | f in fs :: f.findingId }

  function Ids(fs: seq<Finding>): seq<string> {
    seq(|fs|, i requires 0 <= i < |fs| => fs[i].findingId)
  }

  function Elements(ids: seq<string>): set<string> { set id | id in ids }

  predicate NoRepeats(ids: seq<string>) { forall i, j | 0 <= i < j < |ids| :: ids[i] != ids[j] }

  // ----- deduplication in the scanner -----

  predicate FileLineLess(a: Finding, b: Finding) {
    if a.file != b.file then StringLess(a.file, b.file) else a.line < b.line
  }

  lemma FileLineLessIff(a: Finding, b: Finding)
    ensures FileLineLess(a, b) <==> Below(a.file, b.file) || (a.file == b.file && a.line < b.line)
  {
    StringLessOrder(a.file, a.file, "");
    StringLessIff(a.file, b.file);
  }

  // sort.Slice may leave ties in any order, so a scan has several possible sorted forms.
  ghost predicate SortedScan(raw: seq<Finding>, scan: seq<Finding>) {
    multiset(raw) == multiset(scan) && SortedBy(scan, FileLineLess)
  }

  // The first finding of each id not in seen, in order.
  function Unique(fs: seq<Finding>, seen: set<string>): seq<Finding> {
    if fs == [] then []
    else if fs[0].findingId in seen then Unique(fs[1..], seen)
    else [fs[0]] + Unique(fs[1..], seen + {fs[0].findingId})
  }

  lemma {:induction false} UniqueAppend(fs: seq<Finding>, f: Finding, seen: set<string>)
    ensures Unique(fs + [f], seen) ==
            Unique(fs, seen) + (if f.findingId in seen + IdSet(fs) then [] else [f])
  {
    if fs == [] {
      assert fs + [f] == [f];
    } else {
      assert (fs + [f])[1..] == fs[1..] + [f];
      assert IdSet(fs) == {fs[0].findingId} + IdSet(fs[1..]) by { assert fs == [fs[0]] + fs[1..]; }
      if fs[0].findingId in seen {
        UniqueAppend(fs[1..], f, seen);
      } else {
        UniqueAppend(fs[1..], f, seen + {fs[0].findingId});
        assert seen + {fs[0].findingId} + IdSet(fs[1..]) == seen + IdSet(fs);
      }
    }
  }

  method Deduplicate(findings: seq<Finding>) returns (unique: seq<Finding>)
    ensures unique == Unique(findings, {})
  {
    var seen: set<string> := {};
    unique := [];
    for i := 0 to |findings|
      invariant seen == IdSet(findings[..i])
      invariant unique == Unique(findings[..i], {})
    {
      var f := findings[i];
      assert findings[..i + 1] == findings[..i] + [f];
      UniqueAppend(findings[..i], f, {});
      assert {} + IdSet(findings[..i]) == seen;
      if f.findingId !in seen {
        seen := seen + {f.findingId};
        unique := unique + [f];
      }
    }
    assert findings[..|findings|] == findings;
  }

  lemma {:induction false} UniqueMembers(fs: seq<Finding>, seen: set<string>)
    ensures forall f | f in Unique(fs, seen) :: f in fs && f.findingId !in seen
  {
    if fs != [] {
      var id := fs[0].findingId;
      UniqueMembers(fs[1..], if id in seen then seen else seen + {id});
    }
  }

  lemma {:induction false} UniqueIds(fs: seq<Finding>, seen: set<string>)
    ensures IdSet(Unique(fs, seen)) == IdSet(fs) - seen
  {
    if fs != [] {
      var id := fs[0].findingId;
      assert fs == [fs[0]] + fs[1..];
      assert IdSet(fs) == {id} + IdSet(fs[1..]);
      if id in seen {
        UniqueIds(fs[1..], seen);
      } else {
        var t := Unique(fs[1..], seen + {id});
        UniqueIds(fs[1..], seen + {id});
        assert IdSet([fs[0]] + t) == {id} + IdSet(t);
      }
    }
  }

  // Deduplication keeps one finding of every id, takes it from the input, and repeats none.
  lemma {:induction false} UniqueFacts(fs: seq<Finding>, seen: set<string>)
    ensures DistinctIds(Unique(fs, seen))
    ensures IdSet(Unique(fs, seen)) == IdSet(fs) - seen
    ensures forall f | f in Unique(fs, seen) :: f in fs && f.findingId !in seen
  {
    UniqueMembers(fs, seen);
    UniqueIds(fs, seen);
    if fs != [] {
      var id := fs[0].findingId;
      if id in seen {
        UniqueFacts(fs[1..], seen);
      } else {
        UniqueFacts(fs[1..], seen + {id});
        var t := Unique(fs[1..], seen + {id});
        forall j | 0 <= j < |t| ensures t[j].findingId != id { assert t[j] in t; }
      }
    }
  }

  // ----- the verifier -----

  datatype Status = PassBaselineEquivalent | FailUnexpectedBypass | FailStaleBaseline | FailCountMismatch

  datatype Report = Report(observed: nat, approved: nat, matches: nat, unexpected: nat, stale: nat, status: Status)

  function StatusOf(observed: nat, approved: nat, unexpected: nat, stale: nat): Status {
    if unexpected > 0 then FailUnexpectedBypass
    else if stale > 0 then FailStaleBaseline
    else if observed != approved then FailCountMismatch
    else PassBaselineEquivalent
  }

  function Gate(baseline: seq<Finding>, current: seq<string>): Report {
    var b, c := IdSet(baseline), Elements(current);
    Report(|current|, |baseline|, |b * c|, |c - b|, |b - c|,
           StatusOf(|current|, |baseline|, |c - b|, |b - c|))
  }

  lemma OneMoreIn(done: set<string>, id: string, t: set<string>)
    requires id !in done
    ensures |(done + {id}) * t| == |done * t| + (if id in t then 1 else 0)
    ensures |(done + {id}) - t| == |done - t| + (if id in t then 0 else 1)
  {
    if id in t {
      assert (done + {id}) * t == done * t + {id} && (done + {id}) - t == done - t;
    } else {
      assert (done + {id}) - t == (done - t) + {id} && (done + {id}) * t == done * t;
    }
  }

  // How many elements of s pass the test, counted one at a time in no particular order.
  method CountIn(s: set<string>, t: set<string>) returns (inside: nat, outside: nat)
    ensures inside == |s * t| && outside == |s - t|
  {
    inside, outside := 0, 0;
    var rest := s;
    while rest != {}
      invariant rest <= s
      invariant inside == |(s - rest) * t| && outside == |(s - rest) - t|
      decreases |rest|
    {
      var id :| id in rest;
      ghost var done := s - rest;
      rest := rest - {id};
      assert s - rest == done + {id};
      OneMoreIn(done, id, t);
      if id in t {
        inside := inside + 1;
      } else {
        outside := outside + 1;
      }
    }
    assert s - rest == s;
  }

  method VerifyRatchet(baseline: seq<Finding>, current: seq<string>) returns (report: Report)
    ensures report == Gate(baseline, current)
  {
    var baselineIds: set<string> := {};
    for i := 0 to |baseline|
      invariant baselineIds == IdSet(baseline[..i])
    {
      assert baseline[..i + 1] == baseline[..i] + [baseline[i]];
      baselineIds := baselineIds + {baseline[i].findingId};
    }
    assert baseline[..|baseline|] == baseline;

    var currentIds: set<string> := {};
    for i := 0 to |current|
      invariant currentIds == Elements(current[..i])
    {
      assert current[..i + 1] == current[..i] + [current[i]];
      currentIds := currentIds + {current[i]};
    }
    assert current[..|current|] == current;

    var matches, stale := CountIn(baselineIds, currentIds);
    var _, unexpected := CountIn(currentIds, baselineIds);

    var status := PassBaselineEquivalent;
    if unexpected > 0 {
      status := FailUnexpectedBypass;
    } else if stale > 0 {
      status := FailStaleBaseline;
    } else if |current| != |baseline| {
      status := FailCountMismatch;
    }
    report := Report(|current|, |baseline|, matches, unexpected, stale, status);
  }

  // ----- what the counts and the status mean -----

  lemma {:induction false} ElementCount(ids: seq<string>)
    ensures |Elements(ids)| <= |ids|
    ensures |Elements(ids)| == |ids| <==> NoRepeats(ids)
  {
    if ids != [] {
      var tail := ids[1..];
      ElementCount(tail);
      assert ids == [ids[0]] + tail;
      if ids[0] in tail {
        assert Elements(ids) == Elements(tail);
        var k :| 0 <= k < |tail| && tail[k] == ids[0];
        assert ids[k + 1] == ids[0];
      } else {
        assert Elements(ids) == Elements(tail) + {ids[0]};
        assert NoRepeats(ids) ==> NoRepeats(tail);
      }
    }
  }

  lemma IdCount(fs: seq<Finding>)
    ensures IdSet(fs) == Elements(Ids(fs))
    ensures DistinctIds(fs) <==> |IdSet(fs)| == |fs|
  {
    var ids := Ids(fs);
    forall id ensures id in IdSet(fs) <==> id in Elements(ids) {
      if id in IdSet(fs) {
        var f :| f in fs && f.findingId == id;
        var i :| 0 <= i < |fs| && fs[i] == f;
        assert ids[i] == id;
      }
      if id in ids {
        var i :| 0 <= i < |fs| && ids[i] == id;
        assert fs[i] in fs;
      }
    }
    ElementCount(ids);
    assert NoRepeats(ids) <==> DistinctIds(fs) by {
      assert forall i | 0 <= i < |fs| :: ids[i] == fs[i].findingId;
    }
  }

  lemma SplitCount(s: set<string>, t: set<string>)
    ensures |s * t| + |s - t| == |s|
    ensures |s - t| == 0 <==> s <= t
  {
    assert s == s * t + (s - t);
    if |s - t| == 0 { assert s - t == {}; }
  }

  // The counts of a report add up on both sides, and each status arises exactly under its own
  // condition; a count mismatch can only come from a repeated observation.
  ghost predicate Exact(r: Report, baseline: seq<Finding>, current: seq<string>) {
    && r.observed == |current| && r.approved == |baseline|
    && r.matches + r.stale == r.approved
    && r.matches + r.unexpected == |Elements(current)|
    && (r.status == PassBaselineEquivalent <==> IdSet(baseline) == Elements(current) && NoRepeats(current))
    && (r.status == FailUnexpectedBypass <==> !(Elements(current) <= IdSet(baseline)))
    && (r.status == FailStaleBaseline <==> Elements(current) < IdSet(baseline))
    && (r.status == FailCountMismatch <==> IdSet(baseline) == Elements(current) && !NoRepeats(current))
  }

  lemma GateExactness(baseline: seq<Finding>, current: seq<string>)
    requires DistinctIds(baseline)
    ensures Exact(Gate(baseline, current), baseline, current)
  {
    var b, c := IdSet(baseline), Elements(current);
    IdCount(baseline);
    ElementCount(current);
    SplitCount(b, c);
    SplitCount(c, b);
    assert b * c == c * b;
  }

  // The same six facts, for any directory the loader accepts.
  lemma GateAgainstStore(files: Files, current: seq<string>, store: Store)
    requires LoadAll(files, store).Loaded?
    ensures var b := LoadAll(files, store).value; Exact(Gate(b, current), b, current)
  {
    LoadAllIff(files, store);
    KeySortStrict(Records(files, LoadManifest(files, store).value.shards, store));
    GateExactness(LoadAll(files, store).value, current);
  }

  // ----- end to end -----

  lemma UniqueScan(raw: seq<Finding>, scan: seq<Finding>, config: WriteConfig, store: Store)
    requires SortedScan(raw, scan)
    requires PlainShards(raw) && AllStorable(raw, store) && config.baselineCommit != "" && config.generator != ""
    ensures var u := Unique(scan, {}); PlainShards(u) && Loadable(u, config, store) && IdSet(u) == IdSet(raw)
  {
    UniqueFacts(scan, {});
    MultisetMembers(raw, scan);
    assert IdSet(scan) == IdSet(raw);
  }

  lemma StoreOfScan(files: Files, raw: seq<Finding>, scan: seq<Finding>, config: WriteConfig, store: Store)
    requires GoodStore(store)
    requires SortedScan(raw, scan)
    requires PlainShards(raw) && AllStorable(raw, store) && config.baselineCommit != "" && config.generator != ""
    ensures var loaded := LoadAll(Written(files, Unique(scan, {}), config, store), store);
            loaded.Loaded? && DistinctIds(loaded.value) && IdSet(loaded.value) == IdSet(raw)
  {
    var u := Unique(scan, {});
    UniqueScan(raw, scan, config, store);
    StoreRoundTrip(files, u, config, store);
    KeySortStrict(u);
    SameIds(StableSort(u, KeyLess), u);
  }

  lemma SameIds(fs: seq<Finding>, gs: seq<Finding>)
    requires multiset(fs) == multiset(gs)
    ensures IdSet(fs) == IdSet(gs)
  {
    MultisetMembers(fs, gs);
  }

  lemma ScanIds(raw: seq<Finding>, scan: seq<Finding>)
    requires SortedScan(raw, scan)
    ensures var ids := Ids(Unique(scan, {})); Elements(ids) == IdSet(raw) && NoRepeats(ids)
  {
    UniqueFacts(scan, {});
    SameIds(raw, scan);
    IdCount(Unique(scan, {}));
    assert forall i | 0 <= i < |Unique(scan, {})| :: Ids(Unique(scan, {}))[i] == Unique(scan, {})[i].findingId;
  }

  // Main result. Write the deduplicated findings of one scan as the baseline, over whatever the
  // directory held; load it; verify a second deduplicated scan against it. The outcome depends
  // on the two id sets alone: equal sets pass, a new id is an unexpected bypass, and ids that
  // went away with none added are a stale baseline. No count mismatch is possible.
  lemma RatchetEndToEnd(files: Files, raw: seq<Finding>, scan: seq<Finding>,
                        raw': seq<Finding>, scan': seq<Finding>, config: WriteConfig, store: Store)
    requires GoodStore(store)
    requires SortedScan(raw, scan) && SortedScan(raw', scan')
    requires PlainShards(raw) && AllStorable(raw, store) && config.baselineCommit != "" && config.generator != ""
    ensures var loaded := LoadAll(Written(files, Unique(scan, {}), config, store), store);
            && loaded.Loaded?
            && var status := Gate(loaded.value, Ids(Unique(scan', {}))).status;
               && (status == PassBaselineEquivalent <==> IdSet(raw') == IdSet(raw))
               && (status == FailUnexpectedBypass <==> !(IdSet(raw') <= IdSet(raw)))
               && (status == FailStaleBaseline <==> IdSet(raw') < IdSet(raw))
  {
    StoreOfScan(files, raw, scan, config, store);
    ScanIds(raw', scan');
    GateExactness(LoadAll(Written(files, Unique(scan, {}), config, store), store).value, Ids(Unique(scan', {})));
  }

  // The scan the baseline was made from passes, whichever way its ties were sorted either time.
  lemma OwnBaselinePasses(files: Files, raw: seq<Finding>, scan: seq<Finding>, scan': seq<Finding>,
                          config: WriteConfig, store: Store)
    requires GoodStore(store)
    requires SortedScan(raw, scan) && SortedScan(raw, scan')
    requires PlainShards(raw) && AllStorable(raw, store) && config.baselineCommit != "" && config.generator != ""
    ensures var loaded := LoadAll(Written(files, Unique(scan, {}), config, store), store);
            loaded.Loaded? && Gate(loaded.value, Ids(Unique(scan', {}))).status == PassBaselineEquivalent
  {
    RatchetEndToEnd(files, raw, scan, raw, scan', config, store);
  }
}

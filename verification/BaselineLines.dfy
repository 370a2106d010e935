/**
 The lines of a shard: how records become lines and lines records, for any encoding of records,
 and what a store needs of its shard and manifest texts.
 */
module BaselineLines {
  import opened Text
  import opened Sequences
  import opened BaselineModel

  datatype LoadError =
    | MissingManifest
    | MalformedManifest
    | InvalidManifest(field: string)
    | InvalidPath(shard: string)
    | MissingShard(shard: string)
    | LineTooLong(shard: string)
    | MalformedLine(shard: string, line: nat)
    | InvalidRecord(shard: string, line: nat, field: string)
    | DuplicateFinding(shard: string, findingId: string)
    | SurfaceWithoutFindings(surface: string)
    | UndeclaredSurface

  datatype Result<+T> = Loaded(value: T) | Failed(error: LoadError)

  // ----- lines -----

  // The scanner gives up on a line that fills its buffer.
  const MAX_LINE_BYTES := 1024 * 1024

  function ByteLength(s: string): nat {
    if s == "" then 0
    else
      (if s[0] < '\U{80}' then 1 else if s[0] < '\U{800}' then 2 else if s[0] < '\U{10000}' then 3 else 4)
      + ByteLength(s[1..])
  }

  // Lines as bufio.ScanLines cuts them: a final line break does not open another line.
  function ScanLines(content: string): seq<string> {
    var parts := Split(content, '\n');
    if parts[|parts| - 1] == "" then parts[..|parts| - 1] else parts
  }

  // The lines are those between the breaks, the last one with or without a break behind it.
  lemma ScanLinesExactly(content: string)
    ensures ScanLines(content + ['\n']) == Split(content, '\n')
    ensures content != "" && content[|content| - 1] != '\n' ==> ScanLines(content) == Split(content, '\n')
    ensures ScanLines("") == []
  {
    ScanBroken(content);
    ScanUnbroken(content);
    SplitFree("", '\n');
  }

  lemma ScanBroken(content: string)
    ensures ScanLines(content + ['\n']) == Split(content, '\n')
  {
    var parts := Split(content, '\n');
    JoinSplit(content, '\n');
    SplitPieces(content, '\n');
    JoinSplitAt(parts, [""], '\n');
    SplitJoin(parts + [""], '\n');
    assert Join(parts, '\n') + ['\n'] + "" == content + ['\n'];
    assert (parts + [""])[..|parts|] == parts;
  }

  lemma ScanUnbroken(content: string)
    ensures content != "" && content[|content| - 1] != '\n' ==> ScanLines(content) == Split(content, '\n')
  {
    var parts := Split(content, '\n');
    JoinSplit(content, '\n');
    if content != "" && parts[|parts| - 1] == "" { LastBreak(parts); }
  }

  lemma LastBreak(parts: seq<string>)
    requires parts != [] && parts[|parts| - 1] == "" && Join(parts, '\n') != ""
    ensures Join(parts, '\n')[|Join(parts, '\n')| - 1] == '\n'
  {
    var init := parts[..|parts| - 1];
    assert parts == init + [""];
    JoinSplitAt(init, [""], '\n');
  }

  datatype Line = Blank | Record(finding: Finding) | Bad(error: LoadError)

  function ReadLine(shard: string, text: string, lineNum: nat, codec: Codec): Line {
    if ByteLength(text) >= MAX_LINE_BYTES then Bad(LineTooLong(shard))
    else
      var line := Strip(text, GoSpace);
      if line == "" then Blank
      else
        match codec.readRecord(line)
        case None => Bad(MalformedLine(shard, lineNum))
        case Some(f) => if ValidFinding(f) then Record(f) else Bad(InvalidRecord(shard, lineNum, FindingFault(f)))
  }

  // A result behind records that were read before it.
  function Prepend(acc: seq<Finding>, r: Result<seq<Finding>>): Result<seq<Finding>> {
    match r
    case Failed(e) => Failed(e)
    case Loaded(rest) => Loaded(acc + rest)
  }

  function LoadLines(shard: string, lines: seq<string>, lineNum: nat, codec: Codec): Result<seq<Finding>>
    decreases |lines|
  {
    if lines == [] then Loaded([])
    else
      match ReadLine(shard, lines[0], lineNum, codec)
      case Bad(e) => Failed(e)
      case Blank => LoadLines(shard, lines[1..], lineNum + 1, codec)
      case Record(f) => Prepend([f], LoadLines(shard, lines[1..], lineNum + 1, codec))
  }

  // ----- which lines are accepted -----

  // A line below 1 MiB that is blank or, trimmed, a record with an id, a surface, a file and a line.
  ghost predicate GoodLine(text: string, codec: Codec) {
    && ByteLength(text) < 1048576
    && var record := codec.readRecord(Strip(text, GoSpace));
       || Strip(text, GoSpace) == ""
       || (record.Some? && var f := record.value;
           f.findingId != "" && f.surfaceId != "" && f.file != "" && f.line > 0)
  }

  // The records of good lines, in order.
  ghost function RecordsOf(lines: seq<string>, codec: Codec): seq<Finding> {
    if lines == [] then []
    else
      var t := Strip(lines[0], GoSpace);
      (if t != "" && codec.readRecord(t).Some? then [codec.readRecord(t).value] else []) + RecordsOf(lines[1..], codec)
  }

  // What is wrong with a line, under its number.
  ghost predicate ErrorOf(e: LoadError, shard: string, text: string, lineNum: nat, codec: Codec) {
    if ByteLength(text) >= 1048576 then e == LineTooLong(shard)
    else
      match codec.readRecord(Strip(text, GoSpace))
      case None => e == MalformedLine(shard, lineNum)
      case Some(f) =>
        e == InvalidRecord(shard, lineNum, if f.findingId == "" then "finding_id"
                                           else if f.surfaceId == "" then "surface_id"
                                           else if f.file == "" then "file" else "line")
  }

  ghost predicate FirstBad(e: LoadError, shard: string, lines: seq<string>, first: nat, codec: Codec, i: nat)
    requires i < |lines|
  {
    && !GoodLine(lines[i], codec) && (forall j | 0 <= j < i :: GoodLine(lines[j], codec))
    && ErrorOf(e, shard, lines[i], first + i, codec)
  }

  lemma ReadLineExactly(shard: string, text: string, lineNum: nat, codec: Codec)
    ensures var r := ReadLine(shard, text, lineNum, codec);
            && (r.Bad? <==> !GoodLine(text, codec))
            && (r.Bad? ==> ErrorOf(r.error, shard, text, lineNum, codec))
            && (r.Blank? ==> Strip(text, GoSpace) == "")
            && (r.Record? ==> Strip(text, GoSpace) != "" && codec.readRecord(Strip(text, GoSpace)) == Some(r.finding))
  {}

  // Main result. Whatever a shard holds: it loads exactly when every line is good, as the records of
  // its lines, and otherwise the first bad line is reported.
  lemma {:induction false} LoadLinesExactly(shard: string, lines: seq<string>, first: nat, codec: Codec)
    ensures var r := LoadLines(shard, lines, first, codec);
            && (r.Loaded? <==> forall i | 0 <= i < |lines| :: GoodLine(lines[i], codec))
            && (r.Loaded? ==> r.value == RecordsOf(lines, codec))
            && (r.Failed? ==> exists i | 0 <= i < |lines| :: FirstBad(r.error, shard, lines, first, codec, i))
    decreases |lines|
  {
    if lines != [] {
      var r := LoadLines(shard, lines, first, codec);
      ReadLineExactly(shard, lines[0], first, codec);
      if GoodLine(lines[0], codec) {
        LoadLinesExactly(shard, lines[1..], first + 1, codec);
        LinesBehind(lines, codec);
        if r.Failed? {
          var i :| 0 <= i < |lines[1..]| && FirstBad(r.error, shard, lines[1..], first + 1, codec, i);
          BadBehind(r.error, shard, lines, first, codec, i);
        }
      } else {
        assert FirstBad(r.error, shard, lines, first, codec, 0);
      }
    }
  }

  lemma LinesBehind(lines: seq<string>, codec: Codec)
    requires lines != [] && GoodLine(lines[0], codec)
    ensures (forall i | 0 <= i < |lines| :: GoodLine(lines[i], codec)) <==>
            forall i | 0 <= i < |lines[1..]| :: GoodLine(lines[1..][i], codec)
  {
    assert forall i | 0 <= i < |lines| :: i > 0 ==> lines[i] == lines[1..][i - 1];
    assert forall i | 0 <= i < |lines[1..]| :: lines[1..][i] == lines[i + 1];
  }

  lemma BadBehind(e: LoadError, shard: string, lines: seq<string>, first: nat, codec: Codec, i: nat)
    requires lines != [] && GoodLine(lines[0], codec) && i < |lines[1..]|
    requires FirstBad(e, shard, lines[1..], first + 1, codec, i)
    ensures FirstBad(e, shard, lines, first, codec, i + 1)
  {
    assert forall j | 0 <= j < |lines| :: j > 0 ==> lines[j] == lines[1..][j - 1];
  }

  // Each line followed by a line break.
  function LinesText(lines: seq<string>): string {
    if lines == [] then "" else lines[0] + ['\n'] + LinesText(lines[1..])
  }

  lemma {:induction false} LinesTextAppend(lines: seq<string>, line: string)
    ensures LinesText(lines + [line]) == LinesText(lines) + line + ['\n']
  {
    if lines == [] {
      assert [] + [line] == [line];
    } else {
      assert (lines + [line])[1..] == lines[1..] + [line];
      LinesTextAppend(lines[1..], line);
    }
  }

  lemma LinesTextNext(lines: seq<string>, i: nat)
    requires i < |lines|
    ensures LinesText(lines[..i + 1]) == LinesText(lines[..i]) + lines[i] + ['\n']
  {
    assert lines[..i + 1] == lines[..i] + [lines[i]];
    LinesTextAppend(lines[..i], lines[i]);
  }

  function FindingLines(fs: seq<Finding>, codec: Codec): seq<string> {
    Map(fs, codec.record)
  }

  function ShardText(fs: seq<Finding>, codec: Codec): string { LinesText(FindingLines(fs, codec)) }

  function ShardTexts(codec: Codec): seq<Finding> -> string { (fs: seq<Finding>) => ShardText(fs, codec) }

  lemma ShardTextNext(fs: seq<Finding>, i: nat, codec: Codec)
    requires i < |fs|
    ensures ShardText(fs[..i + 1], codec) == ShardText(fs[..i], codec) + codec.record(fs[i]) + ['\n']
  {
    LinesTextNext(FindingLines(fs, codec), i);
    MapTake(fs, codec.record, i);
    MapTake(fs, codec.record, i + 1);
  }

  // ----- reading a shard back -----

  predicate ShortLine(f: Finding, codec: Codec) { ByteLength(codec.record(f)) < MAX_LINE_BYTES }

  predicate Storable(f: Finding, codec: Codec) { ValidFinding(f) && ShortLine(f, codec) }

  function StorableIn(codec: Codec): Finding -> bool { (f: Finding) => Storable(f, codec) }

  ghost predicate ReadsBack(r: Result<seq<Finding>>, fs: seq<Finding>, storable: Finding -> bool) {
    (r.Loaded? <==> forall f | f in fs :: storable(f)) && (r.Loaded? ==> r.value == fs)
  }

  lemma ScanLinesCons(line: string, rest: string)
    requires '\n' !in line
    ensures ScanLines(line + ['\n'] + rest) == [line] + ScanLines(rest)
  {
    SplitCons(line, '\n', rest);
    LastOfCons(line, Split(rest, '\n'));
  }

  lemma {:induction false} ScanLinesText(lines: seq<string>)
    requires FreeOf(lines, '\n')
    ensures ScanLines(LinesText(lines)) == lines
  {
    if lines == [] {
      assert Split("", '\n') == [""];
    } else {
      ScanLinesText(lines[1..]);
      ScanLinesCons(lines[0], LinesText(lines[1..]));
      assert lines == [lines[0]] + lines[1..];
    }
  }

  ghost predicate LineOf(line: string, f: Finding, codec: Codec) {
    OneLine(line) && codec.readRecord(line) == Some(f)
  }

  lemma RecordLine(f: Finding, codec: Codec)
    requires GoodCodec(codec)
    ensures LineOf(codec.record(f), f, codec)
  {
    assert OneLine(codec.record(f));
  }

  lemma LoadLinesStep(name: string, lines: seq<string>, lineNum: nat, f: Finding, codec: Codec)
    requires lines != [] && LineOf(lines[0], f, codec)
    ensures var r := LoadLines(name, lines, lineNum, codec);
            var t := LoadLines(name, lines[1..], lineNum + 1, codec);
            && (r.Loaded? <==> ByteLength(lines[0]) < MAX_LINE_BYTES && ValidFinding(f) && t.Loaded?)
            && (r.Loaded? ==> r.value == [f] + t.value)
  {}

  lemma ReadsBackCons(r: Result<seq<Finding>>, t: Result<seq<Finding>>, fs: seq<Finding>, storable: Finding -> bool)
    requires fs != [] && ReadsBack(t, fs[1..], storable)
    requires (r.Loaded? <==> storable(fs[0]) && t.Loaded?) && (r.Loaded? ==> r.value == [fs[0]] + t.value)
    ensures ReadsBack(r, fs, storable)
  {
    AllCons(fs, storable);
    assert fs == [fs[0]] + fs[1..];
  }

  lemma {:induction false} LinesRoundTrip(name: string, fs: seq<Finding>, lineNum: nat, codec: Codec)
    requires GoodCodec(codec)
    ensures ReadsBack(LoadLines(name, FindingLines(fs, codec), lineNum, codec), fs, StorableIn(codec))
    decreases |fs|
  {
    var lines := FindingLines(fs, codec);
    if fs != [] {
      LinesRoundTrip(name, fs[1..], lineNum + 1, codec);
      assert lines[1..] == FindingLines(fs[1..], codec);
      RecordLine(fs[0], codec);
      LoadLinesStep(name, lines, lineNum, fs[0], codec);
      ReadsBackCons(LoadLines(name, lines, lineNum, codec), LoadLines(name, lines[1..], lineNum + 1, codec),
                    fs, StorableIn(codec));
    }
  }

  lemma FindingLinesFree(fs: seq<Finding>, codec: Codec)
    requires GoodCodec(codec)
    ensures FreeOf(FindingLines(fs, codec), '\n')
  {
    forall i | 0 <= i < |fs| ensures '\n' !in FindingLines(fs, codec)[i] { RecordLine(fs[i], codec); }
  }

  // A written shard loads exactly when each record is valid and fits the scanner, and then
  // gives back the records in order.
  lemma ShardRoundTrip(name: string, fs: seq<Finding>, codec: Codec)
    requires GoodCodec(codec)
    ensures ReadsBack(LoadLines(name, ScanLines(ShardText(fs, codec)), 1, codec), fs, StorableIn(codec))
  {
    var lines := FindingLines(fs, codec);
    FindingLinesFree(fs, codec);
    ScanLinesText(lines);
    LinesRoundTrip(name, fs, 1, codec);
  }

  // Different record lists are written differently.
  lemma ShardTextInjective(fs: seq<Finding>, gs: seq<Finding>, codec: Codec)
    requires GoodCodec(codec)
    requires ShardText(fs, codec) == ShardText(gs, codec)
    ensures fs == gs
  {
    FindingLinesFree(fs, codec);
    FindingLinesFree(gs, codec);
    ScanLinesText(FindingLines(fs, codec));
    ScanLinesText(FindingLines(gs, codec));
    assert |fs| == |FindingLines(fs, codec)| == |FindingLines(gs, codec)| == |gs|;
    forall i | 0 <= i < |fs| ensures fs[i] == gs[i] {
      assert FindingLines(fs, codec)[i] == FindingLines(gs, codec)[i];
      RecordLine(fs[i], codec);
      RecordLine(gs[i], codec);
    }
  }

  lemma {:induction false} LinesValid(shard: string, lines: seq<string>, lineNum: nat, codec: Codec)
    requires LoadLines(shard, lines, lineNum, codec).Loaded?
    ensures forall f | f in LoadLines(shard, lines, lineNum, codec).value :: ValidFinding(f)
    decreases |lines|
  {
    if lines != [] {
      LinesValid(shard, lines[1..], lineNum + 1, codec);
    }
  }

  // ----- a store's texts -----

  // How whole shards and manifests are written and read. storable tells which findings the
  // reader takes back.
  datatype Store = Store(
    shard: seq<Finding> -> string, readShard: (string, string) -> Result<seq<Finding>>,
    storable: Finding -> bool,
    manifest: Manifest -> string, readManifest: string -> Option<Manifest>)

  ghost predicate AllValid(fs: seq<Finding>) { forall f | f in fs :: ValidFinding(f) }

  ghost predicate GoodStore(store: Store) {
    && (forall name, fs :: ReadsBack(store.readShard(name, store.shard(fs)), fs, store.storable))
    && (forall fs, gs | store.shard(fs) == store.shard(gs) :: fs == gs)
    && (forall f | store.storable(f) :: ValidFinding(f))
    && (forall name, text | store.readShard(name, text).Loaded? :: AllValid(store.readShard(name, text).value))
    && (forall m :: store.readManifest(store.manifest(m)) == Some(m))
  }

  function ShardReader(codec: Codec): (string, string) -> Result<seq<Finding>> {
    (name, text) => LoadLines(name, ScanLines(text), 1, codec)
  }

  // Shards of lines, with the manifest as given.
  function LineStore(codec: Codec, manifest: Manifest -> string, readManifest: string -> Option<Manifest>): Store {
    Store(ShardTexts(codec), ShardReader(codec), StorableIn(codec), manifest, readManifest)
  }

  // What the programs read and write.
  const JSON_STORE := LineStore(JSON_RECORDS, ManifestText, ParseManifest)

  lemma LineStoreGood(codec: Codec, manifest: Manifest -> string, readManifest: string -> Option<Manifest>)
    requires GoodCodec(codec) && forall m :: readManifest(manifest(m)) == Some(m)
    ensures GoodStore(LineStore(codec, manifest, readManifest))
  {
    var store := LineStore(codec, manifest, readManifest);
    forall name, fs ensures ReadsBack(store.readShard(name, store.shard(fs)), fs, store.storable) {
      ShardRoundTrip(name, fs, codec);
    }
    forall fs, gs | store.shard(fs) == store.shard(gs) ensures fs == gs {
      ShardTextInjective(fs, gs, codec);
    }
    forall name, text | store.readShard(name, text).Loaded? ensures AllValid(store.readShard(name, text).value) {
      LinesValid(name, ScanLines(text), 1, codec);
    }
  }

  lemma JsonStoreGood()
    ensures GoodStore(JSON_STORE)
  {
    JsonRecordsGood();
    forall m ensures ParseManifest(ManifestText(m)) == Some(m) {
      ManifestRoundTrip(m);
    }
    LineStoreGood(JSON_RECORDS, ManifestText, ParseManifest);
  }
}

/** Findings and manifests: their JSON form, their validation and the orders they are kept in. */
module BaselineModel {
  import opened Text
  import opened Json
  import opened Sorting

  const SCHEMA_VERSION := "ratchet-sharded-v1"

  predicate Int64(n: int) { -0x8000_0000_0000_0000 <= n < 0x8000_0000_0000_0000 }

  type GoInt = n: int | Int64(n)

  datatype Finding = Finding(
    findingId: string, surfaceId: string, file: string, line: GoInt, operation: string,
    destinationExpression: string, enclosingSymbol: string, astFingerprint: string,
    justification: string, owner: string, successorAct: string)

  datatype Manifest = Manifest(
    schemaVersion: string, baselineCommit: string, generator: string, generatedAt: string,
    shards: seq<string>, surfaceIds: seq<string>)

  const ZERO_FINDING := Finding("", "", "", 0, "", "", "", "", "", "", "")
  const ZERO_MANIFEST := Manifest("", "", "", "", [], [])

  // ----- field names -----

  const FINDING_FIELDS: seq<string> :=
    ["finding_id", "surface_id", "file", "line", "operation", "destination_expression",
     "enclosing_symbol", "ast_fingerprint", "justification", "owner", "successor_act"]

  const MANIFEST_FIELDS: seq<string> :=
    ["schema_version", "baseline_commit", "generator", "generated_at", "shards", "surface_ids"]

  // encoding/json matches keys up to Unicode simple folding; these are the characters that
  // fold to an ASCII letter.
  function FoldChar(c: char): char {
    if 'a' <= c <= 'z' then (c as int - 32) as char
    else if c == '\U{212a}' then 'K'
    else if c == '\U{17f}' then 'S'
    else c
  }

  predicate SameName(a: string, b: string) {
    |a| == |b| && forall i | 0 <= i < |a| :: FoldChar(a[i]) == FoldChar(b[i])
  }

  function FieldIndex(key: string, names: seq<string>): (r: Option<nat>)
    ensures r.Some? ==> r.value < |names| && SameName(key, names[r.value])
  {
    if names == [] then None
    else if SameName(key, names[0]) then Some(0)
    else
      match FieldIndex(key, names[1..])
      case None => None
      case Some(i) => Some(i + 1)
  }

  ghost predicate DistinctNames(names: seq<string>) {
    forall i, j | 0 <= i < j < |names| :: !SameName(names[j], names[i])
  }

  lemma {:induction false} FieldIndexOf(names: seq<string>, i: nat)
    requires DistinctNames(names) && i < |names|
    ensures FieldIndex(names[i], names) == Some(i)
  {
    if i > 0 {
      assert !SameName(names[i], names[0]);
      FieldIndexOf(names[1..], i - 1);
    }
  }

  // Length and first letter tell the field names apart.
  lemma FieldNamesDistinct()
    ensures DistinctNames(FINDING_FIELDS) && DistinctNames(MANIFEST_FIELDS)
  {
    forall i, j | 0 <= i < j < |FINDING_FIELDS| ensures !SameName(FINDING_FIELDS[j], FINDING_FIELDS[i]) {
      var a, b := FINDING_FIELDS[j], FINDING_FIELDS[i];
      assert |a| != |b| || FoldChar(a[0]) != FoldChar(b[0]);
    }
    forall i, j | 0 <= i < j < |MANIFEST_FIELDS| ensures !SameName(MANIFEST_FIELDS[j], MANIFEST_FIELDS[i]) {
      assert |MANIFEST_FIELDS[j]| != |MANIFEST_FIELDS[i]|;
    }
  }

  // ----- findings as JSON lines -----

  function FindingValue(f: Finding, i: nat): (v: Value)
    requires i < 11
    ensures !v.Arr?
  {
    match i
    case 0 => Str(f.findingId)
    case 1 => Str(f.surfaceId)
    case 2 => Str(f.file)
    case 3 => Num(f.line)
    case 4 => Str(f.operation)
    case 5 => Str(f.destinationExpression)
    case 6 => Str(f.enclosingSymbol)
    case 7 => Str(f.astFingerprint)
    case 8 => Str(f.justification)
    case 9 => Str(f.owner)
    case _ => Str(f.successorAct)
  }

  function FindingMembers(f: Finding): seq<Member> {
    seq(11, i requires 0 <= i < 11 => (FINDING_FIELDS[i], FindingValue(f, i)))
  }

  // The names of the members, in the order in which they are written.
  lemma FindingNamed(f: Finding)
    ensures FindingMembers(f) ==
            [("finding_id", Str(f.findingId)), ("surface_id", Str(f.surfaceId)), ("file", Str(f.file)),
             ("line", Num(f.line)), ("operation", Str(f.operation)),
             ("destination_expression", Str(f.destinationExpression)), ("enclosing_symbol", Str(f.enclosingSymbol)),
             ("ast_fingerprint", Str(f.astFingerprint)), ("justification", Str(f.justification)),
             ("owner", Str(f.owner)), ("successor_act", Str(f.successorAct))]
  {}

  function FindingText(f: Finding): string {
    Marshal(FindingMembers(f))
  }

  // A null leaves the field as it was; a value of the wrong kind is an error.
  function SetFinding(f: Finding, i: nat, v: Value): Option<Finding>
    requires i < 11
  {
    if v.Null? then Some(f)
    else if i == 3 then
      if v.Num? && Int64(v.number) then Some(f.(line := v.number)) else None
    else if !v.Str? then None
    else
      match i
      case 0 => Some(f.(findingId := v.text))
      case 1 => Some(f.(surfaceId := v.text))
      case 2 => Some(f.(file := v.text))
      case 4 => Some(f.(operation := v.text))
      case 5 => Some(f.(destinationExpression := v.text))
      case 6 => Some(f.(enclosingSymbol := v.text))
      case 7 => Some(f.(astFingerprint := v.text))
      case 8 => Some(f.(justification := v.text))
      case 9 => Some(f.(owner := v.text))
      case _ => Some(f.(successorAct := v.text))
  }

  function FillFinding(f: Finding, ms: seq<Member>): Option<Finding>
    decreases |ms|
  {
    if ms == [] then Some(f)
    else
      match FieldIndex(ms[0].0, FINDING_FIELDS)
      case None => None
      case Some(i) =>
        match SetFinding(f, i, ms[0].1)
        case None => None
        case Some(g) => FillFinding(g, ms[1..])
  }

  // Decoding with unknown fields disallowed; a null document leaves the zero value.
  function ParseFinding(s: string): Option<Finding> {
    if "null" <= SkipSpace(s) then Some(ZERO_FINDING)
    else
      match ParseObject(s)
      case Fail => None
      case Ok(ms, _) => FillFinding(ZERO_FINDING, ms)
  }

  // A value a field takes: null always, a number of 64 bits for the line, a string for the others.
  predicate Settable(i: nat, v: Value) {
    v.Null? || (if i == 3 then v.Num? && Int64(v.number) else v.Str?)
  }

  // What the last member for field i sets it to, nulls apart.
  ghost function LastValue(ms: seq<Member>, i: nat, before: Value): Value
    decreases |ms|
  {
    if ms == [] then before
    else
      var here := FieldIndex(ms[0].0, FINDING_FIELDS) == Some(i) && !ms[0].1.Null?;
      LastValue(ms[1..], i, if here then ms[0].1 else before)
  }

  lemma SetFindingExactly(f: Finding, k: nat, v: Value)
    requires k < 11
    ensures SetFinding(f, k, v).Some? <==> Settable(k, v)
    ensures SetFinding(f, k, v).Some? ==>
              forall i | 0 <= i < 11 ::
                FindingValue(SetFinding(f, k, v).value, i) == if i == k && !v.Null? then v else FindingValue(f, i)
  {}

  // Main result. Members in any order, with repetitions and in any letter case: they are taken exactly
  // when each has the name of a field and a value it takes, and each field is then the last value set.
  lemma {:induction false} FillFindingExactly(f: Finding, ms: seq<Member>)
    ensures FillFinding(f, ms).Some? <==>
            forall k | 0 <= k < |ms| ::
              FieldIndex(ms[k].0, FINDING_FIELDS).Some?
              && Settable(FieldIndex(ms[k].0, FINDING_FIELDS).value, ms[k].1)
    ensures FillFinding(f, ms).Some? ==>
              forall i | 0 <= i < 11 ::
                FindingValue(FillFinding(f, ms).value, i) == LastValue(ms, i, FindingValue(f, i))
    decreases |ms|
  {
    if ms != [] {
      var i := FieldIndex(ms[0].0, FINDING_FIELDS);
      assert forall k | 0 <= k < |ms| :: k > 0 ==> ms[k] == ms[1..][k - 1];
      assert forall k | 0 <= k < |ms[1..]| :: ms[1..][k] == ms[k + 1];
      if i.Some? {
        SetFindingExactly(f, i.value, ms[0].1);
        var g := SetFinding(f, i.value, ms[0].1);
        if g.Some? { FillFindingExactly(g.value, ms[1..]); }
      }
    }
  }

  // The first k fields taken from f.
  ghost function PartialFinding(f: Finding, k: nat): Finding {
    Finding(
      if k > 0 then f.findingId else "", if k > 1 then f.surfaceId else "", if k > 2 then f.file else "",
      if k > 3 then f.line else 0, if k > 4 then f.operation else "",
      if k > 5 then f.destinationExpression else "", if k > 6 then f.enclosingSymbol else "",
      if k > 7 then f.astFingerprint else "", if k > 8 then f.justification else "",
      if k > 9 then f.owner else "", if k > 10 then f.successorAct else "")
  }

  lemma SetNextField(f: Finding, k: nat)
    requires k < 11
    ensures SetFinding(PartialFinding(f, k), k, FindingValue(f, k)) == Some(PartialFinding(f, k + 1))
  {}

  lemma {:induction false} FillFindingFrom(f: Finding, k: nat)
    requires k <= 11
    ensures FillFinding(PartialFinding(f, k), FindingMembers(f)[k..]) == Some(f)
    decreases 11 - k
  {
    var ms := FindingMembers(f);
    if k < 11 {
      FieldNamesDistinct();
      FieldIndexOf(FINDING_FIELDS, k);
      SetNextField(f, k);
      FillFindingFrom(f, k + 1);
      assert ms[k..][0] == ms[k] && ms[k..][1..] == ms[k + 1..];
      assert ms[k] == (FINDING_FIELDS[k], FindingValue(f, k));
    }
  }

  // A finding survives its JSON line.
  lemma FindingRoundTrip(f: Finding)
    ensures ParseFinding(FindingText(f)) == Some(f)
  {
    MarshalRoundTrip(FindingMembers(f));
    FillFindingFrom(f, 0);
    assert FindingMembers(f)[0..] == FindingMembers(f);
    assert PartialFinding(f, 0) == ZERO_FINDING;
  }

  // The line has no line break inside and no blank at either end.
  lemma FindingOneLine(f: Finding)
    ensures NoControls(FindingText(f))
    ensures FindingText(f) != "" && FindingText(f)[0] == '{' && LastIs(FindingText(f), '}')
  {
    MarshalOneLine(FindingMembers(f));
  }

  // ----- the manifest as an indented document -----

  // A slice that was never appended to is nil, which Go writes as null.
  function StringsValue(ss: seq<string>): (v: Value)
    ensures Flat(v)
  {
    if ss == [] then Null else Arr(seq(|ss|, i requires 0 <= i < |ss| => Str(ss[i])))
  }

  function ManifestValue(m: Manifest, i: nat): (v: Value)
    requires i < 6
    ensures Flat(v)
  {
    match i
    case 0 => Str(m.schemaVersion)
    case 1 => Str(m.baselineCommit)
    case 2 => Str(m.generator)
    case 3 => Str(m.generatedAt)
    case 4 => StringsValue(m.shards)
    case _ => StringsValue(m.surfaceIds)
  }

  function ManifestMembers(m: Manifest): seq<Member> {
    seq(6, i requires 0 <= i < 6 => (MANIFEST_FIELDS[i], ManifestValue(m, i)))
  }

  lemma ManifestNamed(m: Manifest)
    ensures ManifestMembers(m) ==
            [("schema_version", Str(m.schemaVersion)), ("baseline_commit", Str(m.baselineCommit)),
             ("generator", Str(m.generator)), ("generated_at", Str(m.generatedAt)),
             ("shards", StringsValue(m.shards)), ("surface_ids", StringsValue(m.surfaceIds))]
  {}

  function ManifestText(m: Manifest): string {
    MarshalIndent(ManifestMembers(m))
  }

  function StringsOf(items: seq<Value>): Option<seq<string>> {
    if items == [] then Some([])
    else if !items[0].Str? && !items[0].Null? then None
    else
      match StringsOf(items[1..])
      case None => None
      case Some(ss) => Some([if items[0].Null? then "" else items[0].text] + ss)
  }

  function SetManifest(m: Manifest, i: nat, v: Value): Option<Manifest>
    requires i < 6
  {
    if i >= 4 then
      match v
      case Null => Some(if i == 4 then m.(shards := []) else m.(surfaceIds := []))
      case Arr(items) =>
        (match StringsOf(items)
         case None => None
         case Some(ss) => Some(if i == 4 then m.(shards := ss) else m.(surfaceIds := ss)))
      case _ => None
    else if v.Null? then Some(m)
    else if !v.Str? then None
    else
      match i
      case 0 => Some(m.(schemaVersion := v.text))
      case 1 => Some(m.(baselineCommit := v.text))
      case 2 => Some(m.(generator := v.text))
      case _ => Some(m.(generatedAt := v.text))
  }

  function FillManifest(m: Manifest, ms: seq<Member>): Option<Manifest>
    decreases |ms|
  {
    if ms == [] then Some(m)
    else
      match FieldIndex(ms[0].0, MANIFEST_FIELDS)
      case None => None
      case Some(i) =>
        match SetManifest(m, i, ms[0].1)
        case None => None
        case Some(g) => FillManifest(g, ms[1..])
  }

  function ParseManifest(s: string): Option<Manifest> {
    if "null" <= SkipSpace(s) then Some(ZERO_MANIFEST)
    else
      match ParseObject(s)
      case Fail => None
      case Ok(ms, _) => FillManifest(ZERO_MANIFEST, ms)
  }

  ghost function PartialManifest(m: Manifest, k: nat): Manifest {
    Manifest(
      if k > 0 then m.schemaVersion else "", if k > 1 then m.baselineCommit else "",
      if k > 2 then m.generator else "", if k > 3 then m.generatedAt else "",
      if k > 4 then m.shards else [], if k > 5 then m.surfaceIds else [])
  }

  lemma {:induction false} StringsRoundTrip(ss: seq<string>, items: seq<Value>)
    requires |items| == |ss| && forall i | 0 <= i < |ss| :: items[i] == Str(ss[i])
    ensures StringsOf(items) == Some(ss)
  {
    if ss != [] {
      StringsRoundTrip(ss[1..], items[1..]);
      assert ss == [ss[0]] + ss[1..];
    }
  }

  lemma {:induction false} FillManifestFrom(m: Manifest, k: nat)
    requires k <= 6
    ensures FillManifest(PartialManifest(m, k), ManifestMembers(m)[k..]) == Some(m)
    decreases 6 - k
  {
    if k < 6 {
      FieldNamesDistinct();
      FieldIndexOf(MANIFEST_FIELDS, k);
      var v := ManifestValue(m, k);
      assert ManifestMembers(m)[k..][0] == (MANIFEST_FIELDS[k], v);
      if v.Arr? {
        StringsRoundTrip(if k == 4 then m.shards else m.surfaceIds, v.items);
      }
      assert SetManifest(PartialManifest(m, k), k, v) == Some(PartialManifest(m, k + 1));
      FillManifestFrom(m, k + 1);
      assert ManifestMembers(m)[k..][1..] == ManifestMembers(m)[k + 1..];
    }
  }

  lemma FillManifestAll(m: Manifest)
    ensures FillManifest(ZERO_MANIFEST, ManifestMembers(m)) == Some(m)
  {
    FillManifestFrom(m, 0);
    assert ManifestMembers(m)[0..] == ManifestMembers(m);
    assert PartialManifest(m, 0) == ZERO_MANIFEST;
  }

  // A manifest survives its indented document, empty lists included.
  lemma ManifestRoundTrip(m: Manifest)
    ensures ParseManifest(ManifestText(m)) == Some(m)
  {
    FillManifestAll(m);
    MarshalRoundTrip(ManifestMembers(m));
  }

  // ----- the encoding of records -----

  // How records are written and read. What the store guarantees is stated for every good
  // encoding; the programs use JSON.
  datatype Codec = Codec(record: Finding -> string, readRecord: string -> Option<Finding>)

  const JSON_RECORDS := Codec(FindingText, ParseFinding)

  // A text that splitting into lines and trimming leaves alone.
  predicate OneLine(line: string) { '\n' !in line && line != "" && Strip(line, GoSpace) == line }

  ghost predicate GoodCodec(codec: Codec) {
    forall f :: OneLine(codec.record(f)) && codec.readRecord(codec.record(f)) == Some(f)
  }

  lemma TightLine(line: string)
    requires NoControls(line) && line != "" && line[0] == '{' && LastIs(line, '}')
    ensures OneLine(line)
  {
    StripTight(line, GoSpace);
  }

  lemma JsonRecordsGood()
    ensures GoodCodec(JSON_RECORDS)
  {
    forall f ensures OneLine(JSON_RECORDS.record(f)) && JSON_RECORDS.readRecord(JSON_RECORDS.record(f)) == Some(f) {
      FindingOneLine(f);
      TightLine(FindingText(f));
      FindingRoundTrip(f);
    }
  }

  // ----- validation -----

  datatype ValidationError = ValidationError(field: string, msg: string)

  predicate ValidFinding(f: Finding) {
    f.findingId != "" && f.surfaceId != "" && f.file != "" && f.line > 0
  }

  predicate DistinctNonEmpty(ss: seq<string>) {
    && (forall i | 0 <= i < |ss| :: ss[i] != "")
    && (forall i, j | 0 <= i < j < |ss| :: ss[i] != ss[j])
  }

  predicate ValidManifest(m: Manifest) {
    && m.schemaVersion == SCHEMA_VERSION
    && m.baselineCommit != ""
    && m.generator != ""
    && (m.shards == [] <==> m.surfaceIds == [])
    && DistinctNonEmpty(m.shards)
    && DistinctNonEmpty(m.surfaceIds)
  }

  // The field the first validation error is about; the loader reports that one.
  function FindingFault(f: Finding): string
    requires !ValidFinding(f)
  {
    if f.findingId == "" then "finding_id"
    else if f.surfaceId == "" then "surface_id"
    else if f.file == "" then "file"
    else "line"
  }

  function ManifestFault(m: Manifest): string
    requires !ValidManifest(m)
  {
    if m.schemaVersion != SCHEMA_VERSION then "schema_version"
    else if m.baselineCommit == "" then "baseline_commit"
    else if m.generator == "" then "generator"
    else if !(m.shards == [] <==> m.surfaceIds == []) then "shards/surface_ids"
    else if !DistinctNonEmpty(m.shards) then "shards"
    else "surface_ids"
  }

  method ValidateFinding(f: Finding) returns (errs: seq<ValidationError>)
    ensures errs == [] <==> ValidFinding(f)
    ensures errs != [] ==> errs[0].field == FindingFault(f)
  {
    errs := [];
    if f.findingId == "" {
      errs := errs + [ValidationError("finding_id", "required")];
    }
    if f.surfaceId == "" {
      errs := errs + [ValidationError("surface_id", "required")];
    }
    if f.file == "" {
      errs := errs + [ValidationError("file", "required")];
    }
    if f.line <= 0 {
      errs := errs + [ValidationError("line", "must be positive")];
    }
  }

  // The two list checks of Manifest.Validate: empty names and repetitions.
  method CheckNames(ss: seq<string>, field: string, emptyMsg: string, duplicateMsg: string)
    returns (errs: seq<ValidationError>)
    ensures errs == [] <==> DistinctNonEmpty(ss)
    ensures forall e | e in errs :: e.field == field
  {
    errs := [];
    var seen: set<string> := {};
    for i := 0 to |ss|
      invariant seen == set k | 0 <= k < i && ss[k] != "" :: ss[k]
      invariant errs == [] <==> DistinctNonEmpty(ss[..i])
      invariant forall e | e in errs :: e.field == field
    {
      assert ss[..i + 1] == ss[..i] + [ss[i]];
      assert ss[i] in seen ==> exists k :: 0 <= k < i && ss[k] == ss[i];
      if ss[i] == "" {
        assert ss[..i + 1][i] == "";
        errs := errs + [ValidationError(field, emptyMsg)];
        continue;
      }
      if ss[i] in seen {
        var k :| 0 <= k < i && ss[k] == ss[i];
        assert ss[..i + 1][k] == ss[..i + 1][i];
        errs := errs + [ValidationError(field, duplicateMsg + ss[i])];
      } else {
        assert DistinctNonEmpty(ss[..i]) ==> DistinctNonEmpty(ss[..i + 1]);
        assert DistinctNonEmpty(ss[..i + 1]) ==> DistinctNonEmpty(ss[..i]) by {
          assert forall k | 0 <= k < i :: ss[..i][k] == ss[..i + 1][k];
        }
      }
      seen := seen + {ss[i]};
    }
    assert ss[..|ss|] == ss;
  }

  method ValidateManifest(m: Manifest) returns (errs: seq<ValidationError>)
    ensures errs == [] <==> ValidManifest(m)
    ensures errs != [] ==> errs[0].field == ManifestFault(m)
  {
    errs := [];
    if m.schemaVersion == "" {
      errs := errs + [ValidationError("schema_version", "required")];
    }
    if m.schemaVersion != SCHEMA_VERSION {
      errs := errs + [ValidationError("schema_version", "must be " + SCHEMA_VERSION)];
    }
    if m.baselineCommit == "" {
      errs := errs + [ValidationError("baseline_commit", "required")];
    }
    if m.generator == "" {
      errs := errs + [ValidationError("generator", "required")];
    }
    if (|m.shards| == 0) != (|m.surfaceIds| == 0) {
      errs := errs + [ValidationError("shards/surface_ids", "must either both be empty or both be non-empty")];
    }
    var shardErrs := CheckNames(m.shards, "shards", "shard name cannot be empty", "duplicate shard: ");
    var surfaceErrs := CheckNames(m.surfaceIds, "surface_ids", "surface_id cannot be empty", "duplicate surface_id: ");
    errs := errs + shardErrs + surfaceErrs;
  }

  // ----- orders -----

  // The writer's order: surface, file, line; findings that agree on all three are tied.
  predicate GroupLess(a: Finding, b: Finding) {
    if a.surfaceId != b.surfaceId then StringLess(a.surfaceId, b.surfaceId)
    else if a.file != b.file then StringLess(a.file, b.file)
    else a.line < b.line
  }

  // The loader's order: ties are broken by finding id.
  predicate KeyLess(a: Finding, b: Finding) {
    if a.surfaceId != b.surfaceId then StringLess(a.surfaceId, b.surfaceId)
    else if a.file != b.file then StringLess(a.file, b.file)
    else if a.line != b.line then a.line < b.line
    else StringLess(a.findingId, b.findingId)
  }

  predicate Tied(a: Finding, b: Finding) {
    a.surfaceId == b.surfaceId && a.file == b.file && a.line == b.line
  }

  ghost predicate DistinctIds(fs: seq<Finding>) {
    forall i, j | 0 <= i < j < |fs| :: fs[i].findingId != fs[j].findingId
  }

  lemma FindingOrders()
    ensures StrictWeakOrder(GroupLess) && StrictWeakOrder(KeyLess)
    ensures forall a, b :: KeyLess(a, b) || KeyLess(b, a) || (Tied(a, b) && a.findingId == b.findingId)
    ensures forall a, b :: GroupLess(a, b) ==> KeyLess(a, b)
    ensures forall a, b :: KeyLess(a, b) ==> GroupLess(a, b) || (Tied(a, b) && StringLess(a.findingId, b.findingId))
  {
    StringLessTotal();
  }

  // The first of surface, file and line in which they differ decides.
  ghost predicate BelowInGroup(a: Finding, b: Finding) {
    || Below(a.surfaceId, b.surfaceId)
    || (a.surfaceId == b.surfaceId && Below(a.file, b.file))
    || (a.surfaceId == b.surfaceId && a.file == b.file && a.line < b.line)
  }

  // And then the finding id.
  ghost predicate BelowInKey(a: Finding, b: Finding) {
    BelowInGroup(a, b) || (Tied(a, b) && Below(a.findingId, b.findingId))
  }

  lemma GroupLessIff(a: Finding, b: Finding)
    ensures GroupLess(a, b) <==> BelowInGroup(a, b)
  {
    StringLessOrder(a.surfaceId, a.surfaceId, "");
    StringLessOrder(a.file, a.file, "");
    StringLessIff(a.surfaceId, b.surfaceId);
    StringLessIff(a.file, b.file);
  }

  lemma KeyLessIff(a: Finding, b: Finding)
    ensures KeyLess(a, b) <==> BelowInKey(a, b)
  {
    GroupLessIff(a, b);
    StringLessOrder(a.surfaceId, b.surfaceId, "");
    StringLessOrder(a.file, b.file, "");
    StringLessIff(a.findingId, b.findingId);
  }
}

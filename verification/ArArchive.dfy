/** The ar archive writer, the layout of its headers, and the round trip. */
module ArArchive {
  import opened Sequences
  import opened Text
  import opened Dicts
  import opened ArFraming

  // ----- text and bytes -----

  predicate Ascii(s: string) { forall c | c in s :: c as int < 128 }

  function ByteOf(c: char): Byte
    requires c as int < 128
  {
    c as int
  }

  function Encode(s: string): Bytes
    requires Ascii(s)
  {
    seq(|s|, i requires 0 <= i < |s| => assert s[i] in s; ByteOf(s[i]))
  }

  predicate AsciiBytes(b: Bytes) { forall x | x in b :: x < 128 }

  function Decode(b: Bytes): string
    requires AsciiBytes(b)
  {
    seq(|b|, i requires 0 <= i < |b| => assert b[i] in b; b[i] as char)
  }

  lemma DecodeEncode(s: string)
    requires Ascii(s)
    ensures AsciiBytes(Encode(s)) && Decode(Encode(s)) == s
  {
    forall x | x in Encode(s) ensures x < 128 {
      var i :| 0 <= i < |s| && Encode(s)[i] == x;
      assert s[i] in s;
    }
  }

  lemma EncodeDecode(b: Bytes)
    requires AsciiBytes(b)
    ensures Ascii(Decode(b)) && Encode(Decode(b)) == b
  {
    forall c | c in Decode(b) ensures c as int < 128 {
      var i :| 0 <= i < |b| && Decode(b)[i] == c;
      assert b[i] in b;
    }
  }

  const HEADER_END: Bytes := [96, 10]

  // ----- writing -----

  function Padded(s: string, width: nat): string
    requires |s| <= width
  {
    s + Spaces(width - |s|)
  }

  predicate Writable(name: string, data: Bytes) {
    Ascii(name) && '/' !in name && |name| <= 15 && |data| < Pow10(10)
  }

  // The fields that are the same in every header.
  function Middle(): (s: string)
    ensures |s| == 32
  {
    Padded("0", 12) + Padded("0", 6) + Padded("0", 6) + Padded("100644", 8)
  }

  lemma MiddleText()
    ensures Middle() == "0           " + "0     " + "0     " + "100644  "
  {}

  // The sixty header bytes as text: name, date, uid, gid, mode, size.
  function HeaderText(name: string, size: nat): string
    requires |name| <= 15 && |Decimal(size)| <= 10
  {
    Padded(name + "/", 16) + Middle() + Padded(Decimal(size), 10)
  }

  lemma HeaderTextAscii(name: string, size: nat)
    requires Ascii(name) && |name| <= 15 && |Decimal(size)| <= 10
    ensures Ascii(HeaderText(name, size)) && |HeaderText(name, size)| == 58
  {
    forall c | c in Decimal(size) ensures c as int < 128 { assert IsDigit(c); }
  }

  function Header(name: string, size: nat): (h: Bytes)
    requires Ascii(name) && |name| <= 15 && |Decimal(size)| <= 10
    ensures |h| == 60
  {
    HeaderTextAscii(name, size);
    Encode(HeaderText(name, size)) + HEADER_END
  }

  // One member: header, content, and a line feed after odd content.
  function MemberBytes(name: string, data: Bytes): (r: Result<Bytes>) {
    if '/' in name then Err(SlashInName)
    else if !Ascii(name) then Err(NotAscii)
    else if |name| > 15 || |Decimal(|data|)| > 10 then Err(FieldTooLong)
    else Ok(Header(name, |data|) + data + (if |data| % 2 == 1 then [10] else []))
  }

  lemma MemberBytesIff(name: string, data: Bytes)
    ensures MemberBytes(name, data).Ok? <==> Writable(name, data)
  {
    DecimalLength(|data|, 10);
  }

  // What a writer leaves in the file, and the error it stopped at if it did.
  function MembersBytes(members: Members): (Bytes, Option<ArError>) {
    if members == [] then ([], None)
    else
      match MemberBytes(members[0].0, members[0].1)
      case Err(e) => ([], Some(e))
      case Ok(b) =>
        var (rest, stop) := MembersBytes(members[1..]);
        (b + rest, stop)
  }

  function Archive(members: Members): (Bytes, Option<ArError>) {
    (MAGIC + MembersBytes(members).0, MembersBytes(members).1)
  }

  class OutFile {
    var content: Bytes

    constructor ()
      ensures content == []
    {
      content := [];
    }

    method Write(b: Bytes)
      modifies this
      ensures content == old(content) + b
    {
      content := content + b;
    }
  }

  // Read as text the field is the value and blanks up to the width; trimmed it is the value
  // again, unless that ends in blanks itself.
  method ArField(value: string, width: nat) returns (r: Result<Bytes>)
    ensures r.Ok? <==> Ascii(value) && |value| <= width
    ensures r.Ok? ==> AsciiBytes(r.value) && Decode(r.value) == value + Spaces(width - |value|)
    ensures r.Ok? && (value != "" ==> !PySpace(value[|value| - 1])) ==> RStrip(Decode(r.value), PySpace) == value
    ensures r.Err? ==> r.error == if Ascii(value) then FieldTooLong else NotAscii
  {
    if !Ascii(value) {
      return Err(NotAscii);
    }
    if |value| > width {
      return Err(FieldTooLong);
    }
    PaddedAscii(value, width);
    DecodeEncode(Padded(value, width));
    if value != "" ==> !PySpace(value[|value| - 1]) { RStripSpaces(value, width - |value|); }
    return Ok(Encode(Padded(value, width)));
  }

  method MakeHeader(name: string, size: nat) returns (r: Result<Bytes>)
    ensures r == if !Ascii(name) then Err(NotAscii)
                 else if |name| > 15 || |Decimal(size)| > 10 then Err(FieldTooLong)
                 else Ok(Header(name, size))
  {
    AsciiSlash(name);
    var nameField := ArField(name + "/", 16);
    if nameField.Err? {
      return Err(nameField.error);
    }
    var middle := MakeMiddle();
    AsciiDigits(size);
    var sizeField := ArField(Decimal(size), 10);
    if sizeField.Err? {
      return Err(sizeField.error);
    }
    HeaderFields(name, size, nameField.value, sizeField.value);
    return Ok(nameField.value + middle + sizeField.value + HEADER_END);
  }

  // Date, owner, group and mode.
  method MakeMiddle() returns (middle: Bytes)
    ensures Ascii(Middle()) && middle == Encode(Middle())
  {
    var date := ArField("0", 12);
    var uid := ArField("0", 6);
    var gid := ArField("0", 6);
    var mode := ArField("100644", 8);
    FixedFields(date.value, uid.value, gid.value, mode.value);
    return date.value + uid.value + gid.value + mode.value;
  }

  method WriteArMember(f: OutFile, name: string, data: Bytes) returns (stop: Option<ArError>)
    modifies f
    ensures match MemberBytes(name, data)
            case Err(e) => stop == Some(e) && f.content == old(f.content)
            case Ok(b) => stop == None && f.content == old(f.content) + b
  {
    if '/' in name {
      return Some(SlashInName);
    }
    var header := MakeHeader(name, |data|);
    if header.Err? {
      return Some(header.error);
    }
    f.Write(header.value);
    f.Write(data);
    if |data| % 2 == 1 {
      f.Write([10]);
    }
    assert f.content == old(f.content) + (header.value + data + (if |data| % 2 == 1 then [10] else []));
    return None;
  }

  lemma AsciiSlash(name: string)
    ensures Ascii(name + "/") <==> Ascii(name)
  {
    forall c | c in name ensures c in name + "/" {}
  }

  lemma AsciiDigits(n: nat)
    ensures Ascii(Decimal(n))
  {
    forall c | c in Decimal(n) ensures c as int < 128 { assert IsDigit(c); }
  }

  lemma EncodeAppend(s: string, t: string)
    requires Ascii(s) && Ascii(t)
    ensures Ascii(s + t) && Encode(s + t) == Encode(s) + Encode(t)
  {}

  lemma PaddedAscii(s: string, width: nat)
    requires Ascii(s) && |s| <= width
    ensures Ascii(Padded(s, width))
  {}

  lemma FixedFields(date: Bytes, uid: Bytes, gid: Bytes, mode: Bytes)
    requires AsciiBytes(date) && AsciiBytes(uid) && AsciiBytes(gid) && AsciiBytes(mode)
    requires Decode(date) == "0" + Spaces(11) && Decode(uid) == "0" + Spaces(5) && Decode(gid) == "0" + Spaces(5)
    requires Decode(mode) == "100644" + Spaces(2)
    ensures Ascii(Middle()) && date + uid + gid + mode == Encode(Middle())
  {
    EncodeDecode(date);
    EncodeDecode(uid);
    EncodeDecode(gid);
    EncodeDecode(mode);
    EncodeAppend(Padded("0", 12), Padded("0", 6));
    EncodeAppend(Padded("0", 12) + Padded("0", 6), Padded("0", 6));
    EncodeAppend(Padded("0", 12) + Padded("0", 6) + Padded("0", 6), Padded("100644", 8));
  }

  lemma HeaderFields(name: string, size: nat, nameField: Bytes, sizeField: Bytes)
    requires Ascii(name) && |name| <= 15 && |Decimal(size)| <= 10
    requires AsciiBytes(nameField) && Decode(nameField) == Padded(name + "/", 16)
    requires AsciiBytes(sizeField) && Decode(sizeField) == Padded(Decimal(size), 10)
    requires Ascii(Middle())
    ensures Header(name, size) == nameField + Encode(Middle()) + sizeField + HEADER_END
  {
    EncodeDecode(nameField);
    EncodeDecode(sizeField);
    EncodeAppend(Padded(name + "/", 16), Middle());
    EncodeAppend(Padded(name + "/", 16) + Middle(), Padded(Decimal(size), 10));
  }

  method CreateArArchive(f: OutFile, members: Members) returns (stop: Option<ArError>)
    requires f.content == []
    modifies f
    ensures (f.content, stop) == Archive(members)
  {
    f.Write(MAGIC);
    assert members[0..] == members && f.content == MAGIC;
    for i := 0 to |members|
      invariant Archive(members) == Resumed(f.content, members[i..])
    {
      ResumeStep(f.content, members, i);
      stop := WriteArMember(f, members[i].0, members[i].1);
      if stop.Some? {
        return stop;
      }
    }
    assert f.content + [] == f.content;
    return None;
  }

  // The archive that comes of writing further members after the given bytes.
  ghost function Resumed(before: Bytes, members: Members): (Bytes, Option<ArError>) {
    (before + MembersBytes(members).0, MembersBytes(members).1)
  }

  lemma ResumeStep(before: Bytes, members: Members, i: nat)
    requires i < |members|
    ensures match MemberBytes(members[i].0, members[i].1)
            case Err(e) => Resumed(before, members[i..]) == (before, Some(e))
            case Ok(b) => Resumed(before, members[i..]) == Resumed(before + b, members[i + 1..])
  {
    assert members[i..][0] == members[i] && members[i..][1..] == members[i + 1..];
    match MemberBytes(members[i].0, members[i].1)
    case Err(e) => assert before + [] == before;
    case Ok(b) =>
      var rest := MembersBytes(members[i + 1..]).0;
      assert before + (b + rest) == before + b + rest;
  }

  // ----- reading -----

  function MemberName(raw: string): string {
    var name := RStrip(raw, PySpace);
    if EndsWith(name, "/") then name[..|name| - 1] else name
  }

  // What a name field reads as: the text without its blanks and without one slash behind it.
  lemma MemberNameIff(raw: string, name: string)
    ensures MemberName(raw) == name <==>
            exists b | Blank(b) ::
              raw == name + "/" + b
              || (raw == name + b && (name != "" ==> name[|name| - 1] != '/' && !PySpace(name[|name| - 1])))
  {
    var stripped := RStrip(raw, PySpace);
    var b := RStripSplits(raw);
    if EndsWith(stripped, "/") { assert stripped == stripped[..|stripped| - 1] + "/"; } else { NoSlashEnd(stripped); }
    assert raw == stripped + b;
    forall c | Blank(c) && raw == name + "/" + c ensures MemberName(raw) == name {
      RStripBlank(name + "/", c);
    }
    forall c | Blank(c) && raw == name + c && (name != "" ==> name[|name| - 1] != '/' && !PySpace(name[|name| - 1]))
      ensures MemberName(raw) == name
    {
      RStripBlank(name, c);
      NoSlashEnd(name);
    }
  }

  lemma NoSlashEnd(s: string)
    ensures EndsWith(s, "/") <==> s != "" && s[|s| - 1] == '/'
  {
    assert s != "" ==> s[|s| - 1..] == [s[|s| - 1]];
  }

  // Name and size of a complete header.
  function ReadHeader(header: Bytes): Result<(string, int)> {
    if |header| != 60 then Err(TruncatedHeader)
    else if header[58..60] != HEADER_END then Err(BadHeaderMagic)
    else if !AsciiBytes(header[0..16]) || !AsciiBytes(header[48..58]) then Err(NotAscii)
    else
      match PyInt(Strip(Decode(header[48..58]), PySpace))
      case None => Err(BadSize)
      case Some(n) => Ok((MemberName(Decode(header[0..16])), n))
  }

  // When a header is read, and as what: sixty bytes with the end mark, ASCII in the two fields, and a
  // number in the size field.
  lemma ReadHeaderIff(header: Bytes, name: string, size: int)
    ensures ReadHeader(header) == Ok((name, size)) <==>
            && |header| == 60 && header[58] == 96 && header[59] == 10
            && AsciiBytes(header[0..16]) && AsciiBytes(header[48..58])
            && MemberName(Decode(header[0..16])) == name
            && PyInt(Strip(Decode(header[48..58]), PySpace)) == Some(size)
  {
    if |header| == 60 { assert header[58..60] == [header[58], header[59]]; }
  }

  function Parse(file: Bytes): Result<Members> { ReadArchive(file, ReadHeader) }

  method ParseArMembers(f: Reader) returns (r: Result<Members>)
    requires f.pos == 0
    modifies f
    ensures r == Parse(f.data)
  {
    r := ParseMembers(f, ReadHeader);
  }

  // ----- round trip -----

  lemma HeaderTextFields(name: string, size: nat)
    requires |name| <= 15 && |Decimal(size)| <= 10
    ensures var t := HeaderText(name, size);
            |t| == 58 && t[..16] == Padded(name + "/", 16) && t[48..58] == Padded(Decimal(size), 10)
  {
    ThreeParts(Padded(name + "/", 16), Middle(), Padded(Decimal(size), 10));
  }

  lemma NameField(name: string)
    requires |name| <= 15 && '/' !in name
    ensures MemberName(Padded(name + "/", 16)) == name
  {
    RStripSpaces(name + "/", 15 - |name|);
  }

  lemma SizeField(d: string)
    requires d != "" && AllDigits(d) && |d| <= 10
    ensures Strip(Padded(d, 10), PySpace) == d
  {
    assert d[0] in d && d[|d| - 1] in d;
    RStripSpaces(d, 10 - |d|);
    assert (d + Spaces(10 - |d|))[0] == d[0];
  }

  lemma HeaderNameText(name: string, size: nat)
    requires Writable(name, []) && |Decimal(size)| <= 10
    ensures var t := HeaderText(name, size);
            |t| == 58 && MemberName(t[..16]) == name && Strip(t[48..58], PySpace) == Decimal(size)
  {
    var d := Decimal(size);
    HeaderTextFields(name, size);
    NameField(name);
    SizeField(d);
  }

  // The header of a writable member reads back as its name and size, whatever blanks the
  // name ends in.
  lemma HeaderRoundTrip(name: string, size: nat)
    requires Writable(name, []) && |Decimal(size)| <= 10
    ensures ReadHeader(Header(name, size)) == Ok((name, size))
  {
    var t, h := HeaderText(name, size), Header(name, size);
    HeaderTextAscii(name, size);
    DecodeEncode(t);
    SliceDecode(t, h, 0, 16);
    SliceDecode(t, h, 48, 58);
    HeaderNameText(name, size);
    PyIntDecimal(size);
  }

  lemma SliceDecode(t: string, h: Bytes, i: nat, j: nat)
    requires Ascii(t) && i <= j <= |t| <= |h| && h[..|t|] == Encode(t)
    ensures AsciiBytes(h[i..j]) && Decode(h[i..j]) == t[i..j]
  {
    DecodeEncode(t);
    var e := Encode(t);
    WithinPrefix(h, |t|, i, j);
    assert forall x | x in e[i..j] :: x in e;
  }

  ghost function EntryFor(name: string, data: Bytes): Entry
    requires Writable(name, data)
  {
    DecimalLength(|data|, 10);
    Entry(Header(name, |data|), data, if |data| % 2 == 1 then [10] else [])
  }

  ghost predicate AllWritable(members: Members) { forall m | m in members :: Writable(m.0, m.1) }

  ghost function EntriesFor(members: Members): seq<Entry>
    requires AllWritable(members)
  {
    seq(|members|, i requires 0 <= i < |members| =>
      assert members[i] in members; EntryFor(members[i].0, members[i].1))
  }

  lemma EntryForGood(name: string, data: Bytes)
    requires Writable(name, data)
    ensures GoodEntry(EntryFor(name, data), ReadHeader) && EntryName(EntryFor(name, data), ReadHeader) == name
    ensures MemberBytes(name, data) == Ok(Frame(EntryFor(name, data)))
  {
    DecimalLength(|data|, 10);
    HeaderRoundTrip(name, |data|);
  }

  lemma EntriesCons(members: Members)
    requires AllWritable(members) && members != []
    ensures Writable(members[0].0, members[0].1) && AllWritable(members[1..])
    ensures EntriesFor(members) == [EntryFor(members[0].0, members[0].1)] + EntriesFor(members[1..])
  {
    assert members == [members[0]] + members[1..];
  }

  lemma {:induction false} MembersFlatten(members: Members)
    requires AllWritable(members)
    ensures AllGood(EntriesFor(members), ReadHeader)
    ensures MembersBytes(members) == (Flatten(EntriesFor(members)), None)
  {
    if members != [] {
      EntriesCons(members);
      EntryForGood(members[0].0, members[0].1);
      MembersFlatten(members[1..]);
      AllGoodCons(EntriesFor(members), ReadHeader);
    }
  }

  lemma {:induction false} MembersStop(members: Members)
    ensures MembersBytes(members).1.None? <==> AllWritable(members)
  {
    if members != [] {
      assert members == [members[0]] + members[1..];
      MemberBytesIff(members[0].0, members[0].1);
      MembersStop(members[1..]);
    }
  }

  lemma {:induction false} CollectFor(members: Members, acc: Members)
    requires AllWritable(members) && AllGood(EntriesFor(members), ReadHeader)
    ensures Collect(EntriesFor(members), acc, ReadHeader) == PutAll(acc, members)
    decreases |members|
  {
    if members != [] {
      var name, data := members[0].0, members[0].1;
      EntriesCons(members);
      AllGoodCons(EntriesFor(members), ReadHeader);
      EntryForGood(name, data);
      CollectFor(members[1..], Put(acc, name, data));
    }
  }

  // Main result. Creating an archive succeeds exactly when every name is ASCII without a slash
  // and at most 15 characters, and every content is below 10^10 bytes; parsing it then gives the
  // same members in the same order, names ending in blanks and the empty name included.
  lemma ArchiveRoundTrip(members: Members)
    requires DistinctKeys(members)
    ensures Archive(members).1.None? <==> AllWritable(members)
    ensures AllWritable(members) ==> Parse(Archive(members).0) == Ok(members)
  {
    MembersStop(members);
    if AllWritable(members) {
      var es := EntriesFor(members);
      MembersFlatten(members);
      CollectFor(members, []);
      assert [] + members == members;
      PutAllFresh([], members);
      AcceptedFiles(MAGIC + Flatten(es), ReadHeader);
    }
  }

  // The length of an archive of the first k members.
  lemma CreatedLength(members: Members, k: nat)
    requires AllWritable(members) && k <= |members|
    ensures AllWritable(members[..k])
    ensures EntriesFor(members)[..k] == EntriesFor(members[..k])
    ensures |Archive(members[..k]).0| == 8 + FramedLength(EntriesFor(members[..k]))
  {
    MembersFlatten(members[..k]);
    FlattenLength(EntriesFor(members[..k]), ReadHeader);
  }

  // Cutting a created archive at the end of member k parses to the first k members; every
  // other strict prefix is rejected.
  lemma CreatedPrefixes(members: Members, n: nat)
    requires DistinctKeys(members) && AllWritable(members) && n <= |Archive(members).0|
    ensures var file := Archive(members).0;
            && (Parse(file[..n]).Ok? <==> exists k | 0 <= k <= |members| :: n == |Archive(members[..k]).0|)
            && (forall k | 0 <= k <= |members| && n == |Archive(members[..k]).0| ::
                  Parse(file[..n]) == Ok(members[..k]))
  {
    var es := EntriesFor(members);
    MembersFlatten(members);
    ArchivePrefixes(es, n, ReadHeader);
    forall k | 0 <= k <= |members| ensures |Archive(members[..k]).0| == 8 + FramedLength(es[..k]) {
      CreatedLength(members, k);
    }
    forall k | 0 <= k <= |members| && n == |Archive(members[..k]).0|
      ensures Parse(Archive(members).0[..n]) == Ok(members[..k])
    {
      CreatedLength(members, k);
      CollectFor(members[..k], []);
      assert [] + members[..k] == members[..k];
      PutAllFresh([], members[..k]);
    }
  }
}

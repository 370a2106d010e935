/**
 The framing of an ar archive: a cursor over bytes that reads sixty-byte headers, contents and
 padding. The grammar the reader accepts is stated separately as a sequence of framed entries,
 and reading is shown to be exactly that, whatever the layout of a header.
 */
module ArFraming {
  import opened Sequences
  import opened Dicts

  type Byte = b: int | 0 <= b < 256
  type Bytes = seq<Byte>

  // A Python dict of member name to content, in insertion order.
  type Members = seq<(string, Bytes)>

  datatype ArError =
    | NotAnArchive
    | TruncatedHeader
    | BadHeaderMagic
    | NotAscii
    | BadSize
    | TruncatedData(name: string)
    | MissingPadding(name: string)
    | FieldTooLong
    | SlashInName

  datatype Result<+T> = Ok(value: T) | Err(error: ArError)

  // The name and size in a header.
  type HeaderReader = Bytes -> Result<(string, int)>

  const MAGIC: Bytes := [33, 60, 97, 114, 99, 104, 62, 10]

  // What one turn of the reader finds: the end, an error, or a member and the bytes it takes.
  datatype Step = End | Stop(error: ArError) | Member(name: string, data: Bytes, length: nat)

  function StepOf(rest: Bytes, read: HeaderReader): (s: Step)
    ensures s.Member? ==> 0 < s.length <= |rest|
  {
    if rest == [] then End
    else if |rest| < 60 then Stop(TruncatedHeader)
    else
      match read(rest[..60])
      case Err(e) => Stop(e)
      case Ok((name, size)) =>
        if size < 0 || |rest| < 60 + size then Stop(TruncatedData(name))
        else if size % 2 == 1 && |rest| == 60 + size then Stop(MissingPadding(name))
        else Member(name, rest[60..60 + size], 60 + size + size % 2)
  }

  function ParseFrom(rest: Bytes, acc: Members, read: HeaderReader): Result<Members>
    decreases |rest|
  {
    match StepOf(rest, read)
    case End => Ok(acc)
    case Stop(e) => Err(e)
    case Member(name, data, length) => ParseFrom(rest[length..], Put(acc, name, data), read)
  }

  function ReadArchive(file: Bytes, read: HeaderReader): Result<Members> {
    if |file| < 8 || file[..8] != MAGIC then Err(NotAnArchive) else ParseFrom(file[8..], [], read)
  }

  class Reader {
    const data: Bytes
    var pos: nat

    constructor (data: Bytes)
      ensures this.data == data && pos == 0
    {
      this.data := data;
      pos := 0;
    }

    // A negative count reads to the end.
    method Read(n: int) returns (chunk: Bytes)
      requires pos <= |data|
      modifies this
      ensures old(pos) <= pos <= |data| && chunk == data[old(pos)..pos]
      ensures pos == if n < 0 || old(pos) + n > |data| then |data| else old(pos) + n
    {
      var end := if n < 0 || pos + n > |data| then |data| else pos + n;
      chunk := data[pos..end];
      pos := end;
    }
  }

  method ParseMembers(f: Reader, read: HeaderReader) returns (r: Result<Members>)
    requires f.pos == 0
    modifies f
    ensures r == ReadArchive(f.data, read)
  {
    var magic := f.Read(8);
    assert |f.data| >= 8 ==> magic == f.data[..8];
    if magic != MAGIC {
      return Err(NotAnArchive);
    }
    r := ReadMembers(f, read);
  }

  method ReadMembers(f: Reader, read: HeaderReader) returns (r: Result<Members>)
    requires f.pos <= |f.data|
    modifies f
    ensures r == ParseFrom(f.data[old(f.pos)..], [], read)
  {
    ghost var whole := ParseFrom(f.data[f.pos..], [], read);
    var members: Members := [];
    while true
      invariant f.pos <= |f.data|
      invariant whole == ParseFrom(f.data[f.pos..], members, read)
      decreases |f.data| - f.pos
    {
      ghost var at := f.pos;
      var step := ReadMember(f, read);
      ParseOne(f.data[at..], members, read);
      if step.End? {
        return Ok(members);
      }
      if step.Stop? {
        return Err(step.error);
      }
      WithinSuffix(f.data, at, step.length, step.length);
      members := Put(members, step.name, step.data);
    }
  }

  lemma ParseOne(rest: Bytes, acc: Members, read: HeaderReader)
    ensures var s := StepOf(rest, read);
            ParseFrom(rest, acc, read) == if s.End? then Ok(acc) else if s.Stop? then Err(s.error)
                                    else ParseFrom(rest[s.length..], Put(acc, s.name, s.data), read)
  {}

  method ReadMember(f: Reader, read: HeaderReader) returns (s: Step)
    requires f.pos <= |f.data|
    modifies f
    ensures f.pos <= |f.data| && s == StepOf(f.data[old(f.pos)..], read)
    ensures s.Member? ==> f.pos == old(f.pos) + s.length
  {
    ghost var at := f.pos;
    var header := f.Read(60);
    if header == [] {
      return End;
    }
    if |header| != 60 {
      return Stop(TruncatedHeader);
    }
    WithinSuffix(f.data, at, 0, 60);
    var parsed := read(header);
    if parsed.Err? {
      return Stop(parsed.error);
    }
    var (name, size) := parsed.value;
    var data := f.Read(size);
    if |data| != size {
      return Stop(TruncatedData(name));
    }
    WithinSuffix(f.data, at, 60, 60 + size);
    if size % 2 == 1 {
      var pad := f.Read(1);
      if pad == [] {
        return Stop(MissingPadding(name));
      }
    }
    return Member(name, data, 60 + size + size % 2);
  }

  // ----- the accepted language -----

  datatype Entry = Entry(header: Bytes, data: Bytes, pad: Bytes)

  ghost predicate GoodEntry(e: Entry, read: HeaderReader) {
    && |e.header| == 60
    && read(e.header).Ok?
    && read(e.header).value.1 == |e.data|
    && |e.pad| == |e.data| % 2
  }

  ghost function EntryName(e: Entry, read: HeaderReader): string
    requires GoodEntry(e, read)
  {
    read(e.header).value.0
  }

  ghost predicate AllGood(es: seq<Entry>, read: HeaderReader) { forall e | e in es :: GoodEntry(e, read) }

  ghost function Frame(e: Entry): Bytes { e.header + e.data + e.pad }

  ghost function Flatten(es: seq<Entry>): Bytes {
    if es == [] then [] else Frame(es[0]) + Flatten(es[1..])
  }

  ghost function Collect(es: seq<Entry>, acc: Members, read: HeaderReader): Members
    requires AllGood(es, read)
  {
    if es == [] then acc
    else
      assert es[0] in es && forall e | e in es[1..] :: e in es;
      Collect(es[1..], Put(acc, EntryName(es[0], read), es[0].data), read)
  }

  // 60 bytes of header, the content, and padding to even length.
  ghost function FramedLength(es: seq<Entry>): nat {
    if es == [] then 0 else 60 + |es[0].data| + |es[0].data| % 2 + FramedLength(es[1..])
  }

  lemma AllGoodCons(es: seq<Entry>, read: HeaderReader)
    requires es != []
    ensures AllGood(es, read) <==> GoodEntry(es[0], read) && AllGood(es[1..], read)
  {
    assert es == [es[0]] + es[1..];
  }

  // How the reader consumes one framed entry.
  lemma ParseEntry(e: Entry, rest: Bytes, acc: Members, read: HeaderReader)
    requires GoodEntry(e, read)
    ensures ParseFrom(Frame(e) + rest, acc, read) == ParseFrom(rest, Put(acc, EntryName(e, read), e.data), read)
  {
    var b := Frame(e) + rest;
    var n := |e.data|;
    assert b[..60] == e.header;
    assert b[60..60 + n] == e.data;
    assert b[60 + n + n % 2..] == rest;
  }

  lemma {:induction false} ParseFlatten(es: seq<Entry>, acc: Members, read: HeaderReader)
    requires AllGood(es, read)
    ensures ParseFrom(Flatten(es), acc, read) == Ok(Collect(es, acc, read))
    decreases |es|
  {
    if es != [] {
      AllGoodCons(es, read);
      ParseEntry(es[0], Flatten(es[1..]), acc, read);
      ParseFlatten(es[1..], Put(acc, EntryName(es[0], read), es[0].data), read);
    }
  }

  lemma FirstEntry(b: Bytes, acc: Members, read: HeaderReader) returns (e: Entry, rest: Bytes)
    requires b != [] && ParseFrom(b, acc, read).Ok?
    ensures GoodEntry(e, read) && b == Frame(e) + rest
    ensures ParseFrom(b, acc, read) == ParseFrom(rest, Put(acc, EntryName(e, read), e.data), read)
  {
    var header := b[..60];
    var (name, size) := read(header).value;
    var end := 60 + size + size % 2;
    CutEntry(b, size);
    e, rest := Entry(header, b[60..60 + size], b[60 + size..end]), b[end..];
    ParseEntry(e, rest, acc, read);
  }

  lemma {:induction false} ParseSplits(b: Bytes, acc: Members, read: HeaderReader) returns (es: seq<Entry>)
    requires ParseFrom(b, acc, read).Ok?
    ensures AllGood(es, read) && b == Flatten(es)
    decreases |b|
  {
    if b == [] {
      es := [];
    } else {
      var e, rest := FirstEntry(b, acc, read);
      var tail := ParseSplits(rest, Put(acc, EntryName(e, read), e.data), read);
      es := [e] + tail;
      assert es[1..] == tail;
      AllGoodCons(es, read);
    }
  }

  lemma CutEntry(b: Bytes, size: nat)
    requires 60 + size + size % 2 <= |b|
    ensures b == b[..60] + b[60..60 + size] + b[60 + size..60 + size + size % 2] + b[60 + size + size % 2..]
  {}

  lemma {:induction false} FlattenLength(es: seq<Entry>, read: HeaderReader)
    requires AllGood(es, read)
    ensures |Flatten(es)| == FramedLength(es)
  {
    if es != [] {
      AllGoodCons(es, read);
      FlattenLength(es[1..], read);
    }
  }

  // A file is accepted exactly when it is the magic followed by well-formed entries; the result
  // is then the dict those entries build, and every byte is accounted for.
  lemma AcceptedFiles(file: Bytes, read: HeaderReader)
    ensures ReadArchive(file, read).Ok? <==> exists es :: AllGood(es, read) && file == MAGIC + Flatten(es)
    ensures forall es | AllGood(es, read) && file == MAGIC + Flatten(es) ::
              ReadArchive(file, read) == Ok(Collect(es, [], read)) && |file| == 8 + FramedLength(es)
  {
    if ReadArchive(file, read).Ok? {
      var es := ParseSplits(file[8..], [], read);
      assert file == MAGIC + Flatten(es);
    }
    forall es | AllGood(es, read) && file == MAGIC + Flatten(es)
      ensures ReadArchive(file, read) == Ok(Collect(es, [], read)) && |file| == 8 + FramedLength(es)
    {
      assert file[..8] == MAGIC && file[8..] == Flatten(es);
      ParseFlatten(es, [], read);
      FlattenLength(es, read);
    }
  }

  // ----- prefixes -----

  // Reading a cut-off entry fails, whatever was read before.
  lemma ParseCut(e: Entry, n: nat, acc: Members, read: HeaderReader)
    requires GoodEntry(e, read) && 0 < n < |Frame(e)|
    ensures ParseFrom(Frame(e)[..n], acc, read).Err?
  {
    if n >= 60 {
      assert Frame(e)[..n][..60] == e.header;
    }
  }

  lemma FramedPrefix(es: seq<Entry>, k: nat)
    requires 1 <= k <= |es|
    ensures FramedLength(es[..k]) == 60 + |es[0].data| + |es[0].data| % 2 + FramedLength(es[1..][..k - 1])
  {
    assert es[..k][0] == es[0] && es[..k][1..] == es[1..][..k - 1];
  }

  ghost predicate EntryEnd(es: seq<Entry>, n: int) {
    exists k | 0 <= k <= |es| :: n == FramedLength(es[..k])
  }

  lemma EntryEndCons(es: seq<Entry>, n: int, read: HeaderReader)
    requires AllGood(es, read) && es != [] && GoodEntry(es[0], read)
    ensures EntryEnd(es, n) <==> n == 0 || EntryEnd(es[1..], n - |Frame(es[0])|)
  {
    assert es[..0] == [];
    assert FramedLength(es[..0]) == 0;
    if EntryEnd(es, n) && n != 0 {
      var k :| 0 <= k <= |es| && n == FramedLength(es[..k]);
      FramedPrefix(es, k);
    }
    if EntryEnd(es[1..], n - |Frame(es[0])|) {
      var k :| 0 <= k <= |es[1..]| && n - |Frame(es[0])| == FramedLength(es[1..][..k]);
      FramedPrefix(es, k + 1);
    }
  }

  lemma CutShort(e: Entry, rest: Bytes, n: nat, acc: Members, read: HeaderReader)
    requires GoodEntry(e, read) && 0 < n < |Frame(e)|
    ensures ParseFrom((Frame(e) + rest)[..n], acc, read).Err?
  {
    ParseCut(e, n, acc, read);
    InFront(Frame(e), rest, n);
  }

  lemma CutLong(e: Entry, rest: Bytes, n: nat, acc: Members, read: HeaderReader)
    requires GoodEntry(e, read) && |Frame(e)| <= n <= |Frame(e) + rest|
    ensures ParseFrom((Frame(e) + rest)[..n], acc, read) ==
            ParseFrom(rest[..n - |Frame(e)|], Put(acc, EntryName(e, read), e.data), read)
  {
    ParseEntry(e, rest[..n - |Frame(e)|], acc, read);
    Behind(Frame(e), rest, n - |Frame(e)|);
  }

  lemma {:induction false} PrefixOf(es: seq<Entry>, n: nat, acc: Members, read: HeaderReader)
    requires AllGood(es, read) && n <= |Flatten(es)|
    ensures ParseFrom(Flatten(es)[..n], acc, read).Ok? <==> EntryEnd(es, n)
    decreases |es|
  {
    if n == 0 {
      EmptyPrefix(es, acc, read);
    } else {
      AllGoodCons(es, read);
      EntryEndCons(es, n, read);
      if n < |Frame(es[0])| {
        CutShort(es[0], Flatten(es[1..]), n, acc, read);
      } else {
        CutLong(es[0], Flatten(es[1..]), n, acc, read);
        PrefixOf(es[1..], n - |Frame(es[0])|, Put(acc, EntryName(es[0], read), es[0].data), read);
      }
    }
  }

  lemma EmptyPrefix(es: seq<Entry>, acc: Members, read: HeaderReader)
    ensures ParseFrom(Flatten(es)[..0], acc, read).Ok? && EntryEnd(es, 0)
  {
    assert es[..0] == [];
    assert FramedLength(es[..0]) == 0;
  }

  lemma {:induction false} FlattenPrefix(es: seq<Entry>, k: nat, read: HeaderReader)
    requires AllGood(es, read) && k <= |es|
    ensures AllGood(es[..k], read) && FramedLength(es[..k]) <= |Flatten(es)|
    ensures Flatten(es)[..FramedLength(es[..k])] == Flatten(es[..k])
  {
    if k == 0 {
      assert es[..0] == [];
    } else {
      AllGoodCons(es, read);
      FlattenPrefix(es[1..], k - 1, read);
      FramedPrefix(es, k);
      Behind(Frame(es[0]), Flatten(es[1..]), FramedLength(es[1..][..k - 1]));
      assert es[..k][0] == es[0] && es[..k][1..] == es[1..][..k - 1];
    }
  }

  lemma ParseBody(body: Bytes, n: nat, read: HeaderReader)
    requires 8 <= n <= 8 + |body|
    ensures ReadArchive((MAGIC + body)[..n], read) == ParseFrom(body[..n - 8], [], read)
  {
    Behind(MAGIC, body, n - 8);
    assert (MAGIC + body[..n - 8])[..8] == MAGIC && (MAGIC + body[..n - 8])[8..] == body[..n - 8];
  }

  // Cutting an accepted archive short leaves something readable only at the end of an entry,
  // padding included, and then exactly the entries before the cut are read.
  lemma ArchivePrefixes(es: seq<Entry>, n: nat, read: HeaderReader)
    requires AllGood(es, read) && n <= |MAGIC + Flatten(es)|
    ensures ReadArchive((MAGIC + Flatten(es))[..n], read).Ok? <==> EntryEnd(es, n - 8)
    ensures forall k | 0 <= k <= |es| && n == 8 + FramedLength(es[..k]) ::
              AllGood(es[..k], read) && ReadArchive((MAGIC + Flatten(es))[..n], read) == Ok(Collect(es[..k], [], read))
  {
    if n >= 8 {
      ParseBody(Flatten(es), n, read);
      PrefixOf(es, n - 8, [], read);
      forall k | 0 <= k <= |es| && n == 8 + FramedLength(es[..k])
        ensures AllGood(es[..k], read)
        ensures ReadArchive((MAGIC + Flatten(es))[..n], read) == Ok(Collect(es[..k], [], read))
      {
        FlattenPrefix(es, k, read);
        ParseFlatten(es[..k], [], read);
      }
    }
  }
}

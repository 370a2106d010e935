/**
 Files of labelled lines and the patterns that search them: where a label is first found, and
 what the group behind it matches.
 */
module LabPatterns {
  import opened Sequences
  import opened Text

  // ----- files -----

  datatype Field = Field(key: string, value: string)

  function FieldText(f: Field): string { f.key + (": " + f.value) }

  // Every field on a line of its own, unless its value breaks the line.
  function FileText(fields: seq<Field>): string {
    if fields == [] then "" else FieldText(fields[0]) + ("\n" + FileText(fields[1..]))
  }

  // ----- the patterns -----

  // re.search for a label and what follows it: the leftmost place where both match.
  function Search<T>(s: string, name: string, extract: string -> Option<T>): Option<T>
    decreases |s|
  {
    var tag := name + ":";
    if tag <= s && extract(s[|tag|..]).Some? then extract(s[|tag|..])
    else if s == "" then None
    else Search(s[1..], name, extract)
  }

  function Word(s: string): string {
    if s == "" || PySpace(s[0]) then "" else [s[0]] + Word(s[1..])
  }

  // \s*(\S+)
  function SpacedWord(s: string): Option<string> {
    var w := Word(LStrip(s, PySpace));
    if w == "" then None else Some(w)
  }

  // \s*(\d+)
  function SpacedNumber(s: string): Option<nat> {
    var t := LStrip(s, PySpace);
    var k := DigitPrefix(t);
    if k == 0 then None else Some(DecimalValue(t[..k]))
  }

  // \s*(.+?)(?:\n|$) with . matching every character. Of blanks alone the last one is left to
  // the group.
  function SpacedLine(s: string): Option<string> {
    var t := LStrip(s, PySpace);
    if t != "" then Some(t[..IndexOf(t, '\n')])
    else if s != "" then Some([s[|s| - 1]])
    else None
  }

  function Trimmed(group: Option<string>): string {
    if group.Some? then Strip(group.value, PySpace) else ""
  }

  // ----- what the patterns find in any text -----

  // The label stands at k and its group matches behind it.
  ghost predicate FoundAt<T>(s: string, name: string, extract: string -> Option<T>, k: nat)
    requires k <= |s|
  {
    name + ":" <= s[k..] && extract(s[k..][|name| + 1..]).Some?
  }

  ghost predicate FirstAt<T>(s: string, name: string, extract: string -> Option<T>, k: nat)
    requires k <= |s|
  {
    FoundAt(s, name, extract, k) && forall j | 0 <= j < k :: !FoundAt(s, name, extract, j)
  }

  // A search gives the group at the first such place, and nothing when there is none.
  lemma {:induction false} SearchFirst<T>(s: string, name: string, extract: string -> Option<T>)
    ensures Search(s, name, extract).None? <==> forall k | 0 <= k <= |s| :: !FoundAt(s, name, extract, k)
    ensures Search(s, name, extract).Some? ==>
              exists k | 0 <= k <= |s| ::
                FirstAt(s, name, extract, k) && Search(s, name, extract) == extract(s[k..][|name| + 1..])
    decreases |s|
  {
    assert s[0..] == s;
    if FoundAt(s, name, extract, 0) {
      assert FirstAt(s, name, extract, 0);
    } else if s != "" {
      var t := s[1..];
      SearchFirst(t, name, extract);
      assert forall k | 0 <= k <= |t| :: t[k..] == s[k + 1..];
      assert forall k | 0 <= k <= |t| :: FoundAt(t, name, extract, k) <==> FoundAt(s, name, extract, k + 1);
      assert forall k | 0 < k <= |s| :: FoundAt(s, name, extract, k) <==> FoundAt(t, name, extract, k - 1);
      if Search(t, name, extract).Some? {
        var k :| 0 <= k <= |t| && FirstAt(t, name, extract, k)
                 && Search(t, name, extract) == extract(t[k..][|name| + 1..]);
        assert FirstAt(s, name, extract, k + 1);
      }
    }
  }

  // Blanks, the word, and a blank or the end.
  ghost predicate WordForm(s: string, b: string, w: string, rest: string) {
    && s == b + (w + rest) && Blank(b) && w != "" && (forall c | c in w :: !PySpace(c))
    && (rest != "" ==> PySpace(rest[0]))
  }

  lemma SpacedWordIff(s: string, w: string)
    ensures SpacedWord(s) == Some(w) <==> exists b, rest :: WordForm(s, b, w, rest)
  {
    if SpacedWord(s) == Some(w) {
      var t := LStrip(s, PySpace);
      var b := LStripSplits(s);
      var rest := WordSplits(t);
      assert WordForm(s, b, w, rest);
    }
    forall b, rest | WordForm(s, b, w, rest) ensures SpacedWord(s) == Some(w) {
      assert w[0] in w;
      LStripBlank(b, w + rest);
      if rest == "" { WordWhole(w); assert w + rest == w; } else { WordEnds(w, rest); }
    }
  }

  lemma {:induction false} WordSplits(t: string) returns (rest: string)
    ensures t == Word(t) + rest && (rest != "" ==> PySpace(rest[0]))
    ensures forall i | 0 <= i < |Word(t)| :: !PySpace(Word(t)[i])
  {
    if t == "" || PySpace(t[0]) {
      rest := t;
    } else {
      rest := WordSplits(t[1..]);
      assert t == [t[0]] + t[1..];
    }
  }

  lemma {:induction false} WordWhole(w: string)
    requires forall c | c in w :: !PySpace(c)
    ensures Word(w) == w
  {
    if w != "" {
      assert w[0] in w && forall c | c in w[1..] :: c in w;
      WordWhole(w[1..]);
      assert w == [w[0]] + w[1..];
    }
  }

  // Blanks, all the digits there are, and anything else.
  ghost predicate NumberForm(s: string, b: string, d: string, rest: string) {
    s == b + (d + rest) && Blank(b) && d != "" && AllDigits(d) && (rest != "" ==> !IsDigit(rest[0]))
  }

  lemma NumberParts(s: string) returns (b: string, d: string, rest: string)
    requires SpacedNumber(s).Some?
    ensures NumberForm(s, b, d, rest) && SpacedNumber(s) == Some(DecimalValue(d))
  {
    var t := LStrip(s, PySpace);
    b := LStripSplits(s);
    d, rest := t[..DigitPrefix(t)], t[DigitPrefix(t)..];
    assert t == d + rest;
  }

  lemma NumberFormRead(s: string, b: string, d: string, rest: string)
    requires NumberForm(s, b, d, rest)
    ensures SpacedNumber(s) == Some(DecimalValue(d))
  {
    assert d[0] in d;
    LStripBlank(b, d + rest);
    DigitPrefixUnique(d, rest);
    assert (d + rest)[..|d|] == d;
  }

  lemma SpacedNumberIff(s: string, n: nat)
    ensures SpacedNumber(s) == Some(n) <==>
            exists b, d, rest :: NumberForm(s, b, d, rest) && DecimalValue(d) == n
  {
    if SpacedNumber(s) == Some(n) {
      var b, d, rest := NumberParts(s);
      assert NumberForm(s, b, d, rest);
    }
    forall b, d, rest | NumberForm(s, b, d, rest) ensures SpacedNumber(s) == Some(DecimalValue(d)) {
      NumberFormRead(s, b, d, rest);
    }
  }

  // Blanks, the rest of the line, and its end.
  ghost predicate LineForm(s: string, b: string, v: string, rest: string) {
    && s == b + (v + rest) && Blank(b) && v != "" && !PySpace(v[0]) && '\n' !in v
    && (rest != "" ==> rest[0] == '\n')
  }

  lemma SpacedLineIff(s: string, v: string)
    ensures SpacedLine(s) == Some(v) <==>
            (exists b, rest :: LineForm(s, b, v, rest)) || (s != "" && Blank(s) && v == [s[|s| - 1]])
  {
    if LStrip(s, PySpace) != "" { LineParts(s); }
    if Blank(s) { BlankLine(s); } else { NotBlank(s); }
    forall b, rest | LineForm(s, b, v, rest) ensures SpacedLine(s) == Some(v) {
      LStripBlank(b, v + rest);
      LineCut(v, rest);
    }
  }

  lemma LineParts(s: string)
    requires LStrip(s, PySpace) != ""
    ensures SpacedLine(s).Some? && exists b, rest :: LineForm(s, b, SpacedLine(s).value, rest)
  {
    var t := LStrip(s, PySpace);
    var b := LStripSplits(s);
    var v := t[..IndexOf(t, '\n')];
    assert t == v + t[|v|..];
    assert LineForm(s, b, v, t[|v|..]);
  }

  lemma BlankLine(s: string)
    requires Blank(s)
    ensures LStrip(s, PySpace) == ""
  {
    LStripBlank(s, "");
    assert s + "" == s;
  }

  lemma NotBlank(s: string)
    requires !Blank(s)
    ensures LStrip(s, PySpace) != ""
  {
    var a := LStripSplits(s);
    assert a + "" == a;
  }

  lemma LineCut(v: string, rest: string)
    requires '\n' !in v && (rest != "" ==> rest[0] == '\n')
    ensures (v + rest)[..IndexOf(v + rest, '\n')] == v
  {
    if rest == "" {
      assert v + rest == v;
      assert forall k | 0 <= k < |v| :: v[k] in v;
    } else {
      assert v + rest == v + ['\n'] + rest[1..];
      IndexOfFirst(v, '\n', rest[1..]);
    }
  }

  // ----- where a label is found -----

  ghost predicate LabelName(name: string) { name != "" && ':' !in name && '\n' !in name }

  // The label does not occur on the field's line.
  ghost predicate Silent(f: Field, name: string) {
    '\n' !in FieldText(f) && !Contains(FieldText(f), name + ":")
  }

  lemma PrefixStopsBefore(p: string, w: string, n: nat)
    requires p <= w && n < |w| && w[n] !in p
    ensures |p| <= n
  {}

  lemma OccursInside(s: string, t: string, name: string, k: nat)
    requires LabelName(name) && k <= |s| && name + ":" <= (s + ("\n" + t))[k..]
    ensures OccursAt(s, name + ":", k)
  {
    var w, m := s + ("\n" + t), |name| + 1;
    WithinSuffix(w, k, 0, m);
    assert w[k..][|s| - k] == '\n';
    PrefixStopsBefore(name + ":", w[k..], |s| - k);
    InFront(s, "\n" + t, k + m);
    WithinPrefix(w, k + m, k, k + m);
  }

  lemma {:induction false} SearchSkips<T>(s: string, t: string, name: string, extract: string -> Option<T>, k: nat)
    requires LabelName(name) && k <= |s|
    requires forall i | k <= i <= |s| :: !OccursAt(s, name + ":", i)
    ensures Search((s + ("\n" + t))[k..], name, extract) == Search(t, name, extract)
    decreases |s| - k
  {
    var w := s + ("\n" + t);
    if name + ":" <= w[k..] { OccursInside(s, t, name, k); }
    WithinSuffix(w, k, 1, 1);
    if k < |s| {
      SearchSkips(s, t, name, extract, k + 1);
    } else {
      assert w[k + 1..] == t;
    }
  }

  // A search over two pieces at a line break finds what the first one holds, or else what the second
  // does, if the group behind a label stays the same when the second one follows.
  lemma {:induction false} SearchAcross<T>(s: string, t: string, name: string, extract: string -> Option<T>, k: nat)
    requires LabelName(name) && k <= |s| && forall x :: extract(x + ("\n" + t)) == extract(x)
    ensures var early := Search(s[k..], name, extract);
            Search((s + ("\n" + t))[k..], name, extract) == if early.Some? then early else Search(t, name, extract)
    decreases |s| - k
  {
    var w, tag := s + ("\n" + t), name + ":";
    assert w[k..] == s[k..] + ("\n" + t);
    if tag <= w[k..] {
      OccursInside(s, t, name, k);
      assert tag <= s[k..] && w[k..][|tag|..] == s[k..][|tag|..] + ("\n" + t);
    }
    if k < |s| {
      assert w[k..][1..] == w[k + 1..] && s[k..][1..] == s[k + 1..];
      SearchAcross(s, t, name, extract, k + 1);
    } else {
      assert w[k..][1..] == t && s[k..] == "";
    }
  }

  // Where the label does not start the search moves on.
  lemma {:induction false} SearchMoves<T>(p: string, s: string, name: string, extract: string -> Option<T>)
    requires forall i | 0 <= i < |p| :: !(name + ":" <= (p + s)[i..])
    ensures Search(p + s, name, extract) == Search(s, name, extract)
  {
    if p == "" {
      assert p + s == s;
    } else {
      var w := p + s;
      assert w[0..] == w && w[1..] == p[1..] + s;
      forall i | 0 <= i < |p[1..]| ensures !(name + ":" <= (p[1..] + s)[i..]) {
        assert (p[1..] + s)[i..] == w[i + 1..];
      }
      SearchMoves(p[1..], s, name, extract);
    }
  }

  lemma SearchSilent<T>(f: Field, t: string, name: string, extract: string -> Option<T>)
    requires LabelName(name) && Silent(f, name)
    ensures Search(FieldText(f) + ("\n" + t), name, extract) == Search(t, name, extract)
  {
    var s := FieldText(f);
    assert forall i | 0 <= i <= |s| :: !OccursAt(s, name + ":", i);
    SearchSkips(s, t, name, extract, 0);
    assert (s + ("\n" + t))[0..] == s + ("\n" + t);
  }

  lemma FieldStarts(f: Field, t: string)
    ensures f.key + ":" <= FieldText(f) + ("\n" + t)
    ensures (FieldText(f) + ("\n" + t))[|f.key| + 1..] == " " + f.value + ("\n" + t)
  {
    assert FieldText(f) + ("\n" + t) == (f.key + ":") + (" " + f.value + ("\n" + t));
  }

  // A search that nothing before stops arrives at its own field.
  lemma {:induction false} SearchArrives<T>(fields: seq<Field>, k: nat, name: string, extract: string -> Option<T>)
    requires k <= |fields| && LabelName(name) && forall j | 0 <= j < k :: Silent(fields[j], name)
    ensures Search(FileText(fields), name, extract) == Search(FileText(fields[k..]), name, extract)
  {
    if k == 0 {
      assert fields[0..] == fields;
    } else {
      SearchSilent(fields[0], FileText(fields[1..]), name, extract);
      SearchArrives(fields[1..], k - 1, name, extract);
      WithinSuffix(fields, 1, k - 1, k - 1);
    }
  }

  lemma SearchFinds<T>(fields: seq<Field>, k: nat, name: string, extract: string -> Option<T>)
    requires k < |fields| && LabelName(name) && fields[k].key == name
    requires forall j | 0 <= j < k :: Silent(fields[j], name)
    requires extract(" " + fields[k].value + ("\n" + FileText(fields[k + 1..]))).Some?
    ensures Search(FileText(fields), name, extract) ==
            extract(" " + fields[k].value + ("\n" + FileText(fields[k + 1..])))
  {
    SearchArrives(fields, k, name, extract);
    WithinSuffix(fields, k, 1, 1);
    FieldStarts(fields[k], FileText(fields[k + 1..]));
  }

  // ----- lines on which a label cannot occur -----

  // A label that occurs on a field's line ends at the field's own colon or lies in the value.
  lemma LabelPlace(f: Field, name: string, i: nat)
    requires LabelName(name) && f.key != "" && ':' !in f.key && OccursAt(FieldText(f), name + ":", i)
    ensures i + |name| >= |f.key|
    ensures i + |name| == |f.key| ==> f.key[|f.key| - 1] == name[|name| - 1]
    ensures i + |name| > |f.key| ==> ':' in f.value && forall c | c in name && c != ' ' :: c in f.value
  {
    var s, m := FieldText(f), |name|;
    OccursChars(s, name + ":", i);
    assert (name + ":")[m] == ':' && s[i + m] == ':';
    assert forall q | i <= q < i + m :: s[q] == name[q - i];
    assert s[|f.key|] == ':' && s[|f.key| + 1] == ' ';
    if i + m == |f.key| {
      assert s[i + (m - 1)] == name[m - 1];
    } else if i + m > |f.key| {
      assert i > |f.key|;
      forall c | c in name && c != ' ' ensures c in f.value {
        var k :| 0 <= k < m && name[k] == c;
        assert s[i + k] == f.value[i + k - |f.key| - 2];
      }
      assert s[i + m] == f.value[i + m - |f.key| - 2];
    }
  }

  ghost predicate Calm(f: Field) {
    f.key != "" && ':' !in f.key && '\n' !in f.key && '\n' !in f.value
  }

  // What keeps a label off a line: another last letter, and a value without colons or without
  // the underscores of the label.
  ghost predicate Apart(f: Field, name: string)
    requires f.key != "" && name != ""
  {
    && f.key[|f.key| - 1] != name[|name| - 1]
    && (':' !in f.value || ('_' in name && '_' !in f.value))
  }

  lemma ApartSilent(f: Field, name: string)
    requires LabelName(name) && Calm(f) && Apart(f, name)
    ensures Silent(f, name)
  {
    forall i | 0 <= i <= |FieldText(f)| ensures !OccursAt(FieldText(f), name + ":", i) {
      if OccursAt(FieldText(f), name + ":", i) { LabelPlace(f, name, i); }
    }
  }

  // A field whose value does not match is passed over.
  lemma SearchPasses<T>(f: Field, t: string, name: string, extract: string -> Option<T>)
    requires LabelName(name) && Calm(f) && f.key == name && ':' !in f.value
    requires extract(" " + f.value + ("\n" + t)).None?
    ensures Search(FieldText(f) + ("\n" + t), name, extract) == Search(t, name, extract)
  {
    var s := FieldText(f);
    FieldStarts(f, t);
    forall i | 1 <= i <= |s| ensures !OccursAt(s, name + ":", i) {
      if OccursAt(s, name + ":", i) { LabelPlace(f, name, i); }
    }
    SearchSkips(s, t, name, extract, 1);
  }

  lemma SearchNothing<T>(fields: seq<Field>, k: nat, name: string, extract: string -> Option<T>)
    requires k < |fields| && LabelName(name) && fields[k].key == name && Calm(fields[k]) && ':' !in fields[k].value
    requires forall j | 0 <= j < |fields| && j != k :: Silent(fields[j], name)
    requires extract(" " + fields[k].value + ("\n" + FileText(fields[k + 1..]))).None?
    ensures Search(FileText(fields), name, extract) == None
  {
    SearchArrives(fields, k, name, extract);
    WithinSuffix(fields, k, 1, 1);
    SearchPasses(fields[k], FileText(fields[k + 1..]), name, extract);
    var rest := fields[k + 1..];
    forall j | 0 <= j < |rest| ensures Silent(rest[j], name) { assert rest[j] == fields[k + 1 + j]; }
    SearchArrives(rest, |rest|, name, extract);
    assert rest[|rest|..] == [];
  }

  // ----- what the groups match -----

  lemma StripsBlank(v: string, t: string)
    requires v != "" && !PySpace(v[0])
    ensures LStrip(" " + v + t, PySpace) == v + t
  {
    assert (" " + v + t)[1..] == v + t && (v + t)[0] == v[0];
  }

  lemma {:induction false} WordEnds(v: string, t: string)
    requires (forall c | c in v :: !PySpace(c)) && t != "" && PySpace(t[0])
    ensures Word(v + t) == v
  {
    if v == "" {
      assert v + t == t;
    } else {
      assert v[0] in v && (v + t)[1..] == v[1..] + t;
      WordEnds(v[1..], t);
      assert v == [v[0]] + v[1..];
    }
  }

  lemma WordReads(v: string, t: string)
    requires v != "" && forall c | c in v :: !PySpace(c)
    ensures SpacedWord(" " + v + ("\n" + t)) == Some(v)
  {
    assert v[0] in v;
    StripsBlank(v, "\n" + t);
    WordEnds(v, "\n" + t);
  }

  lemma NumberReads(n: nat, t: string)
    ensures SpacedNumber(" " + Decimal(n) + ("\n" + t)) == Some(n)
  {
    var d := Decimal(n);
    assert d[0] in d;
    StripsBlank(d, "\n" + t);
    DigitPrefixUnique(d, "\n" + t);
    InFront(d, "\n" + t, |d|);
    DecimalRoundTrip(n);
  }

  lemma NegativeReads(d: string, t: string)
    ensures SpacedNumber(" " + ("-" + d) + ("\n" + t)) == None
  {
    StripsBlank("-" + d, "\n" + t);
    assert ("-" + d + ("\n" + t))[0] == '-';
  }

  lemma LineReads(v: string, t: string)
    requires v != "" && !PySpace(v[0]) && '\n' !in v
    ensures SpacedLine(" " + v + ("\n" + t)) == Some(v)
  {
    StripsBlank(v, "\n" + t);
    assert v + ("\n" + t) == v + ['\n'] + t;
    IndexOfFirst(v, '\n', t);
    InFront(v, "\n" + t, |v|);
  }

  // An empty value lets the word pattern run on to the next line.
  lemma WordRunsOn(next: Field, t: string)
    requires next.key != "" && forall c | c in next.key :: !PySpace(c)
    ensures SpacedWord(" " + "" + ("\n" + (FieldText(next) + t))) == Some(next.key + ":")
  {
    var s := " " + "" + ("\n" + (FieldText(next) + t));
    var v := next.key + ":";
    assert s[1..] == "\n" + (FieldText(next) + t) && s[1..][1..] == FieldText(next) + t;
    assert next.key[0] in next.key && (FieldText(next) + t)[0] == next.key[0];
    assert LStrip(FieldText(next) + t, PySpace) == FieldText(next) + t;
    assert LStrip(s[1..], PySpace) == FieldText(next) + t;
    assert FieldText(next) + t == v + (" " + next.value + t);
    forall c | c in v ensures !PySpace(c) {}
    WordEnds(v, " " + next.value + t);
  }

  lemma {:induction false} LabelContained(fields: seq<Field>, k: nat)
    requires k < |fields|
    ensures Contains(FileText(fields), fields[k].key + ":")
  {
    var t, tag := FileText(fields[1..]), fields[k].key + ":";
    if k == 0 {
      FieldStarts(fields[0], t);
      assert OccursAt(FileText(fields), tag, 0);
    } else {
      LabelContained(fields[1..], k - 1);
      ContainsWithin(FieldText(fields[0]) + "\n", t, "", tag);
      assert FieldText(fields[0]) + "\n" + t + "" == FileText(fields);
    }
  }

  // ----- one field searched for -----

  // The first field with a key, when its label occurs on no line before it.
  ghost predicate FirstOf(fields: seq<Field>, k: nat, name: string, value: string) {
    && LabelName(name) && k < |fields| && fields[k] == Field(name, value)
    && forall j | 0 <= j < k :: Silent(fields[j], name)
  }

  lemma WordFound(fields: seq<Field>, k: nat, name: string, v: string)
    requires FirstOf(fields, k, name, v) && v != "" && forall c | c in v :: !PySpace(c)
    ensures Search(FileText(fields), name, SpacedWord) == Some(v)
  {
    WordReads(v, FileText(fields[k + 1..]));
    SearchFinds(fields, k, name, SpacedWord);
  }

  // An empty value sends the word pattern on to the label of the next line.
  lemma NextLabelFound(fields: seq<Field>, k: nat, name: string)
    requires FirstOf(fields, k, name, "") && k + 1 < |fields|
    requires var next := fields[k + 1].key; next != "" && forall c | c in next :: !PySpace(c)
    ensures Search(FileText(fields), name, SpacedWord) == Some(fields[k + 1].key + ":")
  {
    WithinSuffix(fields, k + 1, 1, 1);
    WordRunsOn(fields[k + 1], "\n" + FileText(fields[k + 2..]));
    SearchFinds(fields, k, name, SpacedWord);
  }

  lemma NumberFound(fields: seq<Field>, k: nat, name: string, n: nat)
    requires FirstOf(fields, k, name, Decimal(n))
    ensures Search(FileText(fields), name, SpacedNumber) == Some(n)
  {
    NumberReads(n, FileText(fields[k + 1..]));
    SearchFinds(fields, k, name, SpacedNumber);
  }

  lemma NegativeNotFound(fields: seq<Field>, k: nat, name: string, d: string)
    requires FirstOf(fields, k, name, "-" + d) && Calm(fields[k]) && ':' !in d
    requires forall j | k < j < |fields| :: Silent(fields[j], name)
    ensures Search(FileText(fields), name, SpacedNumber) == None
  {
    NegativeReads(d, FileText(fields[k + 1..]));
    SearchNothing(fields, k, name, SpacedNumber);
  }

  lemma LineFound(fields: seq<Field>, k: nat, name: string, v: string)
    requires FirstOf(fields, k, name, v) && v != "" && !PySpace(v[0]) && '\n' !in v
    ensures Search(FileText(fields), name, SpacedLine) == Some(v)
  {
    LineReads(v, FileText(fields[k + 1..]));
    SearchFinds(fields, k, name, SpacedLine);
  }

  // Behind an empty value the line pattern matches the whole next line.
  lemma NextLineFound(fields: seq<Field>, k: nat, name: string)
    requires FirstOf(fields, k, name, "") && k + 1 < |fields| && '\n' !in FieldText(fields[k + 1])
    requires fields[k + 1].key != "" && !PySpace(fields[k + 1].key[0])
    ensures Search(FileText(fields), name, SpacedLine) == Some(FieldText(fields[k + 1]))
  {
    WithinSuffix(fields, k + 1, 1, 1);
    LineRunsOn(FieldText(fields[k + 1]), FileText(fields[k + 2..]));
    SearchFinds(fields, k, name, SpacedLine);
  }

  lemma LineRunsOn(line: string, t: string)
    requires line != "" && !PySpace(line[0]) && '\n' !in line
    ensures SpacedLine(" " + "" + ("\n" + (line + ("\n" + t)))) == Some(line)
  {
    var rest := line + ("\n" + t);
    var s := " " + "" + ("\n" + rest);
    assert s[1..] == "\n" + rest && s[1..][1..] == rest && rest[0] == line[0];
    assert LStrip(rest, PySpace) == rest;
    assert LStrip(s[1..], PySpace) == rest;
    assert rest == line + ['\n'] + t;
    IndexOfFirst(line, '\n', t);
    InFront(line, "\n" + t, |line|);
  }
}

/** Tab-separated tables as the lab writes them, and what splitting one gives back. */
module LabTables {
  import opened Sequences
  import opened Text

  predicate CleanField(s: string) { forall i | 0 <= i < |s| :: s[i] != '\t' && s[i] != '\n' }

  ghost predicate CleanColumns(cols: seq<string>) {
    cols != [] && forall i | 0 <= i < |cols| :: CleanField(cols[i])
  }

  function RowText(cols: seq<string>): string { Join(cols, '\t') }

  // How a table is laid out: its header line and the line of a record.
  datatype Layout<!T> = Layout(head: string, line: T -> string)

  // The file after its header and the given records have been written, each with a line break.
  function TableText<T>(layout: Layout<T>, records: seq<T>): string {
    if records == [] then layout.head + ['\n']
    else TableText(layout, records[..|records| - 1]) + layout.line(records[|records| - 1]) + ['\n']
  }

  // The lines of a table of rows.
  function TableLines(header: seq<string>, rows: seq<seq<string>>): seq<string> {
    [RowText(header)] + Map(rows, RowText)
  }

  // Trimming and splitting, as every reader of a table begins.
  function LinesOf(content: string): (lines: seq<string>)
    ensures lines != []
  {
    Split(Strip(content, PySpace), '\n')
  }

  // Appending a record appends its line.
  lemma TableAppend<T>(layout: Layout<T>, records: seq<T>, record: T)
    ensures TableText(layout, records + [record]) == TableText(layout, records) + layout.line(record) + ['\n']
  {
    assert (records + [record])[..|records|] == records;
  }

  // ----- numbers in columns -----

  lemma IntTextClean(n: int)
    ensures CleanField(IntText(n))
  {
    var d := Decimal(if n < 0 then -n else n);
    forall i | 0 <= i < |d| ensures IsDigit(d[i]) { assert d[i] in d; }
  }

  lemma IntTextEnd(n: int)
    ensures IntText(n) != "" && !PySpace(IntText(n)[|IntText(n)| - 1])
  {
    var d := Decimal(if n < 0 then -n else n);
    assert IsDigit(d[|d| - 1]) by { assert d[|d| - 1] in d; }
    assert IntText(n)[|IntText(n)| - 1] == d[|d| - 1];
  }

  // int() of a column.
  function IntColumn(s: string): Option<int> { PyInt(Strip(s, PySpace)) }

  lemma IntColumnReads(n: int)
    ensures IntColumn(IntText(n)) == Some(n)
  {
    PyIntRoundTrip(n);
  }

  // ----- rows read back -----

  lemma ColumnsRead(cols: seq<string>)
    requires CleanColumns(cols)
    ensures '\n' !in RowText(cols) && Split(RowText(cols), '\t') == cols
  {
    SplitJoin(cols, '\t');
    JoinFree(cols, '\t', '\n');
  }

  lemma JoinAppend(parts: seq<string>, last: string, c: char)
    requires parts != []
    ensures Join(parts + [last], c) == Join(parts, c) + [c] + last
  {
    JoinSplitAt(parts, [last], c);
  }

  lemma {:induction false} TableJoined<T>(layout: Layout<T>, records: seq<T>)
    ensures TableText(layout, records) == Join([layout.head] + Map(records, layout.line), '\n') + ['\n']
  {
    var lines := [layout.head] + Map(records, layout.line);
    if records == [] {
      assert lines == [layout.head];
    } else {
      var init, last := records[..|records| - 1], records[|records| - 1];
      TableJoined(layout, init);
      assert lines == [layout.head] + Map(init, layout.line) + [layout.line(last)];
      JoinAppend([layout.head] + Map(init, layout.line), layout.line(last), '\n');
    }
  }

  lemma JoinStart(parts: seq<string>, c: char)
    requires parts != [] && parts[0] != ""
    ensures Join(parts, c) != "" && Join(parts, c)[0] == parts[0][0]
  {}

  lemma JoinEnd(parts: seq<string>, c: char)
    requires parts != [] && parts[|parts| - 1] != ""
    ensures var j, last := Join(parts, c), parts[|parts| - 1]; j != "" && j[|j| - 1] == last[|last| - 1]
  {
    if |parts| > 1 {
      var init, last := parts[..|parts| - 1], parts[|parts| - 1];
      assert parts == init + [last];
      JoinAppend(init, last, c);
    }
  }

  lemma StripLastBreak(s: string)
    requires s != "" && !PySpace(s[0]) && !PySpace(s[|s| - 1])
    ensures Strip(s + ['\n'], PySpace) == s
  {
    var t := s + ['\n'];
    assert t[..|t| - 1] == s;
    assert LStrip(t, PySpace) == t;
    assert RStrip(t, PySpace) == RStrip(s, PySpace);
  }

  // The first row must not begin and the last not end in white space, or trimming the file eats
  // part of a column.
  ghost predicate Tight(header: seq<string>, rows: seq<seq<string>>) {
    && header != [] && header[0] != "" && !PySpace(header[0][0])
    && rows != []
    && var row := rows[|rows| - 1];
       row != [] && var end := row[|row| - 1]; end != "" && !PySpace(end[|end| - 1])
  }

  ghost predicate CleanTable(header: seq<string>, rows: seq<seq<string>>) {
    CleanColumns(header) && forall i | 0 <= i < |rows| :: CleanColumns(rows[i])
  }

  lemma TableEnds(header: seq<string>, rows: seq<seq<string>>)
    requires Tight(header, rows)
    ensures var j := Join(TableLines(header, rows), '\n'); j != "" && !PySpace(j[0]) && !PySpace(j[|j| - 1])
  {
    var lines := TableLines(header, rows);
    JoinStart(header, '\t');
    JoinStart(lines, '\n');
    JoinEnd(rows[|rows| - 1], '\t');
    JoinEnd(lines, '\n');
  }

  // The records of a table are laid out in these columns.
  ghost predicate LaidOut<T>(layout: Layout<T>, records: seq<T>, header: seq<string>, rows: seq<seq<string>>) {
    && layout.head == RowText(header) && |rows| == |records|
    && forall i | 0 <= i < |records| :: layout.line(records[i]) == RowText(rows[i])
  }

  // A reader sees exactly the header and the rows that were written.
  lemma TableSplits<T>(layout: Layout<T>, records: seq<T>, header: seq<string>, rows: seq<seq<string>>)
    requires LaidOut(layout, records, header, rows) && CleanTable(header, rows) && Tight(header, rows)
    ensures LinesOf(TableText(layout, records)) == TableLines(header, rows)
    ensures Split(RowText(header), '\t') == header
    ensures forall i | 0 <= i < |rows| :: Split(TableLines(header, rows)[i + 1], '\t') == rows[i]
  {
    var lines := TableLines(header, rows);
    TableJoined(layout, records);
    assert [layout.head] + Map(records, layout.line) == lines;
    TableEnds(header, rows);
    StripLastBreak(Join(lines, '\n'));
    ColumnsRead(header);
    forall i | 0 <= i < |rows| ensures '\n' !in lines[i + 1] && Split(lines[i + 1], '\t') == rows[i] {
      ColumnsRead(rows[i]);
    }
    SplitJoin(lines, '\n');
  }

  // ----- texts in a table -----

  lemma {:induction false} JoinContains(parts: seq<string>, c: char, k: nat, t: string)
    requires k < |parts| && Contains(parts[k], t)
    ensures Contains(Join(parts, c), t)
  {
    if |parts| > 1 {
      assert parts == [parts[0]] + parts[1..];
      JoinCons(parts[0], parts[1..], c);
      if k == 0 {
        ContainsWithin("", parts[0], [c] + Join(parts[1..], c), t);
        assert "" + parts[0] + ([c] + Join(parts[1..], c)) == Join(parts, c);
      } else {
        JoinContains(parts[1..], c, k - 1, t);
        ContainsWithin(parts[0] + [c], Join(parts[1..], c), "", t);
        assert parts[0] + [c] + Join(parts[1..], c) + "" == Join(parts, c);
      }
    }
  }

  lemma TableContains<T>(layout: Layout<T>, records: seq<T>, i: nat, t: string)
    requires i < |records| && Contains(layout.line(records[i]), t)
    ensures Contains(TableText(layout, records), t)
  {
    var lines := [layout.head] + Map(records, layout.line);
    assert lines[i + 1] == layout.line(records[i]);
    JoinContains(lines, '\n', i + 1, t);
    TableJoined(layout, records);
    ContainsWithin("", Join(lines, '\n'), ['\n'], t);
    assert "" + Join(lines, '\n') + ['\n'] == TableText(layout, records);
  }

  lemma ColumnContained(cols: seq<string>, k: nat)
    requires k < |cols|
    ensures Contains(RowText(cols), cols[k])
  {
    assert OccursAt(cols[k], cols[k], 0);
    JoinContains(cols, '\t', k, cols[k]);
  }

  // ----- what readers take from a table -----

  // The first of the texts that does not occur in the header line.
  function FirstAbsent(required: seq<string>, line: string): (r: Option<string>)
    ensures r.None? <==> forall t | t in required :: Contains(line, t)
    ensures r.Some? ==> exists k | 0 <= k < |required| ::
                          required[k] == r.value && !Contains(line, r.value)
                          && forall j | 0 <= j < k :: Contains(line, required[j])
  {
    if required == [] then None
    else if !Contains(line, required[0]) then Some(required[0])
    else FirstAbsent(required[1..], line)
  }

  method FindAbsent(required: seq<string>, line: string) returns (absent: Option<string>)
    ensures absent == FirstAbsent(required, line)
  {
    for k := 0 to |required|
      invariant FirstAbsent(required, line) == FirstAbsent(required[k..], line)
    {
      if !Contains(line, required[k]) {
        return Some(required[k]);
      }
      WithinSuffix(required, k, 1, 1);
    }
    return None;
  }

  // The records of the lines that parse, in order; the others are passed over.
  function ReadLines<T>(lines: seq<string>, parse: string -> Option<T>): seq<T> {
    if lines == [] then []
    else
      var last := parse(lines[|lines| - 1]);
      ReadLines(lines[..|lines| - 1], parse) + (if last.Some? then [last.value] else [])
  }

  lemma ReadNext<T>(lines: seq<string>, parse: string -> Option<T>, i: nat)
    requires i < |lines|
    ensures ReadLines(lines[..i + 1], parse) ==
            ReadLines(lines[..i], parse) + (if parse(lines[i]).Some? then [parse(lines[i]).value] else [])
  {
    assert lines[..i + 1][..i] == lines[..i];
  }

  lemma {:induction false} ReadAll<T>(lines: seq<string>, parse: string -> Option<T>, records: seq<T>)
    requires |records| == |lines| && forall i | 0 <= i < |lines| :: parse(lines[i]) == Some(records[i])
    ensures ReadLines(lines, parse) == records
  {
    if lines != [] {
      var n := |lines| - 1;
      ReadAll(lines[..n], parse, records[..n]);
      assert records == records[..n] + [records[n]];
    }
  }
}

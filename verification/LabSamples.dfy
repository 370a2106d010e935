/** The memory samples of a lab run: the table the runner writes, its check, and its rows read back. */
module LabSamples {
  import opened Sequences
  import opened Text
  import opened LabTables

  // A memory sample as it is analysed: elapsed seconds and resident set in KiB.
  type Sample = (int, int)

  // What /proc says of the child's memory.
  datatype Memory = Memory(rss: int, data: int, hwm: int, swap: int, peak: int)

  // A sample with the time of day at which it was appended.
  datatype SampleRow = SampleRow(stamp: string, elapsed: int, memory: Memory)

  const SAMPLE_HEADER :=
    ["timestamp", "elapsed_sec", "rss_kib", "vmdata_kib", "vmhwm_kib", "vmswap_kib", "vmpeak_kib", "vmrss_peak_kib"]
  const REQUIRED_SAMPLE_COLUMNS := ["timestamp", "elapsed_sec", "rss_kib", "vmdata_kib"]

  // The high-water mark is written twice.
  function SampleColumns(r: SampleRow): seq<string> {
    var m := r.memory;
    [r.stamp, IntText(r.elapsed), IntText(m.rss), IntText(m.data), IntText(m.hwm), IntText(m.swap), IntText(m.peak),
     IntText(m.hwm)]
  }

  // Every column stands under its name; the high-water mark stands twice.
  lemma SampleColumnsNamed(r: SampleRow)
    ensures var h, cols := SAMPLE_HEADER, SampleColumns(r);
            && |h| == |cols| == 8 && h[0] == "timestamp" && cols[0] == r.stamp
            && h[1] == "elapsed_sec" && cols[1] == IntText(r.elapsed)
            && h[2] == "rss_kib" && cols[2] == IntText(r.memory.rss)
            && h[3] == "vmdata_kib" && cols[3] == IntText(r.memory.data)
            && h[4] == "vmhwm_kib" && h[7] == "vmrss_peak_kib" && cols[4] == cols[7] == IntText(r.memory.hwm)
            && h[5] == "vmswap_kib" && cols[5] == IntText(r.memory.swap)
            && h[6] == "vmpeak_kib" && cols[6] == IntText(r.memory.peak)
  {}

  function SampleLine(r: SampleRow): string { RowText(SampleColumns(r)) }

  const SAMPLES := Layout(RowText(SAMPLE_HEADER), SampleLine)

  function SamplesText(rows: seq<SampleRow>): string { TableText(SAMPLES, rows) }

  // ----- verify_memory_samples -----

  datatype SamplesError =
    | SamplesFileMissing
    | NoSampleRows
    | NoSampleColumn(column: string)
    | SampleColumnCount(line: nat)
    | NegativeRss(line: nat)

  function PositionOf(columns: seq<string>, name: string): (k: nat)
    ensures k <= |columns| && (k < |columns| ==> columns[k] == name)
    ensures name !in columns[..k]
  {
    if columns == [] || columns[0] == name then 0 else 1 + PositionOf(columns[1..], name)
  }

  // A resident set that is no number is let through, as is a table without the exact column.
  predicate RssNegative(header: seq<string>, cols: seq<string>) {
    var k := PositionOf(header, "rss_kib");
    k < |header| && k < |cols| && var rss := IntColumn(cols[k]); rss.Some? && rss.value < 0
  }

  function CheckSampleRows(lines: seq<string>, header: seq<string>, lineNum: nat): Option<SamplesError> {
    if lines == [] then None
    else
      var cols := Split(lines[0], '\t');
      if |cols| != |header| then Some(SampleColumnCount(lineNum))
      else if RssNegative(header, cols) then Some(NegativeRss(lineNum))
      else CheckSampleRows(lines[1..], header, lineNum + 1)
  }

  function CheckSamples(content: string): Option<SamplesError> {
    var lines := LinesOf(content);
    var absent := FirstAbsent(REQUIRED_SAMPLE_COLUMNS, lines[0]);
    if |lines| < 2 then Some(NoSampleRows)
    else if absent.Some? then Some(NoSampleColumn(absent.value))
    else CheckSampleRows(lines[1..], Split(lines[0], '\t'), 2)
  }

  method VerifyMemorySamples(content: string) returns (error: Option<SamplesError>)
    ensures error == CheckSamples(content)
  {
    var lines := LinesOf(content);
    if |lines| < 2 {
      return Some(NoSampleRows);
    }
    var absent := FindAbsent(REQUIRED_SAMPLE_COLUMNS, lines[0]);
    if absent.Some? {
      return Some(NoSampleColumn(absent.value));
    }
    var header := Split(lines[0], '\t');
    for i := 1 to |lines|
      invariant CheckSampleRows(lines[1..], header, 2) == CheckSampleRows(lines[i..], header, i + 1)
    {
      WithinSuffix(lines, i, 1, 1);
      var cols := Split(lines[i], '\t');
      if |cols| != |header| {
        return Some(SampleColumnCount(i + 1));
      }
      var k := PositionOf(header, "rss_kib");
      if k < |header| {
        var rss := IntColumn(cols[k]);
        if rss.Some? && rss.value < 0 {
          return Some(NegativeRss(i + 1));
        }
      }
    }
    return None;
  }

  // As wide as the header, and no negative number in the first column called rss_kib.
  ghost predicate GoodSampleLine(line: string, header: seq<string>) {
    var cols := Split(line, '\t');
    && |cols| == |header|
    && forall k | 0 <= k < |header| && header[k] == "rss_kib" && "rss_kib" !in header[..k] ::
         IntColumn(cols[k]).None? || IntColumn(cols[k]).value >= 0
  }

  lemma RssColumn(header: seq<string>, j: nat)
    requires j < |header| && header[j] == "rss_kib" && "rss_kib" !in header[..j]
    ensures PositionOf(header, "rss_kib") == j
  {
    var k := PositionOf(header, "rss_kib");
    if j < k { InPrefix(header, j, k); }
    if k < j { InPrefix(header, k, j); }
  }

  lemma GoodSampleLineIff(line: string, header: seq<string>)
    ensures var cols := Split(line, '\t');
            GoodSampleLine(line, header) <==> |cols| == |header| && !RssNegative(header, cols)
  {
    var k := PositionOf(header, "rss_kib");
    forall j | 0 <= j < |header| && header[j] == "rss_kib" && "rss_kib" !in header[..j] ensures j == k {
      RssColumn(header, j);
    }
  }

  // The error is that of line i, the first bad one, counted from first.
  ghost predicate FirstBadLine(lines: seq<string>, header: seq<string>, first: nat, e: SamplesError, i: nat)
    requires i < |lines|
  {
    && !GoodSampleLine(lines[i], header) && (forall j | 0 <= j < i :: GoodSampleLine(lines[j], header))
    && e == (if |Split(lines[i], '\t')| != |header| then SampleColumnCount(first + i) else NegativeRss(first + i))
  }

  lemma {:induction false} SampleLinesExactly(lines: seq<string>, header: seq<string>, first: nat)
    ensures CheckSampleRows(lines, header, first).None? <==>
            forall i | 0 <= i < |lines| :: GoodSampleLine(lines[i], header)
    ensures CheckSampleRows(lines, header, first).Some? ==>
              exists i | 0 <= i < |lines| ::
                FirstBadLine(lines, header, first, CheckSampleRows(lines, header, first).value, i)
    decreases |lines|
  {
    if lines != [] {
      GoodSampleLineIff(lines[0], header);
      if GoodSampleLine(lines[0], header) {
        var e := CheckSampleRows(lines, header, first);
        SampleLinesExactly(lines[1..], header, first + 1);
        assert forall i | 0 <= i < |lines| :: i > 0 ==> lines[i] == lines[1..][i - 1];
        if e.Some? {
          var i :| 0 <= i < |lines[1..]| && FirstBadLine(lines[1..], header, first + 1, e.value, i);
          assert FirstBadLine(lines, header, first, e.value, i + 1);
        }
      } else {
        assert FirstBadLine(lines, header, first, CheckSampleRows(lines, header, first).value, 0);
      }
    }
  }

  // What any text must be for its samples to be accepted.
  ghost predicate GoodSamples(content: string) {
    var lines := LinesOf(content);
    && |lines| >= 2
    && Contains(lines[0], "timestamp") && Contains(lines[0], "elapsed_sec") && Contains(lines[0], "rss_kib")
    && Contains(lines[0], "vmdata_kib")
    && forall i | 1 <= i < |lines| :: GoodSampleLine(lines[i], Split(lines[0], '\t'))
  }

  lemma SampleColumnsFound(header: string)
    ensures FirstAbsent(REQUIRED_SAMPLE_COLUMNS, header).None? <==>
            && Contains(header, "timestamp") && Contains(header, "elapsed_sec") && Contains(header, "rss_kib")
            && Contains(header, "vmdata_kib")
  {
    assert forall t :: t in REQUIRED_SAMPLE_COLUMNS <==>
                       t == "timestamp" || t == "elapsed_sec" || t == "rss_kib" || t == "vmdata_kib";
  }

  lemma AllGoodBehind(lines: seq<string>, header: seq<string>)
    requires lines != []
    ensures (forall i | 1 <= i < |lines| :: GoodSampleLine(lines[i], header)) <==>
            forall i | 0 <= i < |lines[1..]| :: GoodSampleLine(lines[1..][i], header)
  {
    assert forall i | 1 <= i < |lines| :: lines[i] == lines[1..][i - 1];
    assert forall i | 0 <= i < |lines[1..]| :: lines[1..][i] == lines[i + 1];
  }

  // Main result, for every text; a bad line is reported by its number in the file.
  lemma SamplesExactly(content: string)
    ensures CheckSamples(content).None? <==> GoodSamples(content)
    ensures var e, lines := CheckSamples(content), LinesOf(content);
            e.Some? && (e.value.SampleColumnCount? || e.value.NegativeRss?) ==>
              |lines| >= 2
              && exists i | 0 <= i < |lines[1..]| :: FirstBadLine(lines[1..], Split(lines[0], '\t'), 2, e.value, i)
  {
    var lines := LinesOf(content);
    SampleColumnsFound(lines[0]);
    if |lines| >= 2 {
      SampleLinesExactly(lines[1..], Split(lines[0], '\t'), 2);
      AllGoodBehind(lines, Split(lines[0], '\t'));
    }
  }

  // ----- the samples read back -----

  function SampleOfLine(line: string): Option<Sample> {
    var cols := Split(line, '\t');
    if |cols| < 3 || IntColumn(cols[1]).None? || IntColumn(cols[2]).None? then None
    else Some((IntColumn(cols[1]).value, IntColumn(cols[2]).value))
  }

  // The samples of a file, before those without a resident set are dropped.
  function SamplesIn(content: string): seq<Sample> { ReadLines(LinesOf(content)[1..], SampleOfLine) }

  function SampleOf(r: SampleRow): Sample { (r.elapsed, r.memory.rss) }

  ghost predicate CleanSamples(rows: seq<SampleRow>) { forall i | 0 <= i < |rows| :: CleanField(rows[i].stamp) }

  lemma SampleHeader()
    ensures CleanColumns(SAMPLE_HEADER) && !PySpace(SAMPLE_HEADER[0][0])
  {}

  lemma RssPosition()
    ensures PositionOf(SAMPLE_HEADER, "rss_kib") == 2
  {
    var tail := SAMPLE_HEADER[1..];
    assert SAMPLE_HEADER[0] == "timestamp" && tail[0] == "elapsed_sec" && tail[1..][0] == "rss_kib";
    assert "timestamp"[0] == 't' && "elapsed_sec"[0] == 'e' && "rss_kib"[0] == 'r';
  }

  // The names of all columns occur in the header line.
  lemma HeaderNames(header: seq<string>, required: seq<string>)
    requires forall t | t in required :: t in header
    ensures FirstAbsent(required, RowText(header)).None?
  {
    forall t | t in required ensures Contains(RowText(header), t) {
      var k :| 0 <= k < |header| && header[k] == t;
      ColumnContained(header, k);
    }
  }

  lemma SampleNames()
    ensures forall t | t in REQUIRED_SAMPLE_COLUMNS :: t in SAMPLE_HEADER
  {
    assert SAMPLE_HEADER[0] in SAMPLE_HEADER && SAMPLE_HEADER[1] in SAMPLE_HEADER && SAMPLE_HEADER[2] in SAMPLE_HEADER
           && SAMPLE_HEADER[3] in SAMPLE_HEADER;
  }

  lemma SampleRowClean(r: SampleRow)
    requires CleanField(r.stamp)
    ensures CleanColumns(SampleColumns(r))
  {
    IntTextClean(r.elapsed);
    IntTextClean(r.memory.rss);
    IntTextClean(r.memory.data);
    IntTextClean(r.memory.hwm);
    IntTextClean(r.memory.swap);
    IntTextClean(r.memory.peak);
    var cols := SampleColumns(r);
    assert CleanField(cols[0]) && CleanField(cols[1]) && CleanField(cols[2]) && CleanField(cols[3]);
    assert CleanField(cols[4]) && CleanField(cols[5]) && CleanField(cols[6]) && CleanField(cols[7]);
  }

  lemma SampleRowEnd(r: SampleRow)
    ensures var cols := SampleColumns(r); var end := cols[|cols| - 1]; end != "" && !PySpace(end[|end| - 1])
  {
    IntTextEnd(r.memory.hwm);
  }

  lemma SampleRowReads(r: SampleRow, line: string)
    requires Split(line, '\t') == SampleColumns(r)
    ensures SampleOfLine(line) == Some(SampleOf(r))
    ensures RssNegative(SAMPLE_HEADER, SampleColumns(r)) <==> r.memory.rss < 0
  {
    RssPosition();
    IntColumnReads(r.elapsed);
    IntColumnReads(r.memory.rss);
  }

  lemma SamplesSplit(rows: seq<SampleRow>)
    requires CleanSamples(rows) && rows != []
    ensures LinesOf(SamplesText(rows)) == TableLines(SAMPLE_HEADER, Map(rows, SampleColumns))
    ensures Split(RowText(SAMPLE_HEADER), '\t') == SAMPLE_HEADER
    ensures forall i | 0 <= i < |rows| ::
              Split(LinesOf(SamplesText(rows))[i + 1], '\t') == SampleColumns(rows[i])
  {
    var table := Map(rows, SampleColumns);
    SampleHeader();
    forall i | 0 <= i < |table| ensures CleanColumns(table[i]) { SampleRowClean(rows[i]); }
    SampleRowEnd(rows[|rows| - 1]);
    TableSplits(SAMPLES, rows, SAMPLE_HEADER, table);
  }

  // Main result. The samples a run wrote read back as they were taken.
  lemma SamplesRoundTrip(rows: seq<SampleRow>)
    requires CleanSamples(rows) && rows != []
    ensures SamplesIn(SamplesText(rows)) == Map(rows, SampleOf)
  {
    SamplesSplit(rows);
    var lines := LinesOf(SamplesText(rows))[1..];
    forall i | 0 <= i < |lines| ensures SampleOfLine(lines[i]) == Some(SampleOf(rows[i])) {
      SampleRowReads(rows[i], lines[i]);
    }
    ReadAll(lines, SampleOfLine, Map(rows, SampleOf));
  }

  ghost predicate NonNegative(rows: seq<SampleRow>) { forall i | 0 <= i < |rows| :: rows[i].memory.rss >= 0 }

  lemma CheckSampleStep(r: SampleRow, lines: seq<string>, lineNum: nat)
    requires lines != [] && Split(lines[0], '\t') == SampleColumns(r)
    ensures CheckSampleRows(lines, SAMPLE_HEADER, lineNum) ==
            if r.memory.rss < 0 then Some(NegativeRss(lineNum))
            else CheckSampleRows(lines[1..], SAMPLE_HEADER, lineNum + 1)
  {
    SampleRowReads(r, lines[0]);
    assert |SAMPLE_HEADER| == 8;
  }

  lemma {:induction false} CheckReadSamples(rows: seq<SampleRow>, lines: seq<string>, lineNum: nat)
    requires |lines| == |rows| && forall i | 0 <= i < |rows| :: Split(lines[i], '\t') == SampleColumns(rows[i])
    ensures CheckSampleRows(lines, SAMPLE_HEADER, lineNum).None? <==> NonNegative(rows)
    decreases |rows|
  {
    if rows != [] {
      CheckSampleStep(rows[0], lines, lineNum);
      CheckReadSamples(rows[1..], lines[1..], lineNum + 1);
      assert forall i | 1 <= i < |rows| :: rows[i] == rows[1..][i - 1];
    }
  }

  lemma CheckSplitSamples(content: string, header: seq<string>)
    requires |LinesOf(content)| >= 2 && LinesOf(content)[0] == RowText(header)
    requires FirstAbsent(REQUIRED_SAMPLE_COLUMNS, RowText(header)).None?
    ensures CheckSamples(content) == CheckSampleRows(LinesOf(content)[1..], Split(RowText(header), '\t'), 2)
  {}

  // Main result. The verifier accepts the written samples exactly when none has a negative
  // resident set.
  lemma WrittenSamples(rows: seq<SampleRow>)
    requires CleanSamples(rows) && rows != []
    ensures CheckSamples(SamplesText(rows)).None? <==> NonNegative(rows)
  {
    SamplesSplit(rows);
    SampleNames();
    HeaderNames(SAMPLE_HEADER, REQUIRED_SAMPLE_COLUMNS);
    var content := SamplesText(rows);
    CheckSplitSamples(content, SAMPLE_HEADER);
    CheckReadSamples(rows, LinesOf(content)[1..], 2);
  }
}

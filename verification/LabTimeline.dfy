/** The shell-side event timeline as text: its rows, and the two checks the verifier makes of it. */
module LabTimeline {
  import opened Sequences
  import opened Text
  import opened LabTables

  datatype Entry = Entry(elapsed: int, event: string, subsystem: string, detail: string)

  // An entry with the time of day at which it was appended.
  datatype Row = Row(stamp: string, entry: Entry)

  const HEADER := ["timestamp", "elapsed_sec", "event", "subsystem", "detail"]
  const REQUIRED_COLUMNS := ["timestamp", "elapsed_sec", "event", "subsystem"]
  const TERMINAL_EVENTS := ["idle_complete", "shutdown", "lab_failed"]

  function Columns(r: Row): seq<string> {
    [r.stamp, IntText(r.entry.elapsed), r.entry.event, r.entry.subsystem, r.entry.detail]
  }

  function RowLine(r: Row): string { RowText(Columns(r)) }

  const TIMELINE := Layout(RowText(HEADER), RowLine)

  // The file after its header and the given rows have been written.
  function TimelineText(rows: seq<Row>): string { TableText(TIMELINE, rows) }

  // ----- verify_event_timeline -----

  datatype TimelineError =
    | MissingColumn(column: string)
    | NoDataRows
    | WrongColumnCount(line: nat)
    | NoLabStarted
    | NoTerminalEvent

  function FirstMissing(required: seq<string>, columns: seq<string>): (r: Option<string>)
    ensures r.None? <==> forall c | c in required :: c in columns
    ensures r.Some? ==> exists k | 0 <= k < |required| ::
                          required[k] == r.value && r.value !in columns
                          && forall j | 0 <= j < k :: required[j] in columns
  {
    if required == [] then None
    else if required[0] !in columns then Some(required[0])
    else FirstMissing(required[1..], columns)
  }

  function CheckRows(lines: seq<string>, width: nat, lineNum: nat, started: bool, terminal: bool)
    : Option<TimelineError>
    decreases |lines|
  {
    if lines == [] then
      if !started then Some(NoLabStarted) else if !terminal then Some(NoTerminalEvent) else None
    else
      var cols := Split(lines[0], '\t');
      if |cols| != width then Some(WrongColumnCount(lineNum))
      else
        var event := if |cols| >= 3 then cols[2] else "";
        CheckRows(lines[1..], width, lineNum + 1,
                  started || (|cols| >= 3 && event == "lab_started"),
                  terminal || (|cols| >= 3 && event in TERMINAL_EVENTS))
  }

  function CheckTimeline(content: string): Option<TimelineError> {
    var lines := LinesOf(content);
    var header := Split(lines[0], '\t');
    var missing := FirstMissing(REQUIRED_COLUMNS, header);
    if missing.Some? then Some(MissingColumn(missing.value))
    else if |lines| < 2 then Some(NoDataRows)
    else CheckRows(lines[1..], |header|, 2, false, false)
  }

  method VerifyEventTimeline(content: string) returns (error: Option<TimelineError>)
    ensures error == CheckTimeline(content)
  {
    var lines := LinesOf(content);
    var header := Split(lines[0], '\t');
    var missing := FindMissing(REQUIRED_COLUMNS, header);
    if missing.Some? {
      return Some(MissingColumn(missing.value));
    }
    if |lines| < 2 {
      return Some(NoDataRows);
    }
    error := VerifyRows(lines, |header|);
  }

  method FindMissing(required: seq<string>, columns: seq<string>) returns (missing: Option<string>)
    ensures missing == FirstMissing(required, columns)
  {
    for k := 0 to |required|
      invariant FirstMissing(required, columns) == FirstMissing(required[k..], columns)
    {
      if required[k] !in columns {
        return Some(required[k]);
      }
      WithinSuffix(required, k, 1, 1);
    }
    return None;
  }

  method VerifyRows(lines: seq<string>, width: nat) returns (error: Option<TimelineError>)
    requires |lines| >= 2
    ensures error == CheckRows(lines[1..], width, 2, false, false)
  {
    var hasLabStarted, hasTerminal := false, false;
    for i := 1 to |lines|
      invariant CheckRows(lines[1..], width, 2, false, false)
             == CheckRows(lines[i..], width, i + 1, hasLabStarted, hasTerminal)
    {
      WithinSuffix(lines, i, 1, 1);
      var cols := Split(lines[i], '\t');
      if |cols| != width {
        return Some(WrongColumnCount(i + 1));
      }
      if |cols| >= 3 {
        if cols[2] == "lab_started" {
          hasLabStarted := true;
        }
        if cols[2] in TERMINAL_EVENTS {
          hasTerminal := true;
        }
      }
    }
    if !hasLabStarted {
      return Some(NoLabStarted);
    }
    if !hasTerminal {
      return Some(NoTerminalEvent);
    }
    return None;
  }

  // Some row of three columns or more has one of these events.
  ghost predicate SomeEvent(lines: seq<string>, events: set<string>) {
    exists i | 0 <= i < |lines| :: |Split(lines[i], '\t')| >= 3 && Split(lines[i], '\t')[2] in events
  }

  ghost predicate AllWide(lines: seq<string>, width: nat) {
    forall i | 0 <= i < |lines| :: |Split(lines[i], '\t')| == width
  }

  ghost predicate FirstNarrow(lines: seq<string>, width: nat, i: nat)
    requires i < |lines|
  {
    |Split(lines[i], '\t')| != width && AllWide(lines[..i], width)
  }

  lemma SomeEventCons(lines: seq<string>, events: set<string>)
    requires lines != []
    ensures SomeEvent(lines, events) <==>
            (|Split(lines[0], '\t')| >= 3 && Split(lines[0], '\t')[2] in events) || SomeEvent(lines[1..], events)
  {
    assert forall i | 0 <= i < |lines| :: i > 0 ==> lines[i] == lines[1..][i - 1];
    assert forall i | 0 <= i < |lines[1..]| :: lines[1..][i] == lines[i + 1];
  }

  lemma NarrowLater(lines: seq<string>, width: nat, i: nat)
    requires lines != [] && i < |lines[1..]| && FirstNarrow(lines[1..], width, i) && |Split(lines[0], '\t')| == width
    ensures FirstNarrow(lines, width, i + 1)
  {
    assert lines[..i + 1] == [lines[0]] + lines[1..][..i];
  }

  // The first row of another width is reported by its number, and only then a missing event.
  ghost predicate RowsOutcome(lines: seq<string>, width: nat, first: nat, started: bool, terminal: bool,
                              e: Option<TimelineError>)
  {
    if AllWide(lines, width) then
      e == if !(started || SomeEvent(lines, {"lab_started"})) then Some(NoLabStarted)
           else if !(terminal || SomeEvent(lines, {"idle_complete", "shutdown", "lab_failed"})) then
             Some(NoTerminalEvent)
           else None
    else exists i | 0 <= i < |lines| :: FirstNarrow(lines, width, i) && e == Some(WrongColumnCount(first + i))
  }

  lemma {:induction false} RowsExactly(lines: seq<string>, width: nat, first: nat, started: bool, terminal: bool)
    ensures RowsOutcome(lines, width, first, started, terminal, CheckRows(lines, width, first, started, terminal))
    decreases |lines|
  {
    if lines != [] {
      var cols := Split(lines[0], '\t');
      AllWideCons(lines, width);
      if |cols| != width {
        assert FirstNarrow(lines, width, 0);
      } else {
        var started' := started || (|cols| >= 3 && cols[2] == "lab_started");
        var terminal' := terminal || (|cols| >= 3 && cols[2] in TERMINAL_EVENTS);
        RowsExactly(lines[1..], width, first + 1, started', terminal');
        RowsBehind(lines, width, first, started, terminal, CheckRows(lines, width, first, started, terminal));
      }
    }
  }

  lemma RowsBehind(lines: seq<string>, width: nat, first: nat, started: bool, terminal: bool,
                   e: Option<TimelineError>)
    requires lines != [] && |Split(lines[0], '\t')| == width
    requires var cols := Split(lines[0], '\t');
             RowsOutcome(lines[1..], width, first + 1, started || (|cols| >= 3 && cols[2] == "lab_started"),
                         terminal || (|cols| >= 3 && cols[2] in TERMINAL_EVENTS), e)
    ensures RowsOutcome(lines, width, first, started, terminal, e)
  {
    AllWideCons(lines, width);
    if AllWide(lines, width) {
      SomeEventCons(lines, {"lab_started"});
      SomeEventCons(lines, {"idle_complete", "shutdown", "lab_failed"});
    } else {
      var i :| 0 <= i < |lines[1..]| && FirstNarrow(lines[1..], width, i) && e == Some(WrongColumnCount(first + 1 + i));
      NarrowLater(lines, width, i);
    }
  }

  lemma AllWideCons(lines: seq<string>, width: nat)
    requires lines != []
    ensures AllWide(lines, width) <==> |Split(lines[0], '\t')| == width && AllWide(lines[1..], width)
  {
    assert forall i | 0 <= i < |lines| :: i > 0 ==> lines[i] == lines[1..][i - 1];
  }

  // What any text must be for its timeline to be accepted.
  ghost predicate GoodTimeline(content: string) {
    var lines := LinesOf(content);
    var header := Split(lines[0], '\t');
    && |lines| >= 2
    && "timestamp" in header && "elapsed_sec" in header && "event" in header && "subsystem" in header
    && AllWide(lines[1..], |header|)
    && SomeEvent(lines[1..], {"lab_started"})
    && SomeEvent(lines[1..], {"idle_complete", "shutdown", "lab_failed"})
  }

  lemma ColumnsFound(header: seq<string>)
    ensures FirstMissing(REQUIRED_COLUMNS, header).None? <==>
            "timestamp" in header && "elapsed_sec" in header && "event" in header && "subsystem" in header
  {
    assert forall t :: t in REQUIRED_COLUMNS <==>
                       t == "timestamp" || t == "elapsed_sec" || t == "event" || t == "subsystem";
  }

  // Main result, for every text; a row of another width is reported by its number in the file.
  lemma TimelineExactly(content: string)
    ensures CheckTimeline(content).None? <==> GoodTimeline(content)
    ensures var e, lines := CheckTimeline(content), LinesOf(content);
            e.Some? && e.value.WrongColumnCount? ==>
              |lines| >= 2
              && exists i | 0 <= i < |lines[1..]| ::
                   FirstNarrow(lines[1..], |Split(lines[0], '\t')|, i) && e == Some(WrongColumnCount(2 + i))
  {
    var lines := LinesOf(content);
    var header := Split(lines[0], '\t');
    ColumnsFound(header);
    if |lines| >= 2 && FirstMissing(REQUIRED_COLUMNS, header).None? {
      CheckSplitRows(content, header);
      RowsExactly(lines[1..], |header|, 2, false, false);
    }
  }

  // ----- is_shell_synthetic_artifact -----

  const SYNTHETIC_PREFIXES := ["heartbeat_", "wg_", "bgp_", "bfd_"]

  predicate StartsWithAny(s: string, prefixes: seq<string>) { exists p | p in prefixes :: p <= s }

  predicate SyntheticLine(line: string) {
    var cols := Split(line, '\t');
    |cols| >= 4 &&
    ((cols[3] == "lab" && StartsWithAny(cols[2], SYNTHETIC_PREFIXES))
     || Contains(Lower(cols[2]), "synthetic") || Contains(Lower(cols[2]), "shell-side"))
  }

  predicate ShellSynthetic(content: string) {
    Contains(content, "subsystem_config")
    || var lines := LinesOf(content);
       exists line | line in lines[1..] :: SyntheticLine(line)
  }

  method IsShellSyntheticArtifact(content: string) returns (synthetic: bool)
    ensures synthetic == ShellSynthetic(content)
  {
    if Contains(content, "subsystem_config") {
      return true;
    }
    var lines := LinesOf(content);
    for i := 1 to |lines|
      invariant forall k | 1 <= k < i :: !SyntheticLine(lines[k])
    {
      var cols := Split(lines[i], '\t');
      if |cols| >= 4 {
        if (cols[3] == "lab" && StartsWithAny(cols[2], SYNTHETIC_PREFIXES))
           || Contains(Lower(cols[2]), "synthetic") || Contains(Lower(cols[2]), "shell-side") {
          assert lines[1..][i - 1] == lines[i] && SyntheticLine(lines[i]);
          return true;
        }
      }
    }
    assert forall line | line in lines[1..] :: !SyntheticLine(line);
    return false;
  }

  // A row that marks a timeline as made by the shell.
  ghost predicate MarkingColumns(cols: seq<string>) {
    |cols| >= 4
    && var event := cols[2];
       || (cols[3] == "lab" && ("heartbeat_" <= event || "wg_" <= event || "bgp_" <= event || "bfd_" <= event))
       || Contains(Lower(event), "synthetic") || Contains(Lower(event), "shell-side")
  }

  // The marker anywhere, or such a row.
  ghost predicate Marked(content: string) {
    var lines := LinesOf(content);
    || Contains(content, "subsystem_config")
    || exists i | 1 <= i < |lines| :: MarkingColumns(Split(lines[i], '\t'))
  }

  // Which texts are taken for shell-side.
  lemma ShellSyntheticIff(content: string)
    ensures ShellSynthetic(content) <==> Marked(content)
  {
    var lines := LinesOf(content);
    forall i | 1 <= i < |lines| ensures SyntheticLine(lines[i]) <==> MarkingColumns(Split(lines[i], '\t')) {
      PrefixesIff(if |Split(lines[i], '\t')| >= 4 then Split(lines[i], '\t')[2] else "");
    }
    if line :| line in lines[1..] && SyntheticLine(line) {
      var i :| 0 <= i < |lines[1..]| && lines[1..][i] == line;
      assert lines[i + 1] == line;
    }
    if i :| 1 <= i < |lines| && MarkingColumns(Split(lines[i], '\t')) {
      assert lines[1..][i - 1] == lines[i] && SyntheticLine(lines[i]);
    }
  }

  lemma PrefixesIff(event: string)
    ensures StartsWithAny(event, SYNTHETIC_PREFIXES) <==>
            "heartbeat_" <= event || "wg_" <= event || "bgp_" <= event || "bfd_" <= event
  {
    var ps := SYNTHETIC_PREFIXES;
    assert ps == ["heartbeat_", "wg_", "bgp_", "bfd_"];
    assert ps[0] in ps && ps[1] in ps && ps[2] in ps && ps[3] in ps;
  }

  // ----- rows written and read back -----

  predicate CleanEntry(e: Entry) { CleanField(e.event) && CleanField(e.subsystem) && CleanField(e.detail) }

  predicate CleanRow(r: Row) { CleanField(r.stamp) && CleanEntry(r.entry) }

  ghost predicate CleanRows(rows: seq<Row>) { forall i | 0 <= i < |rows| :: CleanRow(rows[i]) }

  // The last row must not end in white space, or trimming the file eats its last column.
  ghost predicate TightEnd(rows: seq<Row>) {
    rows != [] && var d := rows[|rows| - 1].entry.detail; d != "" && !PySpace(d[|d| - 1])
  }

  lemma HeaderClean()
    ensures CleanColumns(HEADER) && !PySpace(HEADER[0][0])
  {}

  lemma RowClean(r: Row)
    requires CleanRow(r)
    ensures CleanColumns(Columns(r))
  {
    IntTextClean(r.entry.elapsed);
  }

  lemma TimelineClean(rows: seq<Row>)
    requires CleanRows(rows) && TightEnd(rows)
    ensures CleanTable(HEADER, Map(rows, Columns)) && Tight(HEADER, Map(rows, Columns))
  {
    var table := Map(rows, Columns);
    HeaderClean();
    forall i | 0 <= i < |table| ensures CleanColumns(table[i]) { RowClean(rows[i]); }
  }

  lemma TimelineLaidOut(rows: seq<Row>)
    ensures LaidOut(TIMELINE, rows, HEADER, Map(rows, Columns))
  {}

  // The verifier sees exactly the header and the rows that were written.
  lemma TimelineSplits(rows: seq<Row>)
    requires CleanRows(rows) && TightEnd(rows)
    ensures LinesOf(TimelineText(rows)) == TableLines(HEADER, Map(rows, Columns))
    ensures Split(RowText(HEADER), '\t') == HEADER
    ensures forall i | 0 <= i < |rows| :: Split(TableLines(HEADER, Map(rows, Columns))[i + 1], '\t') == Columns(rows[i])
  {
    TimelineClean(rows);
    TimelineLaidOut(rows);
    TableSplits(TIMELINE, rows, HEADER, Map(rows, Columns));
  }

  predicate HasEvent(rows: seq<Row>, names: seq<string>) {
    exists i | 0 <= i < |rows| :: rows[i].entry.event in names
  }

  // How CheckRows reads a row and goes on.
  lemma CheckRowsStep(lines: seq<string>, r: Row, lineNum: nat, started: bool, terminal: bool)
    requires lines != [] && Split(lines[0], '\t') == Columns(r)
    ensures CheckRows(lines, 5, lineNum, started, terminal) ==
            CheckRows(lines[1..], 5, lineNum + 1,
                      started || r.entry.event in ["lab_started"], terminal || r.entry.event in TERMINAL_EVENTS)
  {}

  lemma {:induction false} CheckReadRows(rows: seq<Row>, lines: seq<string>, lineNum: nat,
                                         started: bool, terminal: bool)
    requires |lines| == |rows| && forall i | 0 <= i < |rows| :: Split(lines[i], '\t') == Columns(rows[i])
    ensures CheckRows(lines, 5, lineNum, started, terminal) ==
            if !started && !HasEvent(rows, ["lab_started"]) then Some(NoLabStarted)
            else if !terminal && !HasEvent(rows, TERMINAL_EVENTS) then Some(NoTerminalEvent)
            else None
    decreases |rows|
  {
    if rows != [] {
      var event := rows[0].entry.event;
      CheckRowsStep(lines, rows[0], lineNum, started, terminal);
      CheckReadRows(rows[1..], lines[1..], lineNum + 1,
                    started || event in ["lab_started"], terminal || event in TERMINAL_EVENTS);
      HasEventCons(rows, ["lab_started"]);
      HasEventCons(rows, TERMINAL_EVENTS);
    }
  }

  lemma HasEventCons(rows: seq<Row>, names: seq<string>)
    requires rows != []
    ensures HasEvent(rows, names) <==> rows[0].entry.event in names || HasEvent(rows[1..], names)
  {
    assert forall i | 0 <= i < |rows[1..]| :: rows[1..][i] == rows[i + 1];
    assert forall i | 1 <= i < |rows| :: rows[i] == rows[1..][i - 1];
  }

  lemma HeaderComplete()
    ensures FirstMissing(REQUIRED_COLUMNS, HEADER).None? && |HEADER| == 5
  {}

  lemma CheckSplitRows(content: string, header: seq<string>)
    requires |LinesOf(content)| >= 2 && Split(LinesOf(content)[0], '\t') == header
    requires FirstMissing(REQUIRED_COLUMNS, header).None?
    ensures CheckTimeline(content) == CheckRows(LinesOf(content)[1..], |header|, 2, false, false)
  {}

  // A written timeline is accepted exactly when it names the start and an end of the run.
  lemma WrittenTimeline(rows: seq<Row>)
    requires CleanRows(rows) && TightEnd(rows)
    ensures CheckTimeline(TimelineText(rows)) ==
            if !HasEvent(rows, ["lab_started"]) then Some(NoLabStarted)
            else if !HasEvent(rows, TERMINAL_EVENTS) then Some(NoTerminalEvent)
            else None
  {
    TimelineSplits(rows);
    HeaderComplete();
    var lines := TableLines(HEADER, Map(rows, Columns));
    CheckSplitRows(TimelineText(rows), HEADER);
    CheckReadRows(rows, lines[1..], 2, false, false);
  }

  // ----- the marker -----

  // A timeline with a subsystem_config row is shell-synthetic, whatever else is in it.
  lemma ConfigRowIsSynthetic(rows: seq<Row>, i: nat)
    requires i < |rows| && rows[i].entry.event == "subsystem_config"
    ensures ShellSynthetic(TimelineText(rows))
  {
    ColumnContained(Columns(rows[i]), 2);
    TableContains(TIMELINE, rows, i, "subsystem_config");
  }
}

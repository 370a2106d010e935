/** The native event timeline: what both the analyzer and the verifier read in it, and its check. */
module LabNatives {
  import opened Text
  import opened LabTables

  datatype Native = Native(elapsedMillis: int, event: string, subsystem: string)

  const REQUIRED_NATIVE_COLUMNS := ["timestamp", "elapsed_millis", "event", "subsystem"]

  // A row of fewer than four columns, or without a number of milliseconds, is passed over.
  function NativeOfLine(line: string): Option<Native> {
    var cols := Split(line, '\t');
    if |cols| < 4 || IntColumn(cols[1]).None? then None
    else Some(Native(IntColumn(cols[1]).value, cols[2], cols[3]))
  }

  function NativesIn(content: string): seq<Native> { ReadLines(LinesOf(content)[1..], NativeOfLine) }

  method ParseNativeEvents(content: Option<string>) returns (events: seq<Native>)
    ensures events == if content.None? then [] else NativesIn(content.value)
  {
    events := [];
    if content.None? {
      return;
    }
    var lines := LinesOf(content.value);
    for i := 1 to |lines|
      invariant events == ReadLines(lines[1..][..i - 1], NativeOfLine)
    {
      ReadNext(lines[1..], NativeOfLine, i - 1);
      var event := ReadNative(lines[i]);
      if event.Some? {
        events := events + [event.value];
      }
    }
    assert lines[1..][..|lines| - 1] == lines[1..];
  }

  method ReadNative(line: string) returns (event: Option<Native>)
    ensures event == NativeOfLine(line)
  {
    var cols := Split(line, '\t');
    if |cols| < 4 {
      return None;
    }
    var millis := IntColumn(cols[1]);
    if millis.None? {
      return None;
    }
    return Some(Native(millis.value, cols[2], cols[3]));
  }

  // A row of four columns or more with a number of milliseconds gives its event, any other none.
  lemma NativeOfLineIff(line: string, e: Native)
    ensures NativeOfLine(line) == Some(e) <==>
            var cols := Split(line, '\t');
            |cols| >= 4 && IntColumn(cols[1]) == Some(e.elapsedMillis) && cols[2] == e.event && cols[3] == e.subsystem
  {}

  // ----- verify_native_event_timeline -----

  datatype NativeError = NativeFileMissing | NoNativeRows | NoNativeColumn(column: string)

  function CheckNatives(content: Option<string>): Option<NativeError> {
    if content.None? then Some(NativeFileMissing)
    else
      var lines := LinesOf(content.value);
      var absent := FirstAbsent(REQUIRED_NATIVE_COLUMNS, lines[0]);
      if |lines| < 2 then Some(NoNativeRows)
      else if absent.Some? then Some(NoNativeColumn(absent.value))
      else None
  }

  method VerifyNativeEventTimeline(content: Option<string>) returns (error: Option<NativeError>)
    ensures error == CheckNatives(content)
  {
    if content.None? {
      return Some(NativeFileMissing);
    }
    var lines := LinesOf(content.value);
    if |lines| < 2 {
      return Some(NoNativeRows);
    }
    var absent := FindAbsent(REQUIRED_NATIVE_COLUMNS, lines[0]);
    if absent.Some? {
      return Some(NoNativeColumn(absent.value));
    }
    return None;
  }

  // What any text must be for its native timeline to be accepted.
  ghost predicate GoodNatives(content: string) {
    var lines := LinesOf(content);
    && |lines| >= 2
    && Contains(lines[0], "timestamp") && Contains(lines[0], "elapsed_millis")
    && Contains(lines[0], "event") && Contains(lines[0], "subsystem")
  }

  lemma NativesExactly(content: Option<string>)
    ensures CheckNatives(content).None? <==> content.Some? && GoodNatives(content.value)
  {
    assert forall t :: t in REQUIRED_NATIVE_COLUMNS <==>
                       t == "timestamp" || t == "elapsed_millis" || t == "event" || t == "subsystem";
  }
}

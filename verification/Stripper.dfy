/** The comment and test-block stripper run over Zig sources before forbidden effects are looked for. */
module Stripper {
  import opened Sequences
  import opened Text

  // Whether the next line is read inside a test block, and the brace depth there.
  datatype State = Outside | Inside(depth: int)

  predicate OpensTest(stripped: string) {
    "test \"" <= stripped || "test '" <= stripped
  }

  // The depth after a line of a test block, or None once a closing brace brings it to zero.
  function Braces(s: string, depth: int): Option<int>
    decreases |s|
  {
    if s == "" then Some(depth)
    else if s[0] == '{' then Braces(s[1..], depth + 1)
    else if s[0] == '}' then (if depth - 1 == 0 then None else Braces(s[1..], depth - 1))
    else Braces(s[1..], depth)
  }

  function AfterTestLine(stripped: string, depth: int): State {
    match Braces(stripped, depth)
    case None => Outside
    case Some(d) =>
      if stripped == "}" || (EndsWith(stripped, "}") && '{' !in stripped && d == 0) then Outside else Inside(d)
  }

  // The first // from position i on that the quote and escape tracking takes for a comment.
  function Scan(line: string, i: nat, inString: bool, escaped: bool): (r: Option<nat>)
    requires i <= |line|
    ensures r.Some? ==> i <= r.value && r.value + 1 < |line|
    decreases |line| - i
  {
    if i == |line| then None
    else if escaped then Scan(line, i + 1, inString, false)
    else if line[i] == '\\' then Scan(line, i + 1, inString, true)
    else if line[i] == '"' then Scan(line, i + 1, !inString, false)
    else if line[i] == '/' && !inString && i + 1 < |line| && line[i + 1] == '/' then Some(i)
    else Scan(line, i + 1, inString, false)
  }

  function CommentStart(line: string): Option<nat> { Scan(line, 0, false, false) }

  // What is kept of a line outside test blocks.
  function KeptLine(line: string): string {
    if "///" <= Strip(line, PySpace) then ""
    else if !Contains(line, "//") then line
    else
      match CommentStart(line)
      case None => line
      case Some(i) => line[..i]
  }

  function Entering(line: string, st: State): State {
    if st.Outside? && OpensTest(Strip(line, PySpace)) then Inside(0) else st
  }

  function StateAfter(line: string, st: State): State {
    match Entering(line, st)
    case Outside => Outside
    case Inside(depth) => AfterTestLine(Strip(line, PySpace), depth)
  }

  function OutputOf(line: string, st: State): seq<string> {
    if Entering(line, st).Outside? then [KeptLine(line)] else []
  }

  // The lines kept from a run of lines, and the state after them.
  function StripLines(lines: seq<string>, st: State): (seq<string>, State) {
    if lines == [] then ([], st)
    else
      var (rest, end) := StripLines(lines[1..], StateAfter(lines[0], st));
      (OutputOf(lines[0], st) + rest, end)
  }

  function Stripped(content: string): string {
    Join(StripLines(Split(content, '\n'), Outside).0, '\n')
  }

  // ----- the loops -----

  method CountBraces(stripped: string, depth: int) returns (r: Option<int>)
    ensures r == Braces(stripped, depth)
  {
    var braceDepth := depth;
    for i := 0 to |stripped|
      invariant Braces(stripped, depth) == Braces(stripped[i..], braceDepth)
    {
      assert stripped[i..][0] == stripped[i] && stripped[i..][1..] == stripped[i + 1..];
      var ch := stripped[i];
      if ch == '{' {
        braceDepth := braceDepth + 1;
      } else if ch == '}' {
        braceDepth := braceDepth - 1;
        if braceDepth == 0 {
          return None;
        }
      }
    }
    return Some(braceDepth);
  }

  method FindComment(line: string) returns (commentStart: Option<nat>)
    ensures commentStart == CommentStart(line)
  {
    var inString, escaped := false, false;
    for i := 0 to |line|
      invariant CommentStart(line) == Scan(line, i, inString, escaped)
    {
      var ch := line[i];
      if escaped {
        escaped := false;
        continue;
      }
      if ch == '\\' {
        escaped := true;
        continue;
      }
      if ch == '"' {
        inString := !inString;
      } else if ch == '/' && !inString && i + 1 < |line| {
        if line[i + 1] == '/' {
          return Some(i);
        }
      }
    }
    return None;
  }

  // The part of the loop body that handles a line inside a test block.
  method TestLine(stripped: string, depth: int) returns (st: State)
    ensures st == AfterTestLine(stripped, depth)
  {
    var counted := CountBraces(stripped, depth);
    if counted.None? {
      return Outside;
    }
    if stripped == "}" || (EndsWith(stripped, "}") && '{' !in stripped && counted.value == 0) {
      return Outside;
    }
    return Inside(counted.value);
  }

  // The part that handles a line outside test blocks.
  method KeepLine(line: string, stripped: string) returns (kept: string)
    requires stripped == Strip(line, PySpace)
    ensures kept == KeptLine(line)
  {
    if "///" <= stripped {
      return "";
    }
    kept := line;
    if Contains(line, "//") {
      var commentStart := FindComment(line);
      if commentStart.Some? {
        kept := line[..commentStart.value];
      }
    }
  }

  method StripCommentsAndTests(content: string) returns (result: string)
    ensures result == Stripped(content)
  {
    var lines := Split(content, '\n');
    var resultLines: seq<string> := [];
    var st := Outside;
    for i := 0 to |lines|
      invariant StripLines(lines, Outside).0 == resultLines + StripLines(lines[i..], st).0
    {
      var line := lines[i];
      StripNext(lines, i, st, resultLines);
      var stripped := Strip(line, PySpace);
      if st == Outside && OpensTest(stripped) {
        st := Inside(0);
      }
      if st != Outside {
        st := TestLine(stripped, st.depth);
        continue;
      }
      var kept := KeepLine(line, stripped);
      resultLines := resultLines + [kept];
    }
    assert resultLines + [] == resultLines;
    result := Join(resultLines, '\n');
  }

  lemma StripNext(lines: seq<string>, i: nat, st: State, acc: seq<string>)
    requires i < |lines|
    ensures acc + StripLines(lines[i..], st).0
            == acc + OutputOf(lines[i], st) + StripLines(lines[i + 1..], StateAfter(lines[i], st)).0
    ensures OutputOf(lines[i], st) == [] ==> acc + OutputOf(lines[i], st) == acc
  {
    assert lines[i..][0] == lines[i] && lines[i..][1..] == lines[i + 1..];
    var rest := StripLines(lines[i + 1..], StateAfter(lines[i], st)).0;
    assert acc + (OutputOf(lines[i], st) + rest) == acc + OutputOf(lines[i], st) + rest;
  }

  // ----- comments -----

  // The scanner's state after the first i characters: inside a string, after a backslash.
  ghost function QuoteState(line: string, i: nat): (bool, bool)
    requires i <= |line|
  {
    if i == 0 then (false, false)
    else
      var (inString, escaped) := QuoteState(line, i - 1);
      if escaped then (inString, false)
      else if line[i - 1] == '\\' then (inString, true)
      else if line[i - 1] == '"' then (!inString, false)
      else (inString, false)
  }

  // Two slashes that are neither quoted nor escaped.
  ghost predicate UnquotedSlashes(line: string, i: nat) {
    i + 1 < |line| && line[i] == '/' && line[i + 1] == '/' && QuoteState(line, i) == (false, false)
  }

  lemma {:induction false} ScanFirst(line: string, i: nat)
    requires i <= |line| && forall k | 0 <= k < i :: !UnquotedSlashes(line, k)
    ensures var (inString, escaped) := QuoteState(line, i);
            match Scan(line, i, inString, escaped)
            case None => forall k :: !UnquotedSlashes(line, k)
            case Some(c) => UnquotedSlashes(line, c) && forall k | 0 <= k < c :: !UnquotedSlashes(line, k)
    decreases |line| - i
  {
    if i < |line| && !UnquotedSlashes(line, i) {
      ScanFirst(line, i + 1);
    }
  }

  // The cut falls on the first unquoted // and only there.
  lemma CommentStartFirst(line: string)
    ensures match CommentStart(line)
            case None => forall k :: !UnquotedSlashes(line, k)
            case Some(c) => UnquotedSlashes(line, c) && forall k | 0 <= k < c :: !UnquotedSlashes(line, k)
  {
    ScanFirst(line, 0);
  }

  lemma {:induction false} QuoteStatePrefix(line: string, n: nat, i: nat)
    requires i <= n <= |line|
    ensures QuoteState(line[..n], i) == QuoteState(line, i)
  {
    if i > 0 { QuoteStatePrefix(line, n, i - 1); }
  }

  lemma CutHasNoComment(line: string, c: nat)
    requires CommentStart(line) == Some(c)
    ensures CommentStart(line[..c]) == None
  {
    CommentStartFirst(line);
    CommentStartFirst(line[..c]);
    forall k: nat ensures !UnquotedSlashes(line[..c], k) {
      if k + 1 < c {
        QuoteStatePrefix(line, c, k);
        assert !UnquotedSlashes(line, k);
      }
    }
  }

  lemma CommentNeedsSlashes(line: string)
    ensures CommentStart(line).Some? ==> Contains(line, "//")
  {
    CommentStartFirst(line);
    if CommentStart(line).Some? {
      var c := CommentStart(line).value;
      assert line[c..c + 2] == "//";
      assert OccursAt(line, "//", c);
    }
  }

  // ----- normal form -----

  // A line the stripper has nothing to do on: it opens no test, is no doc comment, and holds
  // no unquoted //.
  ghost predicate NormalLine(line: string) {
    var s := Strip(line, PySpace);
    !OpensTest(s) && !("///" <= s) && CommentStart(line) == None
  }

  lemma KeptLineNormal(line: string)
    requires !OpensTest(Strip(line, PySpace))
    ensures NormalLine(KeptLine(line))
    ensures forall c | c in KeptLine(line) :: c in line
  {
    CommentNeedsSlashes(line);
    if !("///" <= Strip(line, PySpace)) && CommentStart(line).Some? {
      var c := CommentStart(line).value;
      CutHasNoComment(line, c);
      if "test \"" <= Strip(line[..c], PySpace) { StripOfPrefix(line, c, "test \"", PySpace); }
      if "test '" <= Strip(line[..c], PySpace) { StripOfPrefix(line, c, "test '", PySpace); }
      if "///" <= Strip(line[..c], PySpace) { StripOfPrefix(line, c, "///", PySpace); }
    }
  }

  lemma {:induction false} OutputNormal(lines: seq<string>, st: State)
    requires FreeOf(lines, '\n')
    ensures var out := StripLines(lines, st).0;
            FreeOf(out, '\n') && forall i | 0 <= i < |out| :: NormalLine(out[i])
    decreases |lines|
  {
    if lines != [] {
      OutputNormal(lines[1..], StateAfter(lines[0], st));
      if Entering(lines[0], st).Outside? {
        KeptLineNormal(lines[0]);
        assert '\n' !in KeptLine(lines[0]);
      }
    }
  }

  lemma NormalKept(line: string)
    requires NormalLine(line)
    ensures OutputOf(line, Outside) == [line] && StateAfter(line, Outside) == Outside
  {}

  lemma {:induction false} NormalUnchanged(lines: seq<string>)
    requires forall i | 0 <= i < |lines| :: NormalLine(lines[i])
    ensures StripLines(lines, Outside) == (lines, Outside)
  {
    if lines != [] {
      NormalKept(lines[0]);
      NormalUnchanged(lines[1..]);
      assert lines == [lines[0]] + lines[1..];
    }
  }

  lemma EmptyLineNormal()
    ensures NormalLine("")
  {}

  // Main result, for every input, unterminated strings and unbalanced braces included: no line
  // of the output opens a test block, is a doc comment or holds an unquoted //.
  lemma StrippedNormal(content: string)
    ensures forall line | line in Split(Stripped(content), '\n') :: NormalLine(line)
  {
    var lines := Split(content, '\n');
    SplitPieces(content, '\n');
    OutputNormal(lines, Outside);
    var out := StripLines(lines, Outside).0;
    if out == [] {
      SplitFree("", '\n');
      EmptyLineNormal();
    } else {
      SplitJoin(out, '\n');
    }
  }

  // Stripping what has been stripped changes nothing.
  lemma StrippedIdempotent(content: string)
    ensures Stripped(Stripped(content)) == Stripped(content)
  {
    StrippedNormal(content);
    var lines := Split(Stripped(content), '\n');
    NormalUnchanged(lines);
    JoinSplit(Stripped(content), '\n');
  }

  // ----- what is kept -----

  // A line whose trimmed text opens a test block.
  ghost predicate TestHeader(line: string) {
    var s := Strip(line, PySpace);
    |s| >= 6 && s[..5] == "test " && (s[5] == '"' || s[5] == '\'')
  }

  lemma TestHeaderIff(line: string)
    ensures OpensTest(Strip(line, PySpace)) <==> TestHeader(line)
  {
    var s := Strip(line, PySpace);
    if |s| >= 6 { assert s[..6] == s[..5] + [s[5]] && "test \"" == "test " + ['"'] && "test '" == "test " + ['\'']; }
  }

  // Nothing of a doc comment, otherwise everything in front of the first unquoted //.
  ghost predicate KeptOf(line: string, kept: string) {
    if "///" <= Strip(line, PySpace) then kept == ""
    else if exists k :: UnquotedSlashes(line, k) then
      exists c | 0 <= c < |line| ::
        UnquotedSlashes(line, c) && (forall k | 0 <= k < c :: !UnquotedSlashes(line, k)) && kept == line[..c]
    else kept == line
  }

  lemma KeptExactly(line: string)
    ensures KeptOf(line, KeptLine(line))
  {
    CommentStartFirst(line);
    CommentNeedsSlashes(line);
  }

  // Main result. Of a line outside test blocks that opens none, in any file, exactly the code in
  // front of its comment is left, and the lines behind it are read outside test blocks.
  lemma OutsideLine(before: seq<string>, line: string, after: seq<string>) returns (kept: string)
    requires StripLines(before, Outside).1 == Outside && !TestHeader(line)
    ensures KeptOf(line, kept)
    ensures StripLines(before + ([line] + after), Outside).0 ==
            StripLines(before, Outside).0 + ([kept] + StripLines(after, Outside).0)
  {
    kept := KeptLine(line);
    KeptExactly(line);
    TestHeaderIff(line);
    StripLinesAppend(before, [line] + after, Outside);
    StripCons(line, after, Outside);
  }

  // So a file without test blocks keeps its lines, each without its comment.
  lemma {:induction false} CodeKept(lines: seq<string>)
    requires forall i | 0 <= i < |lines| :: !TestHeader(lines[i])
    ensures var out := StripLines(lines, Outside);
            && out.1 == Outside && |out.0| == |lines|
            && forall i | 0 <= i < |lines| :: KeptOf(lines[i], out.0[i])
  {
    if lines != [] {
      CodeKept(lines[1..]);
      TestHeaderIff(lines[0]);
      KeptExactly(lines[0]);
      StripCons(lines[0], lines[1..], Outside);
      assert lines == [lines[0]] + lines[1..];
    }
  }

  // A line that opens a test block or stands in one leaves nothing.
  lemma InsideLine(before: seq<string>, line: string, after: seq<string>)
    requires StripLines(before, Outside).1 != Outside || TestHeader(line)
    ensures StripLines(before + ([line] + after), Outside).0 ==
            StripLines(before, Outside).0 + StripLines(after, StripLines(before + [line], Outside).1).0
  {
    LastInside(before, line);
    Assoc(before, [line], after);
    StripLinesAppend(before + [line], after, Outside);
  }

  lemma LastInside(before: seq<string>, line: string)
    requires StripLines(before, Outside).1 != Outside || TestHeader(line)
    ensures StripLines(before + [line], Outside).0 == StripLines(before, Outside).0
  {
    TestHeaderIff(line);
    StripLinesAppend(before, [line], Outside);
    StripCons(line, [], StripLines(before, Outside).1);
    assert [line] + [] == [line];
  }

  // ----- braces -----

  // The depth after the first k characters, every brace counted.
  ghost function DepthAt(s: string, depth: int, k: nat): int
    requires k <= |s|
  {
    depth + multiset(s[..k])['{'] - multiset(s[..k])['}']
  }

  lemma DepthNext(s: string, depth: int, k: nat)
    requires s != "" && k < |s|
    ensures DepthAt(s, depth, k + 1) ==
            DepthAt(s[1..], if s[0] == '{' then depth + 1 else if s[0] == '}' then depth - 1 else depth, k)
  {
    assert s[..k + 1] == [s[0]] + s[1..][..k];
  }

  ghost predicate EndsAt(s: string, depth: int, k: nat)
    requires k < |s|
  {
    s[k] == '}' && DepthAt(s, depth, k + 1) == 0
  }

  // A line ends the block exactly at a closing brace behind which all braces balance.
  lemma {:induction false} BracesExactly(s: string, depth: int)
    ensures Braces(s, depth).None? <==> exists k | 0 <= k < |s| :: EndsAt(s, depth, k)
    ensures Braces(s, depth).Some? ==> Braces(s, depth) == Some(DepthAt(s, depth, |s|))
    decreases |s|
  {
    if s == "" {
      assert s[..0] == "";
    } else {
      var next := if s[0] == '{' then depth + 1 else if s[0] == '}' then depth - 1 else depth;
      BracesExactly(s[1..], next);
      DepthNext(s, depth, |s| - 1);
      EndsLater(s, depth, next);
    }
  }

  lemma EndsLater(s: string, depth: int, next: int)
    requires s != "" && next == if s[0] == '{' then depth + 1 else if s[0] == '}' then depth - 1 else depth
    ensures (exists k | 0 <= k < |s| :: EndsAt(s, depth, k)) <==>
            (s[0] == '}' && next == 0) || exists k | 0 <= k < |s[1..]| :: EndsAt(s[1..], next, k)
  {
    DepthNext(s, depth, 0);
    assert s[1..][..0] == "";
    assert EndsAt(s, depth, 0) <==> s[0] == '}' && next == 0;
    if k :| 0 <= k < |s[1..]| && EndsAt(s[1..], next, k) {
      DepthNext(s, depth, k + 1);
      assert EndsAt(s, depth, k + 1);
    }
    if k :| 0 < k < |s| && EndsAt(s, depth, k) {
      DepthNext(s, depth, k);
      assert EndsAt(s[1..], next, k - 1);
    }
  }

  // ----- where a test block ends -----

  lemma StripCons(line: string, rest: seq<string>, st: State)
    ensures StripLines([line] + rest, st) ==
            (OutputOf(line, st) + StripLines(rest, StateAfter(line, st)).0, StripLines(rest, StateAfter(line, st)).1)
  {
    assert ([line] + rest)[1..] == rest;
  }

  lemma {:induction false} StripLinesAppend(a: seq<string>, b: seq<string>, st: State)
    ensures StripLines(a + b, st).0 == StripLines(a, st).0 + StripLines(b, StripLines(a, st).1).0
    ensures StripLines(a + b, st).1 == StripLines(b, StripLines(a, st).1).1
    decreases |a|
  {
    if a == [] {
      assert a + b == b;
    } else {
      var next := StateAfter(a[0], st);
      StripLinesAppend(a[1..], b, next);
      assert a == [a[0]] + a[1..];
      Assoc([a[0]], a[1..], b);
      StripCons(a[0], a[1..], st);
      StripCons(a[0], a[1..] + b, st);
      Assoc(OutputOf(a[0], st), StripLines(a[1..], next).0, StripLines(b, StripLines(a, st).1).0);
    }
  }

  // A line ending in a closing brace cannot end at depth zero without having ended the block,
  // so the last clause of the end-of-block test never decides.
  lemma {:induction false} LastBrace(s: string, depth: int)
    requires EndsWith(s, "}")
    ensures Braces(s, depth) != Some(0)
  {
    if |s| > 1 {
      assert EndsWith(s[1..], "}");
      LastBrace(s[1..], depth + 1);
      LastBrace(s[1..], depth - 1);
      LastBrace(s[1..], depth);
    } else {
      assert s[0] == '}' && s[1..] == "";
    }
  }

  lemma TestLineEnds(stripped: string, depth: int)
    ensures AfterTestLine(stripped, depth).Outside? <==> Braces(stripped, depth).None? || stripped == "}"
  {
    if EndsWith(stripped, "}") { LastBrace(stripped, depth); }
  }

  // The line on which braces opened since the start of the block first balance.
  ghost function BalanceLine(lines: seq<string>, depth: int): Option<nat> {
    if lines == [] then None
    else
      match Braces(Strip(lines[0], PySpace), depth)
      case None => Some(0)
      case Some(d) =>
        match BalanceLine(lines[1..], d)
        case None => None
        case Some(k) => Some(k + 1)
  }

  // The line with which the stripper leaves the block.
  ghost function EndLine(lines: seq<string>, depth: int): Option<nat> {
    if lines == [] then None
    else
      match AfterTestLine(Strip(lines[0], PySpace), depth)
      case Outside => Some(0)
      case Inside(d) =>
        match EndLine(lines[1..], d)
        case None => None
        case Some(k) => Some(k + 1)
  }

  // The first line that is a closing brace and nothing else.
  ghost function LoneBrace(lines: seq<string>): Option<nat> {
    if lines == [] then None
    else if Strip(lines[0], PySpace) == "}" then Some(0)
    else
      match LoneBrace(lines[1..])
      case None => None
      case Some(k) => Some(k + 1)
  }

  ghost function Earlier(a: Option<nat>, b: Option<nat>): Option<nat> {
    match (a, b)
    case (None, _) => b
    case (_, None) => a
    case (Some(x), Some(y)) => if x <= y then a else b
  }

  // The stripper leaves a test block at whichever comes first, the balancing line or a lone
  // closing brace.
  lemma {:induction false} EndLineExact(lines: seq<string>, depth: int)
    ensures EndLine(lines, depth) == Earlier(BalanceLine(lines, depth), LoneBrace(lines))
    decreases |lines|
  {
    if lines != [] {
      var s := Strip(lines[0], PySpace);
      TestLineEnds(s, depth);
      if AfterTestLine(s, depth).Inside? {
        EndLineExact(lines[1..], AfterTestLine(s, depth).depth);
      }
    }
  }

  // So a block ends on its balancing line exactly when no line before that one is a lone
  // closing brace.
  lemma EndsWhereBalanced(lines: seq<string>, depth: int)
    ensures EndLine(lines, depth) == BalanceLine(lines, depth) <==>
            match (BalanceLine(lines, depth), LoneBrace(lines))
            case (_, None) => true
            case (None, Some(_)) => false
            case (Some(b), Some(l)) => b <= l
  {
    EndLineExact(lines, depth);
  }

  lemma {:induction false} InsideSwallows(lines: seq<string>, depth: int)
    requires lines != [] && EndLine(lines, depth) == Some(|lines| - 1)
    ensures StripLines(lines, Inside(depth)) == ([], Outside)
    decreases |lines|
  {
    var st := AfterTestLine(Strip(lines[0], PySpace), depth);
    StripCons(lines[0], lines[1..], Inside(depth));
    assert lines == [lines[0]] + lines[1..];
    if st.Inside? {
      InsideSwallows(lines[1..], st.depth);
    } else {
      assert |lines[1..]| == 0;
      assert st == Outside && StateAfter(lines[0], Inside(depth)) == Outside;
      assert StripLines(lines[1..], Outside) == (lines[1..], Outside);
      assert StripLines(lines, Inside(depth)).1 == Outside;
      assert |StripLines(lines, Inside(depth)).0| == 0;
    }
  }

  lemma BlockSwallowed(block: seq<string>)
    requires block != [] && OpensTest(Strip(block[0], PySpace))
    requires EndLine(block, 0) == Some(|block| - 1)
    ensures StripLines(block, Outside) == ([], Outside)
  {
    InsideSwallows(block, 0);
    StripCons(block[0], block[1..], Inside(0));
    StripCons(block[0], block[1..], Outside);
    assert block == [block[0]] + block[1..];
  }

  // A test block whose braces balance on its last line, with no lone closing brace before it,
  // disappears, and nothing around it does.
  lemma BalancedBlockRemoved(before: seq<string>, block: seq<string>, after: seq<string>)
    requires StripLines(before, Outside).1 == Outside
    requires block != [] && TestHeader(block[0])
    requires BalanceLine(block, 0) == Some(|block| - 1)
    requires LoneBrace(block).None? || LoneBrace(block).value == |block| - 1
    ensures StripLines(before + block + after, Outside).0 ==
            StripLines(before, Outside).0 + StripLines(after, Outside).0
  {
    EndsWhereBalanced(block, 0);
    TestHeaderIff(block[0]);
    BlockSwallowed(block);
    StripLinesAppend(before, block, Outside);
    StripLinesAppend(before + block, after, Outside);
    assert StripLines(before, Outside).0 + [] == StripLines(before, Outside).0;
  }

  lemma NoSlash(line: string)
    requires '/' !in line
    ensures !Contains(line, "//") && !("///" <= line)
  {
    forall i ensures !OccursAt(line, "//", i) {
      if 0 <= i && i + 2 <= |line| {
        assert line[i..i + 2][0] == line[i];
        assert line[i] in line;
      }
    }
    assert "///"[0] == '/';
  }

  lemma PlainLine(line: string)
    requires line != "" && !PySpace(line[0]) && !PySpace(line[|line| - 1])
    requires '/' !in line && !OpensTest(line)
    ensures OutputOf(line, Outside) == [line] && StateAfter(line, Outside) == Outside
  {
    StripTight(line, PySpace);
    NoSlash(line);
  }

  lemma {:induction false} NoBraces(s: string, k: nat, depth: int)
    requires k <= |s| && '{' !in s[..k] && '}' !in s[..k]
    ensures Braces(s, depth) == Braces(s[k..], depth)
  {
    if k > 0 {
      assert s[..k][0] == s[0] && s[..k][0] in s[..k];
      assert s[..k][1..] == s[1..][..k - 1];
      NoBraces(s[1..], k - 1, depth);
      assert s[1..][k - 1..] == s[k..];
    }
  }

  // A test header, and lines that are braces alone.
  lemma HeaderOpens()
    ensures OutputOf("test \"t\" {", Outside) == [] && StateAfter("test \"t\" {", Outside) == Inside(1)
  {
    var header := "test \"t\" {";
    StripTight(header, PySpace);
    NoBraces(header, 9, 0);
    assert header[9..] == "{" && Braces("{", 0) == Some(1);
    assert header[..6] == "test \"";
  }

  lemma BracesInside()
    ensures OutputOf("{", Inside(1)) == [] && StateAfter("{", Inside(1)) == Inside(2)
    ensures OutputOf("}", Inside(2)) == [] && StateAfter("}", Inside(2)) == Outside
  {
    StripTight("{", PySpace);
    StripTight("}", PySpace);
    assert Braces("{", 1) == Some(2) && Braces("}", 2) == Some(1);
  }

  // With a lone closing brace inside, the rest of the block is left in the output.
  lemma NestedBlockLeaks()
    ensures StripLines(["test \"t\" {"] + (["{"] + (["}"] + (["f();"] + ["}"]))), Outside).0 == ["f();", "}"]
  {
    var header := "test \"t\" {";
    HeaderOpens();
    BracesInside();
    PlainLine("f();");
    PlainLine("}");
    StripCons("}", [], Outside);
    assert ["}"] + [] == ["}"];
    StripCons("f();", ["}"], Outside);
    StripCons("}", ["f();"] + ["}"], Inside(2));
    StripCons("{", ["}"] + (["f();"] + ["}"]), Inside(1));
    StripCons(header, ["{"] + (["}"] + (["f();"] + ["}"])), Outside);
  }
}

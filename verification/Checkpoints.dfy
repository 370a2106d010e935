/** The checkpoint block finder: from each checkpoint heading to the next heading not below it. */
module Checkpoints {
  import opened Sequences
  import opened Text

  // How many '#' a line starts with.
  function Hashes(line: string): (n: nat)
    ensures n <= |line|
    ensures forall i | 0 <= i < n :: line[i] == '#'
    ensures n < |line| ==> line[n] != '#'
  {
    if line != "" && line[0] == '#' then 1 + Hashes(line[1..]) else 0
  }

  // ^#+\s+
  predicate IsHeading(line: string) {
    var n := Hashes(line);
    n >= 1 && n < |line| && PySpace(line[n])
  }

  // ACT, white space, a digit.
  predicate ActNumber(s: string) {
    "ACT" <= s && |s| > 3 && PySpace(s[3]) &&
    var rest := LStrip(s[3..], PySpace);
    rest != "" && IsDigit(rest[0])
  }

  const STATES: seq<string> := ["Closed pending commit hygiene", "Closed", "Open"]

  // [ state ] and white space, then ACT and a number.
  predicate BracketedAct(s: string) {
    s != "" && s[0] == '[' && StateThenAct(LStrip(s[1..], PySpace))
  }

  predicate StateThenAct(inner: string) {
    exists state | state in STATES ::
      state <= inner && ClosesAct(inner[|state|..])
  }

  // ] and white space, then ACT and a number.
  predicate ClosesAct(s: string) {
    var close := LStrip(s, PySpace);
    |close| >= 2 && close[0] == ']' && PySpace(close[1]) && ActNumber(LStrip(close[1..], PySpace))
  }

  // The start patterns: one to three '#', white space, and either form of the ACT title. The
  // remaining patterns of the list are special cases of these, or cannot match within a line.
  predicate IsCheckpointStart(line: string) {
    var n := Hashes(line);
    1 <= n <= 3 && n < |line| && PySpace(line[n]) &&
    var title := LStrip(line[n..], PySpace);
    ActNumber(title) || BracketedAct(title)
  }

  // The level of a heading; 0 for any other line.
  function HeadingLevel(line: string): nat { if IsHeading(line) then Hashes(line) else 0 }

  // What the block finder needs of its patterns: a start line is a heading of level 1 to 3.
  ghost predicate StartsAreHeadings(start: string -> bool, level: string -> nat) {
    forall line | start(line) :: 1 <= level(line) <= 3
  }

  lemma CheckpointsAreHeadings()
    ensures StartsAreHeadings(IsCheckpointStart, HeadingLevel)
  {}

  // ----- which lines are headings, and which start a block -----

  // Hash marks and a blank behind them.
  lemma HeadingIff(line: string, n: nat)
    requires n > 0
    ensures HeadingLevel(line) == n <==>
            n < |line| && (forall i | 0 <= i < n :: line[i] == '#') && PySpace(line[n])
  {
    if n < |line| && (forall i | 0 <= i < n :: line[i] == '#') && PySpace(line[n]) {
      assert Hashes(line) == n;
    }
  }

  // ACT, blanks, a digit and anything.
  ghost predicate ActForm(s: string, b: string, rest: string) {
    s == "ACT" + (b + rest) && b != "" && Blank(b) && rest != "" && IsDigit(rest[0])
  }

  lemma ActNumberIff(s: string)
    ensures ActNumber(s) <==> exists b, rest :: ActForm(s, b, rest)
  {
    if ActNumber(s) {
      var b := LStripSplits(s[3..]);
      assert s == "ACT" + s[3..];
      assert ActForm(s, b, LStrip(s[3..], PySpace));
    }
    forall b, rest | ActForm(s, b, rest) ensures ActNumber(s) {
      assert s[3..] == b + rest && s[3] == b[0] && b[0] in b;
      LStripBlank(b, rest);
    }
  }

  // [ state ], blanks, and an ACT title; inside the brackets blanks may stand.
  ghost predicate BracketForm(s: string, a: string, state: string, b: string, c: string, act: string) {
    && s == "[" + (a + (state + (b + ("]" + (c + act))))) && Blank(a) && Blank(b) && Blank(c) && c != ""
    && (state == "Closed" || state == "Open" || state == "Closed pending commit hygiene")
    && ActNumber(act)
  }

  lemma BracketedActIff(s: string)
    ensures BracketedAct(s) <==> exists a, state, b, c, act :: BracketForm(s, a, state, b, c, act)
  {
    if BracketedAct(s) {
      var inner := LStrip(s[1..], PySpace);
      assert StateThenAct(inner);
      var state :| state in STATES && state <= inner && ClosesAct(inner[|state|..]);
      BracketParts(s, state);
    }
    forall a, state, b, c, act | BracketForm(s, a, state, b, c, act) ensures BracketedAct(s) {
      BracketRead(s, a, state, b, c, act);
    }
  }

  lemma ActStarts(act: string)
    requires ActNumber(act)
    ensures act != "" && !PySpace(act[0])
  {
    assert act[0] == "ACT"[0];
  }

  // What stands behind the state.
  lemma CloseParts(s: string) returns (b: string, c: string, act: string)
    requires ClosesAct(s)
    ensures s == b + ("]" + (c + act)) && Blank(b) && Blank(c) && c != "" && ActNumber(act)
  {
    var close := LStrip(s, PySpace);
    b := LStripSplits(s);
    c := LStripSplits(close[1..]);
    act := LStrip(close[1..], PySpace);
    ActStarts(act);
    assert close[1..][0] == close[1] && close == "]" + close[1..];
  }

  lemma BracketParts(s: string, state: string)
    requires s != "" && s[0] == '[' && state in STATES
    requires var inner := LStrip(s[1..], PySpace); state <= inner && ClosesAct(inner[|state|..])
    ensures exists a, b, c, act :: BracketForm(s, a, state, b, c, act)
  {
    var inner := LStrip(s[1..], PySpace);
    var a := LStripSplits(s[1..]);
    var b, c, act := CloseParts(inner[|state|..]);
    assert inner == state + inner[|state|..] && s == "[" + s[1..];
    assert BracketForm(s, a, state, b, c, act);
  }

  lemma BracketRead(s: string, a: string, state: string, b: string, c: string, act: string)
    requires BracketForm(s, a, state, b, c, act)
    ensures BracketedAct(s)
  {
    var close := "]" + (c + act);
    var inner := state + (b + close);
    assert s[1..] == a + inner && inner[|state|..] == b + close && close[1..] == c + act;
    StateNames(state);
    ActStarts(act);
    assert c[0] in c;
    LStripBlank(a, inner);
    LStripBlank(b, close);
    LStripBlank(c, act);
    assert close[1] == c[0];
    assert ClosesAct(inner[|state|..]);
  }

  lemma StateNames(state: string)
    requires state == "Closed" || state == "Open" || state == "Closed pending commit hygiene"
    ensures state in STATES && state != "" && !PySpace(state[0])
  {
    assert STATES[0] in STATES && STATES[1] in STATES && STATES[2] in STATES;
  }

  // One to three hash marks, blanks, and a title.
  ghost predicate StartForm(line: string, n: nat, b: string, title: string) {
    && 1 <= n <= 3 && n <= |line| && (forall i | 0 <= i < n :: line[i] == '#')
    && b != "" && Blank(b) && line[n..] == b + title && (ActNumber(title) || BracketedAct(title))
  }

  // Main result. A block starts exactly at the lines of this form, whatever else stands in them.
  lemma StartIff(line: string)
    ensures IsCheckpointStart(line) <==> exists n: nat, b, title :: StartForm(line, n, b, title)
  {
    var n := Hashes(line);
    if IsCheckpointStart(line) {
      var b := LStripSplits(line[n..]);
      var title := LStrip(line[n..], PySpace);
      TitleStarts(title);
      assert line[n..][0] == line[n];
      assert StartForm(line, n, b, title);
    }
    forall m: nat, b, title | StartForm(line, m, b, title) ensures IsCheckpointStart(line) {
      StartRead(line, m, b, title);
    }
  }

  lemma TitleStarts(title: string)
    requires ActNumber(title) || BracketedAct(title)
    ensures title != "" && !PySpace(title[0])
  {
    if ActNumber(title) { assert title[0] == "ACT"[0]; }
  }

  lemma HashCount(line: string, n: nat)
    requires n < |line| && (forall i | 0 <= i < n :: line[i] == '#') && line[n] != '#'
    ensures Hashes(line) == n
  {}

  lemma StartRead(line: string, n: nat, b: string, title: string)
    requires StartForm(line, n, b, title)
    ensures IsCheckpointStart(line)
  {
    TitleStarts(title);
    assert b[0] in b && line[n..][0] == b[0];
    HashCount(line, n);
    LStripBlank(b, title);
  }

  // A block: line numbers from start to before end, and the text of those lines.
  datatype Block = Block(start: nat, end: nat, text: string)

  // The first heading from line j on that is not below level n, or the end of the document.
  function BlockEnd(lines: seq<string>, j: nat, n: nat, level: string -> nat): (end: nat)
    requires j <= |lines|
    ensures j <= end <= |lines|
    decreases |lines| - j
  {
    if j == |lines| || 1 <= level(lines[j]) <= n then j else BlockEnd(lines, j + 1, n, level)
  }

  function BlockAt(lines: seq<string>, i: nat, level: string -> nat): Block
    requires i < |lines|
  {
    var end := BlockEnd(lines, i + 1, level(lines[i]), level);
    Block(i, end, Join(lines[i..end], '\n'))
  }

  function BlocksOfLine(lines: seq<string>, i: nat, start: string -> bool, level: string -> nat): seq<Block>
    requires i < |lines|
  {
    if start(lines[i]) then [BlockAt(lines, i, level)] else []
  }

  // The blocks that start before line n.
  function BlocksUpTo(lines: seq<string>, n: nat, start: string -> bool, level: string -> nat): seq<Block>
    requires n <= |lines|
  {
    if n == 0 then [] else BlocksUpTo(lines, n - 1, start, level) + BlocksOfLine(lines, n - 1, start, level)
  }

  function BlocksIn(lines: seq<string>, start: string -> bool, level: string -> nat): seq<Block> {
    BlocksUpTo(lines, |lines|, start, level)
  }

  method FindCheckpointBlocks(content: string) returns (blocks: seq<Block>)
    ensures blocks == BlocksIn(Split(content, '\n'), IsCheckpointStart, HeadingLevel)
  {
    blocks := FindBlocks(content, IsCheckpointStart, HeadingLevel);
  }

  // The same search for any patterns.
  method FindBlocks(content: string, start: string -> bool, level: string -> nat) returns (blocks: seq<Block>)
    ensures blocks == BlocksIn(Split(content, '\n'), start, level)
  {
    blocks := [];
    var lines := Split(content, '\n');
    for i := 0 to |lines|
      invariant blocks == BlocksUpTo(lines, i, start, level)
    {
      if start(lines[i]) {
        var blockEnd := FindEnd(lines, i, level);
        blocks := blocks + [Block(i, blockEnd, Join(lines[i..blockEnd], '\n'))];
      } else {
        assert blocks + [] == blocks;
      }
    }
  }

  method FindEnd(lines: seq<string>, i: nat, level: string -> nat) returns (blockEnd: nat)
    requires i < |lines|
    ensures blockEnd == BlockEnd(lines, i + 1, level(lines[i]), level)
  {
    blockEnd := |lines|;
    var currentLevel := level(lines[i]);
    for j := i + 1 to |lines|
      invariant blockEnd == |lines|
      invariant BlockEnd(lines, i + 1, currentLevel, level) == BlockEnd(lines, j, currentLevel, level)
    {
      var headingLevel := level(lines[j]);
      if headingLevel > 0 {
        if headingLevel <= currentLevel {
          blockEnd := j;
          break;
        }
      }
    }
  }

  // ----- which blocks there are -----

  ghost predicate BlockOf(lines: seq<string>, b: Block, start: string -> bool, level: string -> nat) {
    b.start < |lines| && start(lines[b.start]) && b == BlockAt(lines, b.start, level)
  }

  lemma {:induction false} BlockOrigin(lines: seq<string>, n: nat, b: Block, start: string -> bool,
                                       level: string -> nat)
    requires n <= |lines|
    ensures b in BlocksUpTo(lines, n, start, level) <==> b.start < n && BlockOf(lines, b, start, level)
  {
    if n > 0 {
      BlockOrigin(lines, n - 1, b, start, level);
      AppendMember(BlocksUpTo(lines, n - 1, start, level), BlocksOfLine(lines, n - 1, start, level), b);
    }
  }

  ghost predicate InOrder(bs: seq<Block>) { forall a, b | 0 <= a < b < |bs| :: bs[a].start < bs[b].start }

  lemma InOrderAppend(bs: seq<Block>, last: seq<Block>, n: nat)
    requires InOrder(bs) && (forall b | b in bs :: b.start < n)
    requires |last| <= 1 && (last != [] ==> last[0].start == n)
    ensures InOrder(bs + last) && forall b | b in bs + last :: b.start < n + 1
  {
    forall a | 0 <= a < |bs| ensures bs[a].start < n { assert bs[a] in bs; }
  }

  // One block for each start line, in document order, and no others.
  lemma {:induction false} BlocksInOrder(lines: seq<string>, n: nat, start: string -> bool, level: string -> nat)
    requires n <= |lines|
    ensures InOrder(BlocksUpTo(lines, n, start, level))
    ensures forall b | b in BlocksUpTo(lines, n, start, level) :: b.start < n
  {
    if n > 0 {
      BlocksInOrder(lines, n - 1, start, level);
      InOrderAppend(BlocksUpTo(lines, n - 1, start, level), BlocksOfLine(lines, n - 1, start, level), n - 1);
    }
  }

  lemma BlocksExactly(lines: seq<string>, i: nat, start: string -> bool, level: string -> nat)
    requires i < |lines|
    ensures (exists b | b in BlocksIn(lines, start, level) :: b.start == i) <==> start(lines[i])
  {
    BlockOrigin(lines, |lines|, BlockAt(lines, i, level), start, level);
    if b :| b in BlocksIn(lines, start, level) && b.start == i {
      BlockOrigin(lines, |lines|, b, start, level);
    }
  }

  lemma {:induction false} BlockEndFirst(lines: seq<string>, j: nat, n: nat, level: string -> nat)
    requires j <= |lines|
    ensures var end := BlockEnd(lines, j, n, level);
            && (forall k | j <= k < end && level(lines[k]) > 0 :: level(lines[k]) > n)
            && (end < |lines| ==> 1 <= level(lines[end]) <= n)
    decreases |lines| - j
  {
    if j < |lines| && !(1 <= level(lines[j]) <= n) { BlockEndFirst(lines, j + 1, n, level); }
  }

  // Each block starts at a start line, holds no other heading of its own level or above, and
  // ends right before one or at the end of the document.
  lemma BlockBounds(lines: seq<string>, b: Block, start: string -> bool, level: string -> nat)
    requires StartsAreHeadings(start, level) && b in BlocksUpTo(lines, |lines|, start, level)
    ensures b.start < b.end <= |lines| && start(lines[b.start])
    ensures 1 <= level(lines[b.start]) <= 3
    ensures forall k | b.start < k < b.end && level(lines[k]) > 0 :: level(lines[k]) > level(lines[b.start])
    ensures b.end < |lines| ==> 1 <= level(lines[b.end]) <= level(lines[b.start])
  {
    BlockOrigin(lines, |lines|, b, start, level);
    BlockEndFirst(lines, b.start + 1, level(lines[b.start]), level);
  }

  // The text of a block is exactly its lines.
  lemma BlockText(content: string, b: Block, start: string -> bool, level: string -> nat)
    requires b in BlocksIn(Split(content, '\n'), start, level)
    ensures var lines := Split(content, '\n');
            b.start < b.end <= |lines| && Split(b.text, '\n') == lines[b.start..b.end]
  {
    var lines := Split(content, '\n');
    BlockOrigin(lines, |lines|, b, start, level);
    SplitPieces(content, '\n');
    SplitJoin(lines[b.start..b.end], '\n');
  }

  // Main result: two blocks are disjoint, or the later one lies inside the earlier one and
  // starts at a deeper heading.
  lemma Laminar(lines: seq<string>, a: Block, b: Block, start: string -> bool, level: string -> nat)
    requires StartsAreHeadings(start, level)
    requires a in BlocksIn(lines, start, level) && b in BlocksIn(lines, start, level) && a.start < b.start < |lines|
    ensures a.end <= b.start || (b.end <= a.end && level(lines[b.start]) > level(lines[a.start]))
  {
    BlockBounds(lines, a, start, level);
    BlockBounds(lines, b, start, level);
  }

  // ----- a block seen on its own -----

  lemma {:induction false} BlockEndWithin(lines: seq<string>, s: nat, e: nat, j: nat, n: nat, level: string -> nat)
    requires s <= j <= e <= |lines| && BlockEnd(lines, j, n, level) <= e
    ensures BlockEnd(lines[s..e], j - s, n, level) == BlockEnd(lines, j, n, level) - s
    decreases e - j
  {
    if j < e {
      assert lines[s..e][j - s] == lines[j];
      if !(1 <= level(lines[j]) <= n) { BlockEndWithin(lines, s, e, j + 1, n, level); }
    }
  }

  function Shifted(b: Block, s: nat): Block {
    Block(b.start + s, b.end + s, b.text)
  }

  // A block that fits in a range of lines is the same block within that range.
  lemma BlockWithin(lines: seq<string>, s: nat, e: nat, i: nat, level: string -> nat)
    requires s <= i < e <= |lines| && BlockAt(lines, i, level).end <= e
    ensures lines[s..e][i - s] == lines[i]
    ensures Shifted(BlockAt(lines[s..e], i - s, level), s) == BlockAt(lines, i, level)
  {
    var end := BlockAt(lines, i, level).end;
    BlockEndWithin(lines, s, e, i + 1, level(lines[i]), level);
    SliceOfSlice(lines, s, e, i, end);
  }

  lemma SliceOfSlice(lines: seq<string>, s: nat, e: nat, i: nat, j: nat)
    requires s <= i <= j <= e <= |lines|
    ensures lines[s..e][i - s..j - s] == lines[i..j]
  {
    var a, b := lines[s..e][i - s..j - s], lines[i..j];
    assert |a| == |b| && forall k | 0 <= k < |a| :: a[k] == b[k];
  }

  // Inside a block every block ends by its end.
  lemma NestedEnd(lines: seq<string>, outer: Block, i: nat, start: string -> bool, level: string -> nat)
    requires StartsAreHeadings(start, level) && outer in BlocksIn(lines, start, level)
    requires outer.start <= i < outer.end && i < |lines| && start(lines[i])
    ensures BlockAt(lines, i, level).end <= outer.end
  {
    BlockOrigin(lines, |lines|, BlockAt(lines, i, level), start, level);
    BlockOrigin(lines, |lines|, outer, start, level);
    if i > outer.start { Laminar(lines, outer, BlockAt(lines, i, level), start, level); }
  }

  lemma ShiftInjective(a: Block, b: Block, s: nat)
    ensures Shifted(a, s) == Shifted(b, s) <==> a == b
  {}

  lemma BlockOfWithin(lines: seq<string>, s: nat, e: nat, b: Block, start: string -> bool, level: string -> nat)
    requires s + b.start < e <= |lines|
    requires start(lines[s + b.start]) ==> BlockAt(lines, s + b.start, level).end <= e
    ensures BlockOf(lines[s..e], b, start, level) <==> BlockOf(lines, Shifted(b, s), start, level)
  {
    var i := s + b.start;
    assert lines[s..e][b.start] == lines[i];
    if start(lines[i]) {
      BlockWithin(lines, s, e, i, level);
      ShiftInjective(b, BlockAt(lines[s..e], b.start, level), s);
    }
  }

  lemma BlocksWithin(lines: seq<string>, s: nat, e: nat, b: Block, start: string -> bool, level: string -> nat)
    requires s <= e <= |lines|
    requires s + b.start < e && start(lines[s + b.start]) ==> BlockAt(lines, s + b.start, level).end <= e
    ensures b in BlocksIn(lines[s..e], start, level) <==>
            Shifted(b, s) in BlocksIn(lines, start, level) && b.start + s < e
  {
    BlockOrigin(lines[s..e], |lines[s..e]|, b, start, level);
    BlockOrigin(lines, |lines|, Shifted(b, s), start, level);
    if s + b.start < e { BlockOfWithin(lines, s, e, b, start, level); }
  }

  // Scanning the text of a block alone finds exactly the blocks that start inside it, with
  // line numbers counted from the start of the block.
  lemma SelfContained(content: string, outer: Block, b: Block, start: string -> bool, level: string -> nat)
    requires StartsAreHeadings(start, level) && outer in BlocksIn(Split(content, '\n'), start, level)
    ensures b in BlocksIn(Split(outer.text, '\n'), start, level) <==>
            Shifted(b, outer.start) in BlocksIn(Split(content, '\n'), start, level) && b.start + outer.start < outer.end
  {
    BlockText(content, outer, start, level);
    var lines, i := Split(content, '\n'), outer.start + b.start;
    if i < outer.end && start(lines[i]) { NestedEnd(lines, outer, i, start, level); }
    BlocksWithin(lines, outer.start, outer.end, b, start, level);
  }
}

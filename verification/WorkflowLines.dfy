/** What the workflow checker's patterns say of a line of a workflow file. */
module WorkflowLines {
  import opened Text

  datatype Line = Line(
    jobsKey: bool,              // the top-level jobs: key
    header: Option<string>,     // at indent 2, a bare name: key
    permissionsKey: bool,       // permissions: alone
    permissionsInline: bool,    // permissions: {
    inlineWrite: bool,          // contains contents: write
    inlineRead: bool,           // contains contents: read
    needsKey: bool,             // needs: alone
    needsInline: bool,          // needs: [ or needs: and a name
    inlineNeeds: seq<string>,   // the names on such a line
    jobKey: bool,               // at indent 4, some other key
    listItem: Option<string>,   // the name after a list dash
    contentsWrite: bool,        // contents: write as words
    contentsRead: bool,         // contents: read as words
    create: bool,               // gh release create
    upload: bool,               // gh release upload
    edit: bool)                 // gh release edit

  function LineOf(raw: string): Line {
    var stripped := RStrip(raw, PySpace);
    var tight := LStrip(stripped, PySpace);
    Line(stripped == "jobs:",
         if Indent(raw) == 2 then KeyName(tight) else None,
         tight == "permissions:",
         InlinePermissions(tight),
         Contains(stripped, "contents: write"), Contains(stripped, "contents: read"),
         tight == "needs:",
         InlineNeedsLine(tight), InlineNeeds(stripped, tight),
         Indent(raw) == 4 && KeyLine(tight),
         ListItem(stripped),
         Words(stripped, "contents:", "write"), Words(stripped, "contents:", "read"),
         Contains(stripped, "gh release create"), Contains(stripped, "gh release upload"),
         Contains(stripped, "gh release edit"))
  }

  function Indent(raw: string): int { |raw| - |LStrip(raw, PySpace)| }

  // ----- names -----

  predicate Letter(c: char) { 'a' <= c <= 'z' || 'A' <= c <= 'Z' }

  // [-a-zA-Z0-9_]
  predicate NameChar(c: char) { Letter(c) || IsDigit(c) || c == '-' || c == '_' }

  // How many name characters the text starts with.
  function NameRun(s: string): (k: nat)
    ensures k <= |s| && forall i | 0 <= i < k :: NameChar(s[i])
    ensures k < |s| ==> !NameChar(s[k])
  {
    if s != "" && NameChar(s[0]) then 1 + NameRun(s[1..]) else 0
  }

  // A name and nothing behind its colon.
  function KeyName(tight: string): Option<string> {
    var k := NameRun(tight);
    if k > 0 && Letter(tight[0]) && tight[k..] == ":" then Some(tight[..k]) else None
  }

  // [a-z-]+ and a colon, after which anything may follow.
  predicate KeyLine(tight: string) {
    var k := KeyRun(tight);
    0 < k < |tight| && tight[k] == ':'
  }

  function KeyRun(s: string): (k: nat)
    ensures k <= |s|
  {
    if s != "" && ('a' <= s[0] <= 'z' || s[0] == '-') then 1 + KeyRun(s[1..]) else 0
  }

  lemma {:induction false} KeyRunOf(key: string, rest: string)
    requires forall c | c in key :: 'a' <= c <= 'z' || c == '-'
    requires rest != "" ==> !('a' <= rest[0] <= 'z') && rest[0] != '-'
    ensures KeyRun(key + rest) == |key|
  {
    if key == "" {
      assert key + rest == rest;
    } else {
      assert (key + rest)[1..] == key[1..] + rest && key[0] in key && forall c | c in key[1..] :: c in key;
      KeyRunOf(key[1..], rest);
    }
  }

  // ----- permissions -----

  // permissions: and a brace behind white space.
  predicate InlinePermissions(tight: string) {
    "permissions:" <= tight && "{" <= LStrip(tight[12..], PySpace)
  }

  // ----- needs -----

  // needs: [ or needs: with white space and a letter.
  predicate InlineNeedsLine(tight: string) {
    "needs:" <= tight &&
    var rest := LStrip(tight[6..], PySpace);
    rest != "" && (rest[0] == '[' || (|rest| < |tight| - 6 && Letter(rest[0])))
  }

  // What the first pair of brackets with something between them holds.
  function Bracketed(s: string): Option<string> {
    if s == "" then None
    else
      var j := IndexOf(s[1..], ']');
      if s[0] == '[' && 0 < j < |s[1..]| then Some(s[1..][..j]) else Bracketed(s[1..])
  }

  // The names of two characters or more, from left to right.
  function Names(s: string): seq<string>
    decreases |s|
  {
    if s == "" then []
    else if Letter(s[0]) && NameRun(s) >= 2 then [s[..NameRun(s)]] + Names(s[NameRun(s)..])
    else Names(s[1..])
  }

  function InlineNeeds(stripped: string, tight: string): seq<string> {
    if !InlineNeedsLine(tight) then []
    else if Bracketed(stripped).Some? then Names(Bracketed(stripped).value)
    else
      var rest := LStrip(tight[6..], PySpace);
      if |rest| < |tight| - 6 && Letter(rest[0]) && NameRun(rest) >= 2 then [rest[..NameRun(rest)]] else []
  }

  // White space, a dash, white space, and a name of one character or more.
  function ListItem(stripped: string): Option<string> {
    var t := LStrip(stripped, PySpace);
    if |t| == |stripped| || t == "" || t[0] != '-' then None
    else
      var u := LStrip(t[1..], PySpace);
      if |u| == |t| - 1 || u == "" || !Letter(u[0]) then None else Some(u[..NameRun(u)])
  }

  // ----- words -----

  predicate WordChar(c: char) { Letter(c) || IsDigit(c) || c == '_' }

  // A key at a word boundary and, behind white space, a whole word.
  predicate WordsAt(s: string, key: string, word: string, i: nat)
    requires i <= |s|
  {
    && (i == 0 || !WordChar(s[i - 1]))
    && key <= s[i..]
    && var t := LStrip(s[i..][|key|..], PySpace);
       word <= t && (|t| == |word| || !WordChar(t[|word|]))
  }

  predicate Words(s: string, key: string, word: string) { exists i | 0 <= i <= |s| :: WordsAt(s, key, word, i) }

  // ----- what the patterns find -----

  // The jobs: key: the word in the first column, and blanks.
  lemma JobsKeyIff(raw: string)
    ensures LineOf(raw).jobsKey <==> exists b :: Blank(b) && raw == "jobs:" + b
  {
    if RStrip(raw, PySpace) == "jobs:" { var b := RStripSplits(raw); }
    forall b | Blank(b) && raw == "jobs:" + b ensures RStrip(raw, PySpace) == "jobs:" { RStripBlank("jobs:", b); }
  }

  // Two blanks, a name, a colon, and blanks.
  ghost predicate HeaderForm(raw: string, a: string, name: string, b: string) {
    |a| == 2 && Blank(a) && IsName(name) && Blank(b) && raw == a + (name + (":" + b))
  }

  // The lines that open a job, and the job's name.
  lemma HeaderIff(raw: string, name: string)
    ensures LineOf(raw).header == Some(name) <==> exists a, b :: HeaderForm(raw, a, name, b)
  {
    if LineOf(raw).header == Some(name) {
      var a, b := HeaderParts(raw, name);
      assert HeaderForm(raw, a, name, b);
    }
    forall a, b | HeaderForm(raw, a, name, b) ensures LineOf(raw).header == Some(name) {
      HeaderRead(raw, a, name, b);
    }
  }

  // A line is blanks, what is left when they are trimmed, and blanks.
  lemma LineParts(raw: string) returns (a: string, b: string)
    ensures var tight := LStrip(RStrip(raw, PySpace), PySpace);
            && Blank(a) && Blank(b) && raw == a + (tight + b)
            && (tight != "" ==> Indent(raw) == |a|)
  {
    var stripped := RStrip(raw, PySpace);
    b := RStripSplits(raw);
    a := LStripSplits(stripped);
    var tight := LStrip(stripped, PySpace);
    assert raw == a + (tight + b);
    if tight != "" { LStripBlank(a, tight + b); }
  }

  lemma HeaderParts(raw: string, name: string) returns (a: string, b: string)
    requires LineOf(raw).header == Some(name)
    ensures HeaderForm(raw, a, name, b)
  {
    var tight := LStrip(RStrip(raw, PySpace), PySpace);
    a, b := LineParts(raw);
    var k := NameRun(tight);
    assert tight == name + ":" && tight + b == name + (":" + b);
    forall c | c in name ensures NameChar(c) {
      var i :| 0 <= i < |name| && name[i] == c;
      assert tight[i] == c;
    }
  }

  lemma HeaderRead(raw: string, a: string, name: string, b: string)
    requires HeaderForm(raw, a, name, b)
    ensures LineOf(raw).header == Some(name)
  {
    var tight := name + ":";
    assert raw == a + tight + b && raw == a + (tight + b);
    assert (a + tight)[|a + tight| - 1] == ':';
    RStripBlank(a + tight, b);
    NameNotBlank(name);
    LStripBlank(a, tight);
    LStripBlank(a, tight + b);
    NameRunOf(name, ":");
    assert tight[..|name|] == name && tight[|name|..] == ":";
  }

  lemma NameNotBlank(name: string)
    requires IsName(name)
    ensures !PySpace(name[0])
  {}

  // permissions: {
  lemma InlinePermissionsIff(tight: string)
    ensures InlinePermissions(tight) <==>
            exists b, rest :: Blank(b) && tight == "permissions:" + (b + ("{" + rest))
  {
    if InlinePermissions(tight) {
      var b := LStripSplits(tight[12..]);
      var t := LStrip(tight[12..], PySpace);
      assert t == "{" + t[1..] && tight == "permissions:" + tight[12..];
    }
    forall b, rest | Blank(b) && tight == "permissions:" + (b + ("{" + rest)) ensures InlinePermissions(tight) {
      assert tight[12..] == b + ("{" + rest);
      LStripBlank(b, "{" + rest);
    }
  }

  ghost predicate KeyForm(tight: string, key: string, rest: string) {
    key != "" && (forall c | c in key :: 'a' <= c <= 'z' || c == '-') && tight == key + (":" + rest)
  }

  // Small letters and dashes, and a colon.
  lemma KeyLineIff(tight: string)
    ensures KeyLine(tight) <==> exists key, rest :: KeyForm(tight, key, rest)
  {
    if KeyLine(tight) {
      var k := KeyRun(tight);
      KeyRunChars(tight);
      assert tight == tight[..k] + (":" + tight[k + 1..]);
      assert KeyForm(tight, tight[..k], tight[k + 1..]);
    }
    forall key, rest | KeyForm(tight, key, rest) ensures KeyLine(tight) {
      KeyRunOf(key, ":" + rest);
    }
  }

  lemma {:induction false} KeyRunChars(s: string)
    ensures forall c | c in s[..KeyRun(s)] :: 'a' <= c <= 'z' || c == '-'
  {
    if s != "" && ('a' <= s[0] <= 'z' || s[0] == '-') {
      KeyRunChars(s[1..]);
      assert s[..KeyRun(s)] == [s[0]] + s[1..][..KeyRun(s[1..])];
    }
  }

  ghost predicate NeedsForm(tight: string, b: string, rest: string) {
    && Blank(b) && tight == "needs:" + (b + rest) && rest != ""
    && (rest[0] == '[' || (b != "" && Letter(rest[0])))
  }

  // needs: with a bracket, or with blanks and a letter.
  lemma InlineNeedsIff(tight: string)
    ensures InlineNeedsLine(tight) <==> exists b, rest :: NeedsForm(tight, b, rest)
  {
    if InlineNeedsLine(tight) {
      var b := LStripSplits(tight[6..]);
      assert tight == "needs:" + tight[6..];
      assert NeedsForm(tight, b, LStrip(tight[6..], PySpace));
    }
    forall b, rest | NeedsForm(tight, b, rest) ensures InlineNeedsLine(tight) {
      assert tight[6..] == b + rest;
      LStripBlank(b, rest);
    }
  }

  // The key and, behind blanks, the word; neither is part of a longer word.
  ghost predicate WordsForm(s: string, key: string, word: string, a: string, b: string, rest: string) {
    && s == a + (key + (b + (word + rest))) && Blank(b)
    && (a != "" ==> !WordChar(a[|a| - 1])) && (rest != "" ==> !WordChar(rest[0]))
  }

  lemma WordsIff(s: string, key: string, word: string)
    requires word != "" && !PySpace(word[0])
    ensures Words(s, key, word) <==> exists a, b, rest :: WordsForm(s, key, word, a, b, rest)
  {
    if i :| 0 <= i <= |s| && WordsAt(s, key, word, i) {
      var b, rest := WordsParts(s, key, word, i);
      assert WordsForm(s, key, word, s[..i], b, rest);
    }
    forall a, b, rest | WordsForm(s, key, word, a, b, rest) ensures WordsAt(s, key, word, |a|) {
      assert s[|a|..] == key + (b + (word + rest));
      LStripBlank(b, word + rest);
    }
  }

  lemma WordsParts(s: string, key: string, word: string, i: nat) returns (b: string, rest: string)
    requires i <= |s| && WordsAt(s, key, word, i)
    ensures WordsForm(s, key, word, s[..i], b, rest)
  {
    var u := s[i..][|key|..];
    var t := LStrip(u, PySpace);
    b := LStripSplits(u);
    rest := t[|word|..];
    assert t == word + rest && s[i..] == key + u && s == s[..i] + s[i..];
  }

  ghost predicate IsName(s: string) { s != "" && Letter(s[0]) && forall c | c in s :: NameChar(c) }

  lemma {:induction false} NameRunOf(name: string, rest: string)
    requires (forall c | c in name :: NameChar(c)) && (rest != "" ==> !NameChar(rest[0]))
    ensures NameRun(name + rest) == |name|
  {
    if name == "" {
      assert name + rest == rest;
    } else {
      assert (name + rest)[1..] == name[1..] + rest && name[0] in name;
      NameRunOf(name[1..], rest);
    }
  }

  // Blanks, a dash, blanks, a name, and anything that does not prolong the name.
  ghost predicate ItemForm(s: string, a: string, b: string, name: string, rest: string) {
    && s == a + ("-" + (b + (name + rest)))
    && a != "" && Blank(a) && b != "" && Blank(b) && IsName(name)
    && (rest != "" ==> !NameChar(rest[0]))
  }

  // The item pattern finds exactly the names that stand so; a quoted one is not found.
  lemma ListItemIff(s: string, name: string)
    ensures ListItem(s) == Some(name) <==> exists a, b, rest :: ItemForm(s, a, b, name, rest)
  {
    if ListItem(s) == Some(name) {
      var a, b, rest := ItemParts(s);
      assert ItemForm(s, a, b, name, rest);
    }
    forall a, b, rest | ItemForm(s, a, b, name, rest) ensures ListItem(s) == Some(name) {
      ItemFound(s, a, b, name, rest);
    }
  }

  lemma ItemParts(s: string) returns (a: string, b: string, rest: string)
    requires ListItem(s).Some?
    ensures ItemForm(s, a, b, ListItem(s).value, rest)
  {
    var t := LStrip(s, PySpace);
    var u := LStrip(t[1..], PySpace);
    a := LStripSplits(s);
    b := LStripSplits(t[1..]);
    rest := u[NameRun(u)..];
    assert t == "-" + t[1..] && u == u[..NameRun(u)] + rest;
  }

  lemma ItemFound(s: string, a: string, b: string, name: string, rest: string)
    requires ItemForm(s, a, b, name, rest)
    ensures ListItem(s) == Some(name)
  {
    var u := name + rest;
    var t := "-" + (b + u);
    assert u[0] == name[0] && t[1..] == b + u && u[..|name|] == name;
    LStripBlank(a, t);
    LStripBlank(b, u);
    NameRunOf(name, rest);
  }

  // No bracket opened in a has anything but a closing one behind it.
  ghost predicate Shut(a: string) { forall i | 0 <= i < |a| && a[i] == '[' :: i + 1 < |a| && a[i + 1] == ']' }

  // Brackets around something, behind nothing but empty ones.
  ghost predicate BracketForm(s: string, a: string, list: string, b: string) {
    s == a + ("[" + (list + ("]" + b))) && Shut(a) && list != "" && ']' !in list
  }

  lemma BracketedIff(s: string, list: string)
    ensures Bracketed(s) == Some(list) <==> exists a, b :: BracketForm(s, a, list, b)
  {
    if Bracketed(s) == Some(list) {
      var a, b := BracketedParts(s);
      assert BracketForm(s, a, list, b);
    }
    forall a, b | BracketForm(s, a, list, b) ensures Bracketed(s) == Some(list) {
      BracketedFound(s, a, list, b);
    }
  }

  lemma {:induction false} BracketedParts(s: string) returns (a: string, b: string)
    requires Bracketed(s).Some?
    ensures BracketForm(s, a, Bracketed(s).value, b)
  {
    var j := IndexOf(s[1..], ']');
    if s[0] == '[' && 0 < j < |s[1..]| {
      a, b := "", s[1..][j + 1..];
      assert s == a + ("[" + (s[1..][..j] + ("]" + b)));
    } else {
      a, b := BracketedParts(s[1..]);
      var list := Bracketed(s).value;
      var tail := "[" + (list + ("]" + b));
      assert s[1..] == a + tail;
      if s[0] == '[' {
        assert s[1..][|a| + 1 + |list|] == ']';
        assert j == 0 && s[1] == ']' && tail[0] == '[' && a != "";
      }
      ShutCons(s[0], a);
      a := [s[0]] + a;
      assert s == a + tail;
    }
  }

  lemma ShutCons(x: char, a: string)
    requires Shut(a) && (x == '[' ==> a != "" && a[0] == ']')
    ensures Shut([x] + a)
  {
    var t := [x] + a;
    forall i | 0 <= i < |t| && t[i] == '[' ensures i + 1 < |t| && t[i + 1] == ']' {
      if i > 0 { assert a[i - 1] == '['; }
    }
  }

  lemma {:induction false} BracketedFound(s: string, a: string, list: string, b: string)
    requires BracketForm(s, a, list, b)
    ensures Bracketed(s) == Some(list)
  {
    var tail := "[" + (list + ("]" + b));
    if a == "" {
      assert s[1..] == list + [']'] + b;
      IndexOfFirst(list, ']', b);
      assert s[1..][..|list|] == list;
    } else {
      assert s[1..] == a[1..] + tail && s[0] == a[0];
      if a[0] == '[' { assert s[1] == a[1]; }
      forall i | 0 <= i < |a[1..]| && a[1..][i] == '[' ensures i + 1 < |a[1..]| && a[1..][i + 1] == ']' {
        assert a[i + 1] == '[';
      }
      BracketedFound(s[1..], a[1..], list, b);
    }
  }

  // Without a bracket of either kind there is nothing in brackets.
  lemma {:induction false} BracketedNone(s: string)
    requires '[' !in s || ']' !in s
    ensures Bracketed(s) == None
  {
    if s != "" {
      assert s[0] in s && forall c | c in s[1..] :: c in s;
      BracketedNone(s[1..]);
    }
  }

  // ----- needs that are missed -----

  // No letter has a name character behind it.
  predicate NoLongName(s: string) { forall i | 0 < i < |s| && NameChar(s[i]) :: !Letter(s[i - 1]) }

  // The names found in brackets: none exactly when there is none of two characters.
  lemma {:induction false} NamesNone(s: string)
    ensures Names(s) == [] <==> NoLongName(s)
    decreases |s|
  {
    if s != "" {
      if Letter(s[0]) && NameRun(s) >= 2 {
        assert NameChar(s[1]);
      } else {
        NamesNone(s[1..]);
        NamesTail(s);
      }
    }
  }

  lemma NamesTail(s: string)
    requires s != "" && !(Letter(s[0]) && NameRun(s) >= 2)
    ensures NoLongName(s) <==> NoLongName(s[1..])
  {
    var t := s[1..];
    if Letter(s[0]) && |s| > 1 { assert !NameChar(s[1]); }
    if NoLongName(t) {
      forall i | 0 < i < |s| && NameChar(s[i]) ensures !Letter(s[i - 1]) {
        if i > 1 { assert t[i - 1] == s[i] && t[i - 2] == s[i - 1]; }
      }
    }
  }

  // A name taken from a text: two characters or more, nothing behind it that would prolong it, and
  // in front of it no letter that it could have begun with.
  ghost predicate NameForm(s: string, a: string, name: string, b: string) {
    && s == a + (name + b) && |name| >= 2 && IsName(name) && (b != "" ==> !NameChar(b[0]))
    && forall i | 0 <= i < |a| && Letter(a[i]) :: exists j :: i <= j < |a| && !NameChar(a[j])
  }

  lemma RunIsName(s: string)
    requires s != "" && Letter(s[0]) && NameRun(s) >= 2
    ensures var k := NameRun(s); IsName(s[..k]) && NameForm(s, "", s[..k], s[k..])
  {
    var k := NameRun(s);
    RunChars(s, k);
    assert s == "" + (s[..k] + s[k..]);
  }

  lemma RunChars(s: string, k: nat)
    requires k <= |s| && forall i | 0 <= i < k :: NameChar(s[i])
    ensures forall c | c in s[..k] :: NameChar(c)
  {}

  // A name behind the first run stands behind it in the rest.
  lemma NamesAfter(s: string, name: string)
    requires s != "" && Letter(s[0]) && NameRun(s) >= 2
    ensures var k := NameRun(s);
            (exists a, b :: NameForm(s, a, name, b)) <==> name == s[..k] || exists a, b :: NameForm(s[k..], a, name, b)
  {
    var k := NameRun(s);
    RunIsName(s);
    forall a, b | NameForm(s[k..], a, name, b) ensures NameForm(s, s[..k] + a, name, b) {
      FormPrepends(s, k, a, name, b);
    }
    forall a, b | NameForm(s, a, name, b)
      ensures name == s[..k] || (|a| > k && NameForm(s[k..], a[k..], name, b))
    {
      FormDrops(s, a, name, b);
    }
  }

  lemma FormPrepends(s: string, k: nat, a: string, name: string, b: string)
    requires k == NameRun(s) && NameForm(s[k..], a, name, b)
    ensures NameForm(s, s[..k] + a, name, b)
  {
    var t := s[..k] + a;
    assert s == s[..k] + s[k..] && s == t + (name + b);
    assert s[k..][0] == s[k] && s[k..][0] == (a + (name + b))[0];
    assert NameChar(name[0]) by { assert name[0] in name; }
    assert a != "";
    forall i | 0 <= i < |t| && Letter(t[i]) ensures exists j :: i <= j < |t| && !NameChar(t[j]) {
      if i < k {
        assert t[k] == a[0] && !NameChar(t[k]);
      } else {
        var j :| i - k <= j < |a| && !NameChar(a[j]);
        assert t[j + k] == a[j];
      }
    }
  }

  lemma FormDrops(s: string, a: string, name: string, b: string)
    requires s != "" && Letter(s[0]) && NameForm(s, a, name, b)
    ensures var k := NameRun(s); name == s[..k] || (|a| > k && NameForm(s[k..], a[k..], name, b))
  {
    var k := NameRun(s);
    if a == "" {
      assert s == name + b;
      NameRunOf(name, b);
    } else {
      assert a[0] == s[0];
      var j :| 0 <= j < |a| && !NameChar(a[j]);
      assert s[j] == a[j] && j >= k;
      FormShortens(s, k, a, name, b);
    }
  }

  lemma FormShortens(s: string, k: nat, a: string, name: string, b: string)
    requires k <= |a| && NameForm(s, a, name, b)
    ensures NameForm(s[k..], a[k..], name, b)
  {
    var t := a[k..];
    assert s[k..] == t + (name + b);
    forall i | 0 <= i < |t| && Letter(t[i]) ensures exists j :: i <= j < |t| && !NameChar(t[j]) {
      assert a[i + k] == t[i];
      var j :| i + k <= j < |a| && !NameChar(a[j]);
      assert t[j - k] == a[j];
    }
  }

  // A first character that begins no name makes no difference.
  lemma NamesLater(s: string, name: string)
    requires s != "" && !(Letter(s[0]) && NameRun(s) >= 2)
    ensures (exists a, b :: NameForm(s, a, name, b)) <==> exists a, b :: NameForm(s[1..], a, name, b)
  {
    forall a, b | NameForm(s[1..], a, name, b) ensures NameForm(s, [s[0]] + a, name, b) {
      FormBehindOne(s, a, name, b);
    }
    forall a, b | NameForm(s, a, name, b) ensures a != "" && NameForm(s[1..], a[1..], name, b) {
      if a == "" {
        assert s == name + b;
        NameRunOf(name, b);
      }
      FormShortens(s, 1, a, name, b);
    }
  }

  lemma FormBehindOne(s: string, a: string, name: string, b: string)
    requires s != "" && !(Letter(s[0]) && NameRun(s) >= 2) && NameForm(s[1..], a, name, b)
    ensures NameForm(s, [s[0]] + a, name, b)
  {
    var t := [s[0]] + a;
    assert s == t + (name + b);
    assert name[0] in name;
    if Letter(s[0]) {
      assert NameRun(s) == 1 && !NameChar(s[1]);
      assert a != "" && t[1] == s[1];
    }
    forall i | 0 <= i < |t| && Letter(t[i]) ensures exists j :: i <= j < |t| && !NameChar(t[j]) {
      if i > 0 {
        var j :| i - 1 <= j < |a| && !NameChar(a[j]);
        assert t[j + 1] == a[j];
      }
    }
  }

  // Which names are taken.
  lemma {:induction false} NamesIff(s: string, name: string)
    ensures name in Names(s) <==> exists a, b :: NameForm(s, a, name, b)
    decreases |s|
  {
    var k := NameRun(s);
    if s == "" {
    } else if Letter(s[0]) && k >= 2 {
      NamesIff(s[k..], name);
      RunIsName(s);
      NamesAfter(s, name);
    } else {
      NamesIff(s[1..], name);
      NamesLater(s, name);
    }
  }

  // A line with needs on it from which none is taken: the brackets hold no name of two characters,
  // or a bracket is opened and not closed, or the one name has one character.
  predicate MissesNeeds(stripped: string, tight: string)
    requires InlineNeedsLine(tight)
  {
    if Bracketed(stripped).Some? then NoLongName(Bracketed(stripped).value)
    else
      var rest := LStrip(tight[6..], PySpace);
      rest[0] == '[' || |rest| == 1 || !NameChar(rest[1])
  }

  lemma InlineNeedsNone(stripped: string, tight: string)
    requires InlineNeedsLine(tight)
    ensures InlineNeeds(stripped, tight) == [] <==> MissesNeeds(stripped, tight)
  {
    if Bracketed(stripped).Some? { NamesNone(Bracketed(stripped).value); }
  }

  // Whether a line adds a need to a job, in whose needs it stands or not.
  predicate AddsNeed(raw: string, inNeeds: bool) {
    var stripped := RStrip(raw, PySpace);
    var tight := LStrip(stripped, PySpace);
    if InlineNeedsLine(tight) then !MissesNeeds(stripped, tight) else inNeeds && ListItem(stripped).Some?
  }

  // Whether the line behind it stands in the needs of the job.
  predicate LeavesNeeds(raw: string, inNeeds: bool) {
    var tight := LStrip(RStrip(raw, PySpace), PySpace);
    tight == "needs:" || InlineNeedsLine(tight) || (inNeeds && !EndsNeeds(raw, tight))
  }

  predicate EndsNeeds(raw: string, tight: string) {
    tight == "permissions:"
    || (Indent(raw) == 4 && KeyLine(tight) && !InlinePermissions(tight))
  }

  // A line with blanks in front only.
  lemma IndentedLine(n: nat, tight: string)
    requires tight != "" && !PySpace(tight[0]) && !PySpace(tight[|tight| - 1])
    ensures RStrip(Spaces(n) + tight, PySpace) == Spaces(n) + tight
    ensures LStrip(Spaces(n) + tight, PySpace) == tight && Indent(Spaces(n) + tight) == n
  {
    assert (Spaces(n) + tight)[|Spaces(n) + tight| - 1] == tight[|tight| - 1];
    LStripSpaces(n, tight);
  }

  // ----- needs as they are written -----

  // A line with blanks in front and needs: with something behind it.
  function NeedsText(n: nat, rest: string): string { Spaces(n) + ("needs: " + rest) }

  predicate Tight(s: string) { s != "" && !PySpace(s[0]) && !PySpace(s[|s| - 1]) }

  lemma NeedsRest(n: nat, rest: string)
    requires Tight(rest)
    ensures var raw, tight := NeedsText(n, rest), "needs: " + rest;
            && RStrip(raw, PySpace) == raw && LStrip(raw, PySpace) == tight
            && "needs:" <= tight && LStrip(tight[6..], PySpace) == rest
            && (InlineNeedsLine(tight) <==> rest[0] == '[' || Letter(rest[0]))
  {
    var tight := "needs: " + rest;
    assert tight[|tight| - 1] == rest[|rest| - 1];
    IndentedLine(n, tight);
    assert tight == "needs:" + (" " + rest);
    assert tight[6..] == " " + rest && (" " + rest)[1..] == rest;
  }

  // needs: [list]
  lemma ListAdds(n: nat, list: string, inNeeds: bool)
    requires list != "" && ']' !in list && '\n' !in list
    ensures AddsNeed(NeedsText(n, "[" + list + "]"), inNeeds) <==> !NoLongName(list)
  {
    var rest := "[" + list + "]";
    NeedsRest(n, rest);
    var a := Spaces(n) + "needs: ";
    assert NeedsText(n, rest) == a + ("[" + (list + ("]" + "")));
    assert '[' !in a;
    BracketedFound(NeedsText(n, rest), a, list, "");
  }

  // needs: [ and the rest of the list on the lines below
  lemma OpenListAdds(n: nat, list: string, inNeeds: bool)
    requires ']' !in list && Tight("[" + list)
    ensures !AddsNeed(NeedsText(n, "[" + list), inNeeds)
  {
    NeedsRest(n, "[" + list);
    BracketedNone(NeedsText(n, "[" + list));
  }

  // needs: and a name
  lemma NameAdds(n: nat, name: string, inNeeds: bool)
    requires Tight(name) && Letter(name[0]) && '[' !in name
    ensures AddsNeed(NeedsText(n, name), inNeeds) <==> |name| > 1 && NameChar(name[1])
  {
    NeedsRest(n, name);
    BracketedNone(NeedsText(n, name));
  }

  // needs: and a quoted name
  lemma QuotedAdds(n: nat, rest: string, inNeeds: bool)
    requires Tight(rest) && rest[0] != '[' && !Letter(rest[0])
    ensures !AddsNeed(NeedsText(n, rest), inNeeds)
  {
    NeedsRest(n, rest);
    assert ("needs: " + rest)[0] == 'n';
  }

  // Any other line that is no item.
  lemma OtherAdds(n: nat, tight: string, inNeeds: bool)
    requires Tight(tight) && tight[0] != '-' && !InlineNeedsLine(tight)
    ensures !AddsNeed(Spaces(n) + tight, inNeeds)
  {
    IndentedLine(n, tight);
  }

  // An item adds a need exactly when it begins with a letter.
  lemma ItemAdds(n: nat, rest: string, inNeeds: bool)
    requires n > 0 && Tight(rest)
    ensures AddsNeed(Spaces(n) + ("- " + rest), inNeeds) <==> inNeeds && Letter(rest[0])
  {
    var tight := "- " + rest;
    assert tight[|tight| - 1] == rest[|rest| - 1];
    IndentedLine(n, tight);
    assert tight[1..] == " " + rest && (" " + rest)[1..] == rest;
    assert LStrip(tight[1..], PySpace) == rest && !("needs:" <= tight);
  }
}

/** The coverage path normaliser: which source paths count, and the one form they are given. */
module KcovPaths {
  import opened Sequences
  import opened Text

  const FORBIDDEN: seq<string> :=
    ["zig-cache", ".zig-cache", "zig-out", ".git", "/usr/", "/opt/homebrew/", "/nix/store/",
     "/.cache/", "kcov-", "compiler_rt/", "std/zig/"]

  const MARKER := "/tovarisch/src/"
  const HOME := "tovarisch/src/"

  function Slashes(s: string): (r: string)
    ensures |r| == |s|
    ensures forall i | 0 <= i < |s| :: r[i] == if s[i] == '\\' then '/' else s[i]
  {
    seq(|s|, i requires 0 <= i < |s| => if s[i] == '\\' then '/' else s[i])
  }

  // The last occurrence that starts before n.
  function RFindBefore(s: string, t: string, n: nat): (r: Option<nat>)
    ensures r.Some? ==> r.value < n && OccursAt(s, t, r.value)
  {
    if n == 0 then None
    else if OccursAt(s, t, n - 1) then Some(n - 1)
    else RFindBefore(s, t, n - 1)
  }

  // str.rfind: the start of the last occurrence, overlapping ones included.
  function RFind(s: string, t: string): (r: Option<nat>)
    ensures r.Some? ==> OccursAt(s, t, r.value)
  {
    RFindBefore(s, t, |s| + 1)
  }

  // The path ends in .zig and contains none of the patterns, whatever the letter case.
  predicate Clean(lower: string, patterns: seq<string>) {
    EndsWith(lower, ".zig") && !exists p | p in patterns :: Contains(lower, p)
  }

  // What may follow the marker in a path that is accepted by it.
  predicate GoodTail(tail: string) {
    tail != "" && tail[0] != '/' && !Contains(tail, "/../")
  }

  // The last marker, if what follows it is acceptable.
  function GoodMarker(path: string, marker: string): (at: Option<nat>)
    ensures at.Some? ==> OccursAt(Lower(path), marker, at.value)
  {
    var at := RFind(Lower(path), marker);
    if at.Some? && GoodTail(path[at.value + |marker|..]) then at else None
  }

  // How a path is recognised: by its last marker, by a relative prefix, or not at all.
  datatype Form = AfterMarker(at: nat) | WithoutDot | AsItIs | Foreign

  function FormOf(path: string): (f: Form)
    ensures f.AfterMarker? ==> OccursAt(Lower(path), MARKER, f.at)
    ensures f.WithoutDot? ==> |path| >= 2
  {
    var lower := Lower(path);
    var at := GoodMarker(path, MARKER);
    if at.Some? then AfterMarker(at.value)
    else if "./tovarisch/src/" <= lower then WithoutDot
    else if HOME <= lower then AsItIs
    else if "./src/" <= lower then WithoutDot
    else if "src/" <= lower then AsItIs
    else Foreign
  }

  function Normalized(path: string): Option<string> {
    match FormOf(path)
    case AfterMarker(at) => Some(HOME + path[at + |MARKER|..])
    case WithoutDot => Some(path[2..])
    case AsItIs => Some(path)
    case Foreign => None
  }

  // The function over any list of forbidden patterns.
  function Normalize(filepath: string, patterns: seq<string>): Option<string> {
    if filepath == "" then None
    else
      var path := Slashes(filepath);
      if !Clean(Lower(path), patterns) then None else Normalized(path)
  }

  function NormalizeTovarischSrcPath(filepath: string): Option<string> {
    Normalize(filepath, FORBIDDEN)
  }

  // ----- last occurrences -----

  lemma {:induction false} RFindLast(s: string, t: string, n: nat, i: nat)
    requires OccursAt(s, t, i) && i < n
    ensures RFindBefore(s, t, n).Some? && i <= RFindBefore(s, t, n).value
  {
    if i < n - 1 { RFindLast(s, t, n - 1, i); }
  }

  lemma OccursShift(s: string, t: string, k: nat, i: int)
    requires k <= |s|
    ensures OccursAt(s[k..], t, i) <==> i >= 0 && OccursAt(s, t, k + i)
  {
    if i >= 0 && i + |t| <= |s| - k { WithinSuffix(s, k, i, i + |t|); }
  }

  // In a suffix that begins after the last occurrence there is none, and in a suffix that
  // still holds it the last occurrence is the same one.
  lemma RFindSuffix(s: string, t: string, k: nat)
    requires k <= |s|
    ensures var r, q := RFind(s, t), RFind(s[k..], t);
            if r.Some? && r.value >= k then q == Some(r.value - k) else q == None
  {
    var r, q := RFind(s, t), RFind(s[k..], t);
    if q.Some? {
      OccursShift(s, t, k, q.value);
      RFindLast(s, t, |s| + 1, k + q.value);
    }
    if r.Some? && r.value >= k {
      OccursShift(s, t, k, r.value - k);
      RFindLast(s[k..], t, |s[k..]| + 1, r.value - k);
    }
  }

  lemma NoOccurrence(s: string, t: string)
    ensures RFind(s, t).None? <==> !Contains(s, t)
  {
    if Contains(s, t) {
      var i :| 0 <= i <= |s| && OccursAt(s, t, i);
      RFindLast(s, t, |s| + 1, i);
    }
  }

  lemma RFindHere(s: string, t: string, k: nat)
    requires k < |s| && OccursAt(s, t, k) && !Contains(s[k + 1..], t)
    ensures RFind(s, t) == Some(k)
  {
    RFindLast(s, t, |s| + 1, k);
    NoOccurrence(s[k + 1..], t);
    RFindSuffix(s, t, k + 1);
  }

  // ----- the result is the path without its beginning -----

  lemma CleanSuffix(lower: string, k: nat, patterns: seq<string>)
    requires Clean(lower, patterns) && k + 4 <= |lower|
    ensures Clean(lower[k..], patterns)
  {
    assert lower == lower[..k] + lower[k..] + "";
    forall p | p in patterns ensures !Contains(lower[k..], p) {
      if Contains(lower[k..], p) { ContainsWithin(lower[..k], lower[k..], "", p); }
    }
  }

  lemma LowerDrop(path: string, k: nat)
    requires k <= |path|
    ensures Lower(path[k..]) == Lower(path)[k..]
  {}

  lemma HomeStays(tail: string)
    ensures Lower(HOME + tail) == HOME + Lower(tail) && (HOME + tail)[|HOME|..] == tail
  {
    LowerAppend(HOME, tail);
    assert Lower(HOME) == HOME;
  }

  lemma TailText(path: string, marker: string, home: string, at: nat)
    requires OccursAt(Lower(path), marker, at) && |marker| == |home| + 1 && Lower(home) == home
    requires forall i | 0 <= i < |home| :: marker[i + 1] == home[i]
    ensures Lower(home + path[at + |marker|..]) == Lower(path)[at + 1..]
  {
    var a, b := Lower(home + path[at + |marker|..]), Lower(path)[at + 1..];
    forall i | 0 <= i < |home| ensures a[i] == b[i] {
      assert a[i] == LowerChar(home[i]) == Lower(home)[i];
      assert Lower(path)[at..at + |marker|][i + 1] == marker[i + 1];
    }
    assert |a| == |b| && forall i | |home| <= i < |a| :: a[i] == b[i];
  }

  lemma AfterMarkerText(path: string, at: nat)
    requires OccursAt(Lower(path), MARKER, at)
    ensures |path| >= at + |MARKER|
    ensures Lower(HOME + path[at + |MARKER|..]) == Lower(path)[at + 1..]
  {
    assert MARKER[1..] == HOME;
    assert Lower(HOME) == HOME;
    TailText(path, MARKER, HOME, at);
  }

  // Up to letter case, every result is a suffix of its path.
  lemma ResultSuffix(path: string) returns (k: nat)
    requires Normalized(path).Some? && EndsWith(Lower(path), ".zig")
    ensures k + 4 <= |path| && Lower(Normalized(path).value) == Lower(path)[k..]
  {
    var f := FormOf(path);
    k := if f.AfterMarker? then f.at + 1 else if f.WithoutDot? then 2 else 0;
    if f.AfterMarker? { AfterMarkerText(path, f.at); } else { FormDrop(path, k); }
  }

  lemma FormDrop(path: string, k: nat)
    requires Normalized(path).Some? && !FormOf(path).AfterMarker? && EndsWith(Lower(path), ".zig")
    requires k == if FormOf(path).WithoutDot? then 2 else 0
    ensures k <= |path| && Lower(Normalized(path).value) == Lower(path)[k..]
  {
    LowerDrop(path, k);
  }

  // ----- which paths are accepted, and as what -----

  // The last marker stands here, with an acceptable tail.
  ghost predicate LastMarker(path: string, at: nat) {
    var lower := Lower(path);
    && OccursAt(lower, "/tovarisch/src/", at) && (forall j | at < j :: !OccursAt(lower, "/tovarisch/src/", j))
    && var tail := path[at + 15..]; tail != "" && tail[0] != '/' && !Contains(tail, "/../")
  }

  lemma LastMarkerIff(path: string, at: nat)
    ensures FormOf(path) == AfterMarker(at) <==> LastMarker(path, at)
  {
    var lower := Lower(path);
    assert |MARKER| == 15;
    forall j: nat | OccursAt(lower, MARKER, j) ensures RFind(lower, MARKER).Some? && j <= RFind(lower, MARKER).value {
      RFindLast(lower, MARKER, |lower| + 1, j);
    }
  }

  // A relative path that is kept as it is, and one that loses its dot.
  ghost predicate Kept(lower: string) { "tovarisch/src/" <= lower || "src/" <= lower }

  ghost predicate Dotted(lower: string) { "./tovarisch/src/" <= lower || "./src/" <= lower }

  ghost predicate NothingForbidden(lower: string) {
    && !Contains(lower, "zig-cache") && !Contains(lower, ".zig-cache") && !Contains(lower, "zig-out")
    && !Contains(lower, ".git") && !Contains(lower, "/usr/") && !Contains(lower, "/opt/homebrew/")
    && !Contains(lower, "/nix/store/") && !Contains(lower, "/.cache/") && !Contains(lower, "kcov-")
    && !Contains(lower, "compiler_rt/") && !Contains(lower, "std/zig/")
  }

  lemma ForbiddenIff(lower: string)
    ensures NothingForbidden(lower) <==> forall p | p in FORBIDDEN :: !Contains(lower, p)
  {
    AllForbidden((p: string) => !Contains(lower, p));
  }

  lemma AllForbidden(ok: string -> bool)
    ensures (forall p | p in FORBIDDEN :: ok(p)) <==>
            && ok("zig-cache") && ok(".zig-cache") && ok("zig-out") && ok(".git") && ok("/usr/") && ok("/opt/homebrew/")
            && ok("/nix/store/") && ok("/.cache/") && ok("kcov-") && ok("compiler_rt/") && ok("std/zig/")
  {
    AllOfSix("zig-cache", ".zig-cache", "zig-out", ".git", "/usr/", "/opt/homebrew/", ok);
    AllOfSix("/nix/store/", "/.cache/", "kcov-", "compiler_rt/", "std/zig/", "std/zig/", ok);
    var a := ["zig-cache", ".zig-cache", "zig-out", ".git", "/usr/", "/opt/homebrew/"];
    var b := ["/nix/store/", "/.cache/", "kcov-", "compiler_rt/", "std/zig/"];
    assert FORBIDDEN == a + b;
    assert forall p :: p in b <==> p in b + ["std/zig/"];
    assert b + ["std/zig/"] == ["/nix/store/", "/.cache/", "kcov-", "compiler_rt/", "std/zig/", "std/zig/"];
  }

  lemma AllOfSix(a: string, b: string, c: string, d: string, e: string, f: string, ok: string -> bool)
    ensures (forall p | p in [a, b, c, d, e, f] :: ok(p)) <==> ok(a) && ok(b) && ok(c) && ok(d) && ok(e) && ok(f)
  {
    assert a in [a, b, c, d, e, f] && b in [a, b, c, d, e, f] && c in [a, b, c, d, e, f];
    assert d in [a, b, c, d, e, f] && e in [a, b, c, d, e, f] && f in [a, b, c, d, e, f];
  }

  // Main result. For every path: it is accepted exactly when it ends in .zig, holds no forbidden
  // pattern, and has such a marker or is relative in one of the four ways; and what it becomes.
  lemma AcceptedExactly(filepath: string)
    ensures var path, r := Slashes(filepath), NormalizeTovarischSrcPath(filepath);
            var lower := Lower(path);
            && (r.Some? <==>
                && EndsWith(lower, ".zig") && NothingForbidden(lower)
                && ((exists at: nat :: LastMarker(path, at)) || Kept(lower) || Dotted(lower)))
            && (r.Some? ==>
                if exists at: nat :: LastMarker(path, at)
                then exists at: nat :: LastMarker(path, at) && r.value == "tovarisch/src/" + path[at + 15..]
                else r.value == if Dotted(lower) then path[2..] else path)
  {
    var path := Slashes(filepath);
    assert |MARKER| == 15;
    if FormOf(path).AfterMarker? { LastMarkerIff(path, FormOf(path).at); }
    if at: nat :| LastMarker(path, at) { LastMarkerIff(path, at); }
    DotFirst(Lower(path));
    ForbiddenIff(Lower(path));
  }

  lemma DotFirst(lower: string)
    ensures Dotted(lower) ==> !Kept(lower)
  {
    assert "./tovarisch/src/"[0] == '.' && "./src/"[0] == '.' && "tovarisch/src/"[0] == 't' && "src/"[0] == 's';
  }

  // ----- recognising a result again -----

  // The part after the last marker holds no further marker, even an overlapping one, so the
  // result is recognised by its prefix and kept.
  lemma MarkerFormStays(path: string)
    requires FormOf(path).AfterMarker?
    ensures var q := Normalized(path).value;
            HOME <= q && GoodTail(q[|HOME|..]) && !Contains(Lower(q), MARKER) && Normalized(q) == Some(q)
  {
    var at := FormOf(path).at;
    var q := Normalized(path).value;
    AfterMarkerText(path, at);
    RFindSuffix(Lower(path), MARKER, at + 1);
    NoOccurrence(Lower(q), MARKER);
    HomeStays(path[at + |MARKER|..]);
    assert Lower(q)[0] == 't';
  }

  // Dropping characters in front of the last marker keeps what follows it.
  lemma SameTail(path: string, k: nat, marker: string)
    requires k <= |path| && GoodMarker(path[k..], marker).Some?
    ensures GoodMarker(path, marker).Some?
  {
    LowerDrop(path, k);
    RFindSuffix(Lower(path), marker, k);
    var n := GoodMarker(path[k..], marker).value + |marker|;
    WithinSuffix(path, k, n, n);
  }

  lemma HomePrefix(path: string)
    requires HOME <= Lower(path) || "src/" <= Lower(path)
    ensures !FormOf(path).AfterMarker? ==> Normalized(path) == Some(path)
  {
    assert Lower(path)[0] == 't' || Lower(path)[0] == 's';
  }

  // Dropping "./" gives a path that is kept as it is.
  lemma WithoutDotStays(path: string)
    requires FormOf(path).WithoutDot?
    ensures Normalized(path[2..]) == Some(path[2..])
  {
    var q := path[2..];
    LowerDrop(path, 2);
    assert "./tovarisch/src/"[2..] == HOME && "./src/"[2..] == "src/";
    HomePrefix(q);
    if FormOf(q).AfterMarker? { SameTail(path, 2, MARKER); }
  }

  lemma ResultStays(path: string)
    requires Normalized(path).Some?
    ensures var q := Normalized(path).value; Normalized(q) == Some(q)
  {
    match FormOf(path)
    case AfterMarker(_) => MarkerFormStays(path);
    case WithoutDot => WithoutDotStays(path);
    case AsItIs =>
  }

  lemma ResultSlashes(path: string)
    requires Normalized(path).Some? && '\\' !in path
    ensures Slashes(Normalized(path).value) == Normalized(path).value
  {
    var q := Normalized(path).value;
    assert '\\' !in HOME;
    forall i | 0 <= i < |q| ensures q[i] != '\\' { assert q[i] in q; }
  }

  // Main result, for every list of forbidden patterns: a returned path normalises to itself,
  // still ends in .zig and contains no forbidden pattern.
  lemma NormalizeIdempotent(filepath: string, patterns: seq<string>)
    requires Normalize(filepath, patterns).Some?
    ensures var q := Normalize(filepath, patterns).value;
            Clean(Lower(q), patterns) && Slashes(q) == q && Normalize(q, patterns) == Some(q)
  {
    var path := Slashes(filepath);
    var q := Normalized(path).value;
    var k := ResultSuffix(path);
    CleanSuffix(Lower(path), k, patterns);
    assert '\\' !in path;
    ResultSlashes(path);
    ResultStays(path);
    assert |Lower(q)| >= 4;
  }

  // In the marker case the result also holds no further marker and no inner "/../".
  lemma MarkerResult(filepath: string)
    requires NormalizeTovarischSrcPath(filepath).Some? && FormOf(Slashes(filepath)).AfterMarker?
    ensures var q := NormalizeTovarischSrcPath(filepath).value;
            HOME <= q && !Contains(Lower(q), MARKER) && !Contains(q[|HOME|..], "/../")
  {
    MarkerFormStays(Slashes(filepath));
  }

  // ----- parent directories -----

  // A component of the path is the parent directory.
  predicate Climbs(path: string) { ".." in Split(path, '/') }

  lemma ComponentAfter(name: string, rest: string)
    requires '/' !in name && name != ".."
    ensures Climbs(name + ['/'] + rest) <==> Climbs(rest)
  {
    SplitCons(name, '/', rest);
  }

  // Where a parent directory can stand: alone, in front, at the end or between two slashes.
  lemma {:induction false} ClimbsWhere(s: string)
    ensures Climbs(s) <==> s == ".." || "../" <= s || EndsWith(s, "/..") || Contains(s, "/../")
    decreases |s|
  {
    var i := IndexOf(s, '/');
    var head, tail := s[..i], s[if i < |s| then i + 1 else i..];
    if i == |s| {
      NoSlashNoClimb(s);
    } else {
      assert s == head + ['/'] + tail;
      SplitCons(head, '/', tail);
      ClimbsWhere(tail);
      BehindSlash(head, tail);
      if head == ".." { assert "../" <= s; } else { FrontClimb(head, tail); }
    }
  }

  lemma NoSlashNoClimb(s: string)
    requires '/' !in s
    ensures Climbs(s) <==> s == ".."
    ensures !("../" <= s) && !EndsWith(s, "/..") && !Contains(s, "/../")
  {
    SplitFree(s, '/');
    assert '/' in "../" && '/' in "/..";
    MissingChar(s, "../", '/');
    MissingChar(s, "/..", '/');
    MissingChar(s, "/../", '/');
    assert "../" <= s ==> OccursAt(s, "../", 0);
    assert EndsWith(s, "/..") ==> OccursAt(s, "/..", |s| - 3);
  }

  lemma FrontClimb(head: string, tail: string)
    requires '/' !in head
    ensures "../" <= head + ['/'] + tail ==> head == ".."
    ensures head + ['/'] + tail != ".."
  {
    var s := head + ['/'] + tail;
    assert s[|head|] == '/' && s[|head|] in s;
    if "../" <= s {
      assert s[0] == '.' && s[1] == '.' && s[2] == '/';
      assert |head| == 2 by { assert s[2] !in head; }
    }
  }

  // What stands behind the first slash.
  lemma BehindSlash(head: string, tail: string)
    requires '/' !in head
    ensures var s := head + ['/'] + tail;
            EndsWith(s, "/..") || Contains(s, "/../") <==>
            tail == ".." || "../" <= tail || EndsWith(tail, "/..") || Contains(tail, "/../")
  {
    var s, n := head + ['/'] + tail, |head|;
    assert s[n] == '/' && s[n + 1..] == tail && s[n..] == ['/'] + tail;
    EndBehind(head, tail);
    InnerBehind(head, tail);
  }

  lemma LastDots(s: string)
    requires EndsWith(s, "/..")
    ensures s[|s| - 1] == '.' && s[|s| - 2] == '.'
  {
    assert s[|s| - 3..][1] == s[|s| - 2] && s[|s| - 3..][2] == s[|s| - 1];
  }

  lemma EndBehind(head: string, tail: string)
    requires '/' !in head
    ensures EndsWith(head + ['/'] + tail, "/..") <==> tail == ".." || EndsWith(tail, "/..")
  {
    var s, n := head + ['/'] + tail, |head|;
    if |tail| >= 3 {
      assert s[|s| - 3..] == tail[|tail| - 3..];
    } else if |tail| == 2 {
      assert s[|s| - 3..] == ['/'] + tail;
      assert "/.." == ['/'] + ".." && (['/'] + tail)[1..] == tail;
    } else {
      assert s[|head|] == '/';
      if EndsWith(s, "/..") { LastDots(s); }
    }
  }

  lemma InnerBehind(head: string, tail: string)
    requires '/' !in head
    ensures Contains(head + ['/'] + tail, "/../") <==> "../" <= tail || Contains(tail, "/../")
  {
    var s := head + ['/'] + tail;
    if Contains(s, "/../") {
      var i :| 0 <= i <= |s| && OccursAt(s, "/../", i);
      InnerPlace(head, tail, i);
    }
    if "../" <= tail {
      assert s == head + "/../" + tail[3..];
      assert OccursAt("/../", "/../", 0);
      ContainsWithin(head, "/../", tail[3..], "/../");
    }
    if Contains(tail, "/../") {
      ContainsWithin(head + ['/'], tail, "", "/../");
      assert head + ['/'] + tail + "" == s;
    }
  }

  lemma InnerPlace(head: string, tail: string, i: nat)
    requires '/' !in head && OccursAt(head + ['/'] + tail, "/../", i)
    ensures "../" <= tail || Contains(tail, "/../")
  {
    var s, n := head + ['/'] + tail, |head|;
    OccursChars(s, "/../", i);
    assert s[i] == '/' && forall j | 0 <= j < n :: s[j] in head;
    assert s[n + 1..] == tail;
    if i == n {
      assert tail[0] == s[i + 1] && tail[1] == s[i + 2] && tail[2] == s[i + 3];
    } else {
      WithinSuffix(s, n + 1, i - n - 1, i - n + 3);
      assert OccursAt(tail, "/../", i - n - 1);
    }
  }

  lemma HomeClimbs(tail: string)
    ensures Climbs(HOME + tail) <==> Climbs(tail)
  {
    assert HOME == "tovarisch" + ['/'] + "src" + ['/'];
    assert HOME + tail == "tovarisch" + ['/'] + ("src" + ['/'] + tail);
    ComponentAfter("tovarisch", "src" + ['/'] + tail);
    ComponentAfter("src", tail);
  }

  lemma ZigEnd(path: string)
    requires EndsWith(Lower(path), ".zig")
    ensures path[|path| - 1] != '.'
  {
    assert Lower(path)[|path| - 4..][3] == Lower(path)[|path| - 1] == 'g';
  }

  // Main result: when a result leads out of its directory. Behind a marker the only way is a
  // tail that begins with "../", which the guard against "/../" misses; the relative forms have
  // no guard, so there the result climbs exactly when the given path does.
  lemma ResultClimbs(filepath: string)
    requires NormalizeTovarischSrcPath(filepath).Some?
    ensures var path, q := Slashes(filepath), NormalizeTovarischSrcPath(filepath).value;
            Climbs(q) <==>
            if FormOf(path).AfterMarker? then "../" <= path[FormOf(path).at + |MARKER|..] else Climbs(path)
  {
    var path := Slashes(filepath);
    var q := Normalized(path).value;
    match FormOf(path)
    case AfterMarker(at) => MarkerClimbs(path);
    case WithoutDot => DotClimbs(path);
    case AsItIs =>
  }

  lemma MarkerClimbs(path: string)
    requires FormOf(path).AfterMarker? && EndsWith(Lower(path), ".zig")
    ensures Climbs(Normalized(path).value) <==> "../" <= path[FormOf(path).at + |MARKER|..]
  {
    var at, q := FormOf(path).at, Normalized(path).value;
    var tail := path[at + |MARKER|..];
    MarkerFormStays(path);
    HomeStays(tail);
    HomeClimbs(tail);
    ClimbsWhere(tail);
    TailEnds(path, at + |MARKER|, tail);
  }

  lemma DotClimbs(path: string)
    requires FormOf(path).WithoutDot?
    ensures Climbs(path[2..]) <==> Climbs(path)
  {
    DotSlash(path);
    assert path == "." + ['/'] + path[2..];
    ComponentAfter(".", path[2..]);
  }

  lemma DotSlash(path: string)
    requires FormOf(path).WithoutDot?
    ensures path[0] == '.' && path[1] == '/'
  {
    var lower := Lower(path);
    assert lower[0] == '.' && lower[1] == '/';
  }

  // A tail that ends in .zig ends in no parent directory.
  lemma TailEnds(path: string, at: nat, tail: string)
    requires EndsWith(Lower(path), ".zig") && at <= |path| && tail == path[at..] && tail != ""
    ensures tail != ".." && !EndsWith(tail, "/..")
  {
    ZigEnd(path);
    assert tail[|tail| - 1] == path[|path| - 1];
    if EndsWith(tail, "/..") { LastDots(tail); }
  }

  // ----- independence of the checkout's location -----

  lemma MarkerInLower(path: string, k: nat, tail: string)
    requires k <= |path| && path[k..] == MARKER + tail
    ensures OccursAt(Lower(path), MARKER, k)
    ensures Lower(path)[k + 1..] == Lower(HOME + tail)
    ensures path[k + |MARKER|..] == tail
  {
    var m := |MARKER|;
    WithinSuffix(path, k, 0, m);
    WithinSuffix(path, k, m, m);
    assert path[k..][0..m] == MARKER && path[k..][m..] == tail;
    assert Lower(MARKER) == MARKER;
    LowerSlice(path, k, k + m);
    AfterMarkerText(path, k);
  }

  // The last marker of a directory in front of a marker form is the one where they meet.
  lemma MeetingMarker(path: string, k: nat, tail: string)
    requires k <= |path| && path[k..] == MARKER + tail
    requires !Contains(Lower(HOME + tail), MARKER)
    ensures RFind(Lower(path), MARKER) == Some(k) && path[k + |MARKER|..] == tail
  {
    MarkerInLower(path, k, tail);
    RFindHere(Lower(path), MARKER, k);
  }

  // Wherever a checkout lies, a file of the project gets the same name: putting a directory in
  // front of a marker form changes the outcome only by making the whole path unclean.
  lemma LocationIndependence(root: string, tail: string, patterns: seq<string>)
    requires GoodTail(tail) && '\\' !in tail
    requires !Contains(Lower(HOME + tail), MARKER)
    ensures var filepath := root + (MARKER + tail);
            Normalize(filepath, patterns) ==
            if Clean(Lower(Slashes(filepath)), patterns) then Some(HOME + tail) else None
  {
    var filepath := root + (MARKER + tail);
    var path := Slashes(filepath);
    assert path[|root|..] == MARKER + tail by {
      assert '\\' !in MARKER + tail;
      assert filepath[|root|..] == MARKER + tail;
    }
    MeetingMarker(path, |root|, tail);
  }

  // ----- a path that climbs -----

  const CLIMBING_TAIL := "../evil.zig"

  // Lower case, and without a letter of each pattern but the two that are told apart by pairs.
  ghost predicate Harmless(s: string) {
    forall c | c in s :: !('A' <= c <= 'Z') && c !in "-pnd_" && c != 'u' && c != '\\'
  }

  lemma HomeLetters()
    ensures Harmless("/x") && Harmless(HOME)
  {}

  lemma TailLetters()
    ensures Harmless(CLIMBING_TAIL)
  {}

  lemma ClimbingLetters()
    ensures Harmless("/x") && Harmless(HOME) && Harmless(CLIMBING_TAIL)
  {
    HomeLetters();
    TailLetters();
  }

  lemma ClimbingPairs()
    ensures NoPair("/x", '.', 'g') && NoPair(MARKER, '.', 'g') && NoPair(CLIMBING_TAIL, '.', 'g')
    ensures NoPair("/x", '.', 'c') && NoPair(MARKER, '.', 'c') && NoPair(CLIMBING_TAIL, '.', 'c')
  {}

  lemma ClimbingSlashes()
    ensures NoPair(HOME, '/', 't') && NoPair(CLIMBING_TAIL, '/', 't') && NoPair(CLIMBING_TAIL, '/', '.')
  {}

  function ClimbingPath(): string { "/x" + (MARKER + CLIMBING_TAIL) }

  lemma ClimbingHarmless()
    ensures Harmless(ClimbingPath()) && Lower(ClimbingPath()) == ClimbingPath() && EndsWith(ClimbingPath(), ".zig")
    ensures Slashes(ClimbingPath()) == ClimbingPath()
  {
    ClimbingLetters();
    assert MARKER == "/" + HOME;
    var p := ClimbingPath();
    forall i | 0 <= i < |p| ensures LowerChar(p[i]) == p[i] && p[i] != '\\' { assert p[i] in p; }
  }

  // A letter of a pattern that the climbing path does not have.
  lemma TellingLetter(p: string) returns (c: char)
    requires p in FORBIDDEN && p != ".git" && p != "/.cache/"
    ensures c in p && (c in "-pnd_" || c == 'u')
  {
    if p == "/usr/" {
      c := p[1];
    } else if p == "/opt/homebrew/" {
      c := p[2];
    } else if p == "/nix/store/" {
      c := p[1];
    } else if p == "compiler_rt/" {
      c := p[3];
    } else if p == "std/zig/" {
      c := p[2];
    } else {
      c := '-';
      assert "zig-cache"[3] == c && ".zig-cache"[4] == c && "zig-out"[3] == c && "kcov-"[4] == c;
    }
  }

  lemma ClimbingNoPattern(p: string)
    requires p in FORBIDDEN
    ensures !Contains(ClimbingPath(), p)
  {
    ClimbingHarmless();
    ClimbingPairs();
    NoPairJoined(MARKER, CLIMBING_TAIL, '.', 'g');
    NoPairJoined("/x", MARKER + CLIMBING_TAIL, '.', 'g');
    NoPairJoined(MARKER, CLIMBING_TAIL, '.', 'c');
    NoPairJoined("/x", MARKER + CLIMBING_TAIL, '.', 'c');
    if p == ".git" {
      MissingPair(ClimbingPath(), p, 0);
    } else if p == "/.cache/" {
      MissingPair(ClimbingPath(), p, 1);
    } else {
      var c := TellingLetter(p);
      MissingChar(ClimbingPath(), p, c);
    }
  }

  lemma ClimbingOnce()
    ensures GoodTail(CLIMBING_TAIL) && !Contains(Lower(HOME + CLIMBING_TAIL), MARKER)
  {
    ClimbingLetters();
    ClimbingSlashes();
    var q := HOME + CLIMBING_TAIL;
    forall i | 0 <= i < |q| ensures LowerChar(q[i]) == q[i] { assert q[i] in q; }
    assert Lower(q) == q;
    NoPairJoined(HOME, CLIMBING_TAIL, '/', 't');
    MissingPair(q, MARKER, 0);
    MissingPair(CLIMBING_TAIL, "/../", 0);
  }

  lemma TailClimbs()
    ensures Climbs(HOME + CLIMBING_TAIL)
  {
    HomeClimbs(CLIMBING_TAIL);
    SplitCons("..", '/', "evil.zig");
    assert CLIMBING_TAIL == ".." + ['/'] + "evil.zig";
  }

  // The guard does not keep a result in the tree: this path is accepted, and its result names
  // the directory above.
  lemma ClimbingAccepted()
    ensures NormalizeTovarischSrcPath("/x" + (MARKER + "../evil.zig")) == Some(HOME + "../evil.zig")
    ensures Climbs(HOME + "../evil.zig")
  {
    ClimbingHarmless();
    forall p | p in FORBIDDEN ensures !Contains(ClimbingPath(), p) { ClimbingNoPattern(p); }
    ClimbingOnce();
    assert '\\' !in CLIMBING_TAIL by { ClimbingLetters(); }
    LocationIndependence("/x", CLIMBING_TAIL, FORBIDDEN);
    TailClimbs();
  }
}

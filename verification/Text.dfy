/** Strings as the sources use them: splitting, joining, trimming, searching, decimals. */
module Text {

  datatype Option<+T> = None | Some(value: T)

  // ----- searching -----

  predicate OccursAt(s: string, t: string, i: int) {
    0 <= i && i + |t| <= |s| && s[i..i + |t|] == t
  }

  predicate Contains(s: string, t: string) {
    exists i | 0 <= i <= |s| :: OccursAt(s, t, i)
  }

  predicate EndsWith(s: string, t: string) {
    |t| <= |s| && s[|s| - |t|..] == t
  }

  lemma ContainsWithin(a: string, s: string, b: string, t: string)
    requires Contains(s, t)
    ensures Contains(a + s + b, t)
  {
    var i :| 0 <= i <= |s| && OccursAt(s, t, i);
    var w := a + s + b;
    assert w[|a| + i..|a| + i + |t|] == s[i..i + |t|];
    assert OccursAt(w, t, |a| + i);
  }

  lemma OccursChars(s: string, t: string, i: nat)
    requires OccursAt(s, t, i)
    ensures forall q | i <= q < i + |t| :: s[q] == t[q - i]
    ensures forall c | c in t :: c in s
  {
    forall q | i <= q < i + |t| ensures s[q] == t[q - i] { assert s[i..i + |t|][q - i] == t[q - i]; }
    forall c | c in t ensures c in s {
      var k :| 0 <= k < |t| && t[k] == c;
      assert s[i + k] == c;
    }
  }

  lemma MissingChar(s: string, t: string, c: char)
    requires c in t && c !in s
    ensures !Contains(s, t)
  {
    forall i | 0 <= i <= |s| ensures !OccursAt(s, t, i) {
      if OccursAt(s, t, i) { OccursChars(s, t, i); }
    }
  }

  // The two characters never stand next to each other in this order.
  ghost predicate NoPair(s: string, a: char, b: char) {
    forall j | 0 < j < |s| && s[j] == b :: s[j - 1] != a
  }

  lemma OccursPair(s: string, t: string, i: nat, k: nat)
    requires OccursAt(s, t, i) && k + 1 < |t|
    ensures !NoPair(s, t[k], t[k + 1])
  {
    OccursChars(s, t, i);
    assert s[i + k + 1] == t[k + 1] && s[i + k] == t[k];
  }

  lemma MissingPair(s: string, t: string, k: nat)
    requires k + 1 < |t| && NoPair(s, t[k], t[k + 1])
    ensures !Contains(s, t)
  {
    forall i | 0 <= i <= |s| ensures !OccursAt(s, t, i) {
      if OccursAt(s, t, i) { OccursPair(s, t, i, k); }
    }
  }

  lemma NoPairJoined(s: string, t: string, a: char, b: char)
    requires NoPair(s, a, b) && NoPair(t, a, b)
    requires s == "" || t == "" || s[|s| - 1] != a || t[0] != b
    ensures NoPair(s + t, a, b)
  {}

  // ----- texts put together -----

  function Concat(parts: seq<string>): string {
    if parts == [] then "" else parts[0] + Concat(parts[1..])
  }

  // What concatenation keeps holds of a text if it holds of its parts.
  lemma {:induction false} ConcatKeeps(parts: seq<string>, ok: string -> bool)
    requires ok("") && forall a, b | ok(a) && ok(b) :: ok(a + b)
    requires forall k | 0 <= k < |parts| :: ok(parts[k])
    ensures ok(Concat(parts))
  {
    if parts != [] { ConcatKeeps(parts[1..], ok); }
  }

  lemma {:induction false} ConcatContains(parts: seq<string>, k: nat, t: string)
    requires k < |parts| && Contains(Lower(parts[k]), t)
    ensures Contains(Lower(Concat(parts)), t)
  {
    var rest := Concat(parts[1..]);
    LowerAppend(parts[0], rest);
    if k == 0 {
      ContainsWithin("", Lower(parts[0]), Lower(rest), t);
      assert "" + Lower(parts[0]) + Lower(rest) == Lower(parts[0] + rest);
    } else {
      ConcatContains(parts[1..], k - 1, t);
      ContainsWithin(Lower(parts[0]), Lower(rest), "", t);
      assert Lower(parts[0]) + Lower(rest) + "" == Lower(parts[0] + rest);
    }
  }

  // ----- splitting on a separator and joining -----

  function IndexOf(s: string, c: char): (i: nat)
    ensures i <= |s|
    ensures c !in s[..i]
    ensures i < |s| ==> s[i] == c
  {
    if s == "" || s[0] == c then 0 else 1 + IndexOf(s[1..], c)
  }

  function Split(s: string, c: char): (parts: seq<string>)
    ensures |parts| >= 1
    decreases |s|
  {
    var i := IndexOf(s, c);
    if i == |s| then [s] else [s[..i]] + Split(s[i + 1..], c)
  }

  function Join(parts: seq<string>, c: char): string {
    if parts == [] then ""
    else if |parts| == 1 then parts[0]
    else parts[0] + [c] + Join(parts[1..], c)
  }

  ghost predicate FreeOf(parts: seq<string>, c: char) {
    forall i | 0 <= i < |parts| :: c !in parts[i]
  }

  lemma {:induction false} IndexOfFirst(a: string, c: char, rest: string)
    requires c !in a
    ensures IndexOf(a + [c] + rest, c) == |a|
  {
    if a != "" {
      IndexOfFirst(a[1..], c, rest);
      assert (a + [c] + rest)[1..] == a[1..] + [c] + rest;
    }
  }

  lemma SplitFree(s: string, c: char)
    requires c !in s
    ensures Split(s, c) == [s]
  {
    var i := IndexOf(s, c);
  }

  lemma SplitCons(a: string, c: char, rest: string)
    requires c !in a
    ensures Split(a + [c] + rest, c) == [a] + Split(rest, c)
  {
    IndexOfFirst(a, c, rest);
    var w := a + [c] + rest;
    assert w[..|a|] == a && w[|a| + 1..] == rest;
  }

  lemma {:induction false} SplitPieces(s: string, c: char)
    ensures FreeOf(Split(s, c), c)
    ensures forall p, x | p in Split(s, c) && x in p :: x in s
    decreases |s|
  {
    var i := IndexOf(s, c);
    if i < |s| {
      SplitPieces(s[i + 1..], c);
    }
  }

  lemma {:induction false} SplitJoin(parts: seq<string>, c: char)
    requires parts != [] && FreeOf(parts, c)
    ensures Split(Join(parts, c), c) == parts
  {
    if |parts| == 1 {
      SplitFree(parts[0], c);
    } else {
      SplitCons(parts[0], c, Join(parts[1..], c));
      SplitJoin(parts[1..], c);
    }
  }

  lemma {:induction false} JoinFree(parts: seq<string>, c: char, x: char)
    requires x != c && FreeOf(parts, x)
    ensures x !in Join(parts, c)
  {
    if |parts| > 1 { JoinFree(parts[1..], c, x); }
  }

  lemma JoinCons(a: string, rest: seq<string>, c: char)
    requires rest != []
    ensures Join([a] + rest, c) == a + [c] + Join(rest, c)
  {
    assert ([a] + rest)[1..] == rest;
  }

  lemma {:induction false} JoinSplit(s: string, c: char)
    ensures Join(Split(s, c), c) == s
    decreases |s|
  {
    var i := IndexOf(s, c);
    if i < |s| {
      JoinSplit(s[i + 1..], c);
      JoinCons(s[..i], Split(s[i + 1..], c), c);
      assert s == s[..i] + [c] + s[i + 1..];
    }
  }

  // ----- white space -----

  // What Python's str.strip and \s treat as white space.
  predicate PySpace(c: char) {
    '\t' <= c <= '\r' || '\U{1c}' <= c <= ' ' || c == '\U{85}' || c == '\U{a0}' || c == '\U{1680}'
    || '\U{2000}' <= c <= '\U{200a}' || c == '\U{2028}' || c == '\U{2029}' || c == '\U{202f}'
    || c == '\U{205f}' || c == '\U{3000}'
  }

  // Go's unicode.IsSpace: as above without the four ASCII separators.
  predicate GoSpace(c: char) {
    PySpace(c) && !('\U{1c}' <= c <= '\U{1f}')
  }

  function LStrip(s: string, space: char -> bool): string {
    if s != "" && space(s[0]) then LStrip(s[1..], space) else s
  }

  function RStrip(s: string, space: char -> bool): string {
    if s != "" && space(s[|s| - 1]) then RStrip(s[..|s| - 1], space) else s
  }

  function Strip(s: string, space: char -> bool): string {
    RStrip(LStrip(s, space), space)
  }

  lemma StripTight(s: string, space: char -> bool)
    requires s != "" ==> !space(s[0]) && !space(s[|s| - 1])
    ensures Strip(s, space) == s
  {}

  // A text that starts with a non-blank keeps its start under a right strip.
  lemma {:induction false} RStripPrefix(s: string, p: string, space: char -> bool)
    requires p != "" && !space(p[|p| - 1])
    ensures p <= RStrip(s, space) <==> p <= s
  {
    if s != "" && space(s[|s| - 1]) {
      var t := s[..|s| - 1];
      RStripPrefix(t, p, space);
      assert p <= s ==> p[|p| - 1] == s[|p| - 1];
      assert p <= s <==> p <= t;
    }
  }

  // ----- blanks -----

  ghost predicate Blank(s: string) { forall c | c in s :: PySpace(c) }

  lemma {:induction false} LStripBlank(a: string, t: string)
    requires Blank(a) && (t != "" ==> !PySpace(t[0]))
    ensures LStrip(a + t, PySpace) == t
  {
    if a == "" {
      assert a + t == t;
    } else {
      assert (a + t)[1..] == a[1..] + t && a[0] in a;
      LStripBlank(a[1..], t);
    }
  }

  lemma {:induction false} LStripSplits(s: string) returns (a: string)
    ensures Blank(a) && s == a + LStrip(s, PySpace)
    ensures LStrip(s, PySpace) != "" ==> !PySpace(LStrip(s, PySpace)[0])
  {
    if s != "" && PySpace(s[0]) {
      var a' := LStripSplits(s[1..]);
      a := [s[0]] + a';
    } else {
      a := "";
    }
  }

  lemma {:induction false} RStripBlank(t: string, b: string)
    requires Blank(b) && (t != "" ==> !PySpace(t[|t| - 1]))
    ensures RStrip(t + b, PySpace) == t
  {
    if b == "" {
      assert t + b == t;
    } else {
      var n := |b| - 1;
      assert (t + b)[..|t + b| - 1] == t + b[..n] && (t + b)[|t + b| - 1] == b[n] && b[n] in b;
      RStripBlank(t, b[..n]);
    }
  }

  lemma {:induction false} RStripSplits(s: string) returns (b: string)
    ensures Blank(b) && s == RStrip(s, PySpace) + b
    ensures var t := RStrip(s, PySpace); t != "" ==> !PySpace(t[|t| - 1])
  {
    if s != "" && PySpace(s[|s| - 1]) {
      var b' := RStripSplits(s[..|s| - 1]);
      b := b' + [s[|s| - 1]];
    } else {
      b := "";
    }
  }

  // Trimming takes the blanks at both ends and nothing else.
  lemma StripExactly(s: string) returns (a: string, b: string)
    ensures var t := Strip(s, PySpace);
            Blank(a) && Blank(b) && s == a + t + b && (t != "" ==> !PySpace(t[0]) && !PySpace(t[|t| - 1]))
  {
    a := LStripSplits(s);
    b := RStripSplits(LStrip(s, PySpace));
  }

  function Spaces(n: nat): string { seq(n, _ => ' ') }

  lemma RStripSpaces(s: string, n: nat)
    requires s != "" ==> !PySpace(s[|s| - 1])
    ensures RStrip(s + Spaces(n), PySpace) == s
  {
    RStripBlank(s, Spaces(n));
  }

  lemma LStripSpaces(n: nat, t: string)
    requires t != "" && !PySpace(t[0])
    ensures LStrip(Spaces(n) + t, PySpace) == t
  {
    LStripBlank(Spaces(n), t);
  }

  // Cutting a text short cannot make its stripped form start with p.
  lemma StripOfPrefix(s: string, n: nat, p: string, space: char -> bool)
    requires n <= |s| && p != "" && !space(p[0]) && !space(p[|p| - 1])
    requires p <= Strip(s[..n], space)
    ensures p <= Strip(s, space)
  {
    RStripPrefix(LStrip(s[..n], space), p, space);
    RStripPrefix(LStrip(s, space), p, space);
    LStripOfPrefix(s, n, p, space);
  }

  lemma {:induction false} LStripOfPrefix(s: string, n: nat, p: string, space: char -> bool)
    requires n <= |s| && p != "" && !space(p[0])
    requires p <= LStrip(s[..n], space)
    ensures p <= LStrip(s, space)
  {
    if n > 0 && space(s[0]) {
      assert s[..n][1..] == s[1..][..n - 1];
      LStripOfPrefix(s[1..], n - 1, p, space);
    }
  }

  // ----- ASCII case -----

  function LowerChar(c: char): char {
    if 'A' <= c <= 'Z' then (c as int + 32) as char else c
  }

  function Lower(s: string): (r: string)
    ensures |r| == |s|
    ensures forall i | 0 <= i < |s| :: r[i] == LowerChar(s[i])
  {
    seq(|s|, i requires 0 <= i < |s| => LowerChar(s[i]))
  }

  lemma LowerSlice(s: string, i: nat, j: nat)
    requires i <= j <= |s|
    ensures Lower(s[i..j]) == Lower(s)[i..j]
  {}

  lemma LowerAppend(s: string, t: string)
    ensures Lower(s + t) == Lower(s) + Lower(t)
  {}

  // ----- decimals -----

  predicate IsDigit(c: char) { '0' <= c <= '9' }

  function DigitChar(d: nat): (c: char)
    requires d < 10
    ensures IsDigit(c)
  {
    (d + 48) as char
  }

  function DigitValue(c: char): (d: nat)
    requires IsDigit(c)
    ensures d < 10
  {
    c as int - 48
  }

  ghost predicate AllDigits(s: string) { forall c | c in s :: IsDigit(c) }

  // str(n) for a natural number.
  function Decimal(n: nat): (s: string)
    ensures s != "" && AllDigits(s)
    ensures s[0] == '0' ==> s == "0"
    ensures n > 0 ==> s[0] != '0'
  {
    if n < 10 then [DigitChar(n)] else Decimal(n / 10) + [DigitChar(n % 10)]
  }

  // str(n) for any integer.
  function IntText(n: int): string {
    if n < 0 then "-" + Decimal(-n) else Decimal(n)
  }

  function DecimalValue(s: string): nat
    requires AllDigits(s)
  {
    if s == "" then 0 else 10 * DecimalValue(s[..|s| - 1]) + DigitValue(s[|s| - 1])
  }

  lemma {:induction false} DecimalRoundTrip(n: nat)
    ensures DecimalValue(Decimal(n)) == n
  {
    if n >= 10 {
      DecimalRoundTrip(n / 10);
      var s := Decimal(n);
      assert s[..|s| - 1] == Decimal(n / 10);
    }
  }

  // How many digits the text starts with.
  function DigitPrefix(s: string): (k: nat)
    ensures k <= |s| && AllDigits(s[..k])
    ensures k < |s| ==> !IsDigit(s[k])
  {
    if s != "" && IsDigit(s[0]) then 1 + DigitPrefix(s[1..]) else 0
  }

  lemma {:induction false} DigitPrefixUnique(d: string, rest: string)
    requires AllDigits(d)
    requires rest != "" ==> !IsDigit(rest[0])
    ensures DigitPrefix(d + rest) == |d|
  {
    if d != "" {
      assert d[0] in d;
      DigitPrefixUnique(d[1..], rest);
      assert (d + rest)[1..] == d[1..] + rest;
    }
  }

  // A decimal of at most k digits is below the k-th power of ten.
  function Pow10(k: nat): (p: nat)
    ensures p > 0
  {
    if k == 0 then 1 else 10 * Pow10(k - 1)
  }

  lemma {:induction false} DecimalLength(n: nat, k: nat)
    requires k > 0
    ensures |Decimal(n)| <= k <==> n < Pow10(k)
  {
    if n >= 10 {
      if k > 1 {
        DecimalLength(n / 10, k - 1);
        assert Pow10(k) == 10 * Pow10(k - 1);
      }
    } else {
      assert Pow10(k) == 10 * Pow10(k - 1);
    }
  }

  // str(b).lower() for a truth value.
  function LowerBool(b: bool): string { if b then "true" else "false" }

  lemma {:induction false} JoinSplitAt(first: seq<string>, second: seq<string>, c: char)
    requires first != [] && second != []
    ensures Join(first + second, c) == Join(first, c) + [c] + Join(second, c)
  {
    if |first| == 1 {
      assert first + second == [first[0]] + second;
      JoinCons(first[0], second, c);
    } else {
      assert first + second == [first[0]] + (first[1..] + second) && first == [first[0]] + first[1..];
      JoinCons(first[0], first[1..] + second, c);
      JoinCons(first[0], first[1..], c);
      JoinSplitAt(first[1..], second, c);
      assert first[0] + [c] + (Join(first[1..], c) + [c] + Join(second, c))
          == first[0] + [c] + Join(first[1..], c) + [c] + Join(second, c);
    }
  }

  // ----- Python's int() -----

  // int() on ASCII text without surrounding blanks: a sign, then digits that single
  // underscores may separate.
  predicate DigitGroups(s: string) {
    s != "" && IsDigit(s[0]) &&
    (|s| == 1 || (if s[1] == '_' then DigitGroups(s[2..]) else DigitGroups(s[1..])))
  }

  // Digits from the first to the last, with no two underscores together.
  lemma {:induction false} DigitGroupsIff(s: string)
    ensures DigitGroups(s) <==>
            && s != "" && IsDigit(s[0]) && IsDigit(s[|s| - 1])
            && forall i | 0 < i < |s| :: IsDigit(s[i]) || (s[i] == '_' && s[i - 1] != '_')
  {
    if s != "" && IsDigit(s[0]) && |s| > 1 {
      DigitGroupsIff(if s[1] == '_' then s[2..] else s[1..]);
      DigitPlaces(s, if s[1] == '_' then 2 else 1);
    }
  }

  lemma DigitPlaces(s: string, k: nat)
    requires 1 <= k <= 2 && |s| > 1 && IsDigit(s[0]) && (k == 2 <==> s[1] == '_')
    ensures (IsDigit(s[|s| - 1]) && forall i | 0 < i < |s| :: IsDigit(s[i]) || (s[i] == '_' && s[i - 1] != '_')) <==>
            var t := s[k..];
            && t != "" && IsDigit(t[0]) && IsDigit(t[|t| - 1])
            && forall i | 0 < i < |t| :: IsDigit(t[i]) || (t[i] == '_' && t[i - 1] != '_')
  {
    var t := s[k..];
    assert forall i | k <= i < |s| :: s[i] == t[i - k];
    if forall i | 0 < i < |s| :: IsDigit(s[i]) || (s[i] == '_' && s[i - 1] != '_') {
      forall i | 0 < i < |t| ensures IsDigit(t[i]) || (t[i] == '_' && t[i - 1] != '_') {
        assert s[i + k] == t[i] && s[i + k - 1] == t[i - 1];
      }
    }
  }

  function WithoutUnderscores(s: string): string {
    if s == "" then "" else (if s[0] == '_' then "" else [s[0]]) + WithoutUnderscores(s[1..])
  }

  lemma GroupsAreDigits(s: string)
    requires DigitGroups(s)
    ensures AllDigits(WithoutUnderscores(s))
  {
    if |s| > 1 {
      GroupsAreDigits(if s[1] == '_' then s[2..] else s[1..]);
      assert s[1] == '_' ==> s[1..][1..] == s[2..];
    } else {
      assert s[1..] == "";
    }
  }

  function PyInt(s: string): Option<int> {
    var negative := s != "" && s[0] == '-';
    var body := if s != "" && (s[0] == '-' || s[0] == '+') then s[1..] else s;
    if !DigitGroups(body) then None
    else
      GroupsAreDigits(body);
      var n := DecimalValue(WithoutUnderscores(body));
      Some(if negative then 0 - n else n)
  }

  // A sign or none, and digits in groups.
  ghost predicate IntForm(s: string, sign: string, body: string, n: int) {
    && s == sign + body && (sign == "" || sign == "+" || sign == "-") && DigitGroups(body)
    && (GroupsAreDigits(body);
        var v: int := DecimalValue(WithoutUnderscores(body)); n == if sign == "-" then -v else v)
  }

  // Which texts are numbers, and which.
  lemma PyIntIff(s: string, n: int)
    ensures PyInt(s) == Some(n) <==> exists sign, body :: IntForm(s, sign, body, n)
  {
    var signed := s != "" && (s[0] == '-' || s[0] == '+');
    var sign, body := if signed then s[..1] else "", if signed then s[1..] else s;
    assert s == sign + body;
    if PyInt(s) == Some(n) { assert IntForm(s, sign, body, n); }
    forall sign, body | IntForm(s, sign, body, n) ensures PyInt(s) == Some(n) {
      assert sign != "" ==> s[0] == sign[0] && s[1..] == body;
      assert sign == "" ==> s == body;
    }
  }

  lemma {:induction false} DecimalGroups(s: string)
    requires s != "" && AllDigits(s)
    ensures DigitGroups(s) && WithoutUnderscores(s) == s
  {
    assert s[0] in s;
    if |s| > 1 {
      assert s[1] in s;
      DecimalGroups(s[1..]);
      assert s == [s[0]] + s[1..];
    }
  }

  lemma PyIntDecimal(n: nat)
    ensures PyInt(Decimal(n)) == Some(n)
  {
    var d := Decimal(n);
    assert d[0] in d;
    DecimalGroups(d);
    DecimalRoundTrip(n);
  }

  lemma PyIntNegative(d: string)
    requires d != "" && AllDigits(d)
    ensures PyInt("-" + d) == Some(0 - DecimalValue(d))
  {
    DecimalGroups(d);
    assert ("-" + d)[1..] == d;
  }

  lemma IntTextTight(n: int)
    ensures Strip(IntText(n), PySpace) == IntText(n)
  {
    var d := Decimal(if n < 0 then -n else n);
    assert IsDigit(d[|d| - 1]) by { assert d[|d| - 1] in d; }
    assert IsDigit(d[0]) by { assert d[0] in d; }
    StripTight(IntText(n), PySpace);
  }

  // int(str(n)) is n again, as a column of a table is read.
  lemma PyIntRoundTrip(n: int)
    ensures PyInt(Strip(IntText(n), PySpace)) == Some(n)
  {
    IntTextTight(n);
    if n < 0 {
      PyIntNegative(Decimal(-n));
      DecimalRoundTrip(-n);
    } else {
      PyIntDecimal(n);
    }
  }
}

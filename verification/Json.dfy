/**
 The part of JSON (RFC 8259) that the baseline store reads and writes: one flat object whose
 members are strings, integers, null, or arrays of such scalars. The encoder escapes as Go's
 encoding/json does; the decoder takes any white space, any escape and any member order.
 */
module Json {
  import opened Sequences
  import opened Text

  datatype Value = Null | Str(text: string) | Num(number: int) | Arr(items: seq<Value>)

  type Member = (string, Value)

  datatype Parsed<+T> = Fail | Ok(value: T, rest: string)

  // ----- encoding -----

  function HexDigit(d: nat): char
    requires d < 16
  {
    if d < 10 then DigitChar(d) else (d + 87) as char
  }

  function Hex4(n: nat): (s: string)
    requires n < 0x1_0000
    ensures |s| == 4
  {
    [HexDigit(n / 16 / 16 / 16), HexDigit(n / 16 / 16 % 16), HexDigit(n / 16 % 16), HexDigit(n % 16)]
  }

  // Characters the encoder writes as \uXXXX: other controls, the HTML-sensitive three, and
  // the two line separators.
  predicate UnicodeEscaped(c: char) {
    c < ' ' || c == '<' || c == '>' || c == '&' || c == '\U{2028}' || c == '\U{2029}'
  }

  function EscapeChar(c: char): string {
    if c == '"' then "\\\""
    else if c == '\\' then "\\\\"
    else if c == '\U{8}' then "\\b"
    else if c == '\U{c}' then "\\f"
    else if c == '\n' then "\\n"
    else if c == '\r' then "\\r"
    else if c == '\t' then "\\t"
    else if UnicodeEscaped(c) then "\\u" + Hex4(c as int)
    else [c]
  }

  function EscapeText(s: string): string {
    if s == "" then "" else EscapeChar(s[0]) + EscapeText(s[1..])
  }

  // The writers below take what follows, so that every text is built from the right.

  function Quoted(s: string, rest: string): string {
    "\"" + (EscapeText(s) + ("\"" + rest))
  }

  function ScalarText(v: Value, rest: string): string
    requires !v.Arr?
  {
    match v
    case Null => "null" + rest
    case Str(s) => Quoted(s, rest)
    case Num(n) => IntText(n) + rest
  }

  predicate Scalars(items: seq<Value>) { forall v | v in items :: !v.Arr? }

  function ItemsText(items: seq<Value>, rest: string): string
    requires items != [] && Scalars(items)
  {
    "\n    " + ScalarText(items[0], if |items| == 1 then rest else "," + ItemsText(items[1..], rest))
  }

  predicate Flat(v: Value) { v.Arr? ==> Scalars(v.items) }

  // Arrays are laid out as MarshalIndent lays them out one level down.
  function ValueText(v: Value, rest: string): string
    requires Flat(v)
  {
    if !v.Arr? then ScalarText(v, rest)
    else if v.items == [] then "[" + ("]" + rest)
    else "[" + ItemsText(v.items, "\n  " + ("]" + rest))
  }

  predicate FlatMembers(ms: seq<Member>) { forall m | m in ms :: Flat(m.1) }

  function MembersText(ms: seq<Member>, pre: string, mid: string, rest: string): string
    requires ms != [] && FlatMembers(ms)
  {
    var more := if |ms| == 1 then rest else "," + MembersText(ms[1..], pre, mid, rest);
    pre + Quoted(ms[0].0, ":" + (mid + ValueText(ms[0].1, more)))
  }

  // Marshal writes an object with no white space at all.
  function Marshal(ms: seq<Member>): string
    requires ms != [] && FlatMembers(ms)
  {
    "{" + MembersText(ms, "", "", "}")
  }

  // MarshalIndent with an empty prefix and two spaces of indent.
  function MarshalIndent(ms: seq<Member>): string
    requires ms != [] && FlatMembers(ms)
  {
    "{" + MembersText(ms, "\n  ", " ", "\n" + "}")
  }

  // ----- decoding -----

  predicate JsonSpace(c: char) { c == ' ' || c == '\t' || c == '\n' || c == '\r' }

  function SkipSpace(s: string): (r: string)
    ensures |r| <= |s|
  {
    if s != "" && JsonSpace(s[0]) then SkipSpace(s[1..]) else s
  }

  function HexValue(c: char): Option<nat> {
    if IsDigit(c) then Some(DigitValue(c))
    else if 'a' <= c <= 'f' then Some(c as int - 87)
    else if 'A' <= c <= 'F' then Some(c as int - 55)
    else None
  }

  // The value of a \uXXXX escape at the start of the text, if there is one.
  function UnicodeEscape(s: string): (r: Option<nat>)
    ensures r.Some? ==> |s| >= 6 && r.value < 0x1_0000
  {
    if |s| < 6 || s[0] != '\\' || s[1] != 'u' then None
    else
      match (HexValue(s[2]), HexValue(s[3]), HexValue(s[4]), HexValue(s[5]))
      case (Some(a), Some(b), Some(c), Some(d)) =>
        if a < 16 && b < 16 && c < 16 && d < 16 then Some(4096 * a + 256 * b + 16 * c + d) else None
      case _ => None
  }

  // A surrogate pair is one character; a stray surrogate reads as U+FFFD.
  function ParseUnicode(s: string): (r: Parsed<char>)
    ensures r.Ok? ==> |r.rest| < |s|
  {
    match UnicodeEscape(s)
    case None => Fail
    case Some(n) =>
      if n < 0xD800 || 0xDFFF < n then Ok(n as char, s[6..])
      else
        match UnicodeEscape(s[6..])
        case Some(low) =>
          if n < 0xDC00 && 0xDC00 <= low <= 0xDFFF
          then Ok((0x1_0000 + (n - 0xD800) * 0x400 + (low - 0xDC00)) as char, s[12..])
          else Ok('\U{fffd}', s[6..])
        case None => Ok('\U{fffd}', s[6..])
  }

  function ParseEscape(s: string): (r: Parsed<char>)
    requires s != "" && s[0] == '\\'
    ensures r.Ok? ==> |r.rest| < |s|
  {
    if |s| < 2 then Fail
    else if s[1] == '"' || s[1] == '\\' || s[1] == '/' then Ok(s[1], s[2..])
    else if s[1] == 'b' then Ok('\U{8}', s[2..])
    else if s[1] == 'f' then Ok('\U{c}', s[2..])
    else if s[1] == 'n' then Ok('\n', s[2..])
    else if s[1] == 'r' then Ok('\r', s[2..])
    else if s[1] == 't' then Ok('\t', s[2..])
    else ParseUnicode(s)
  }

  // The characters up to the closing quote, which is consumed.
  function ParseChars(s: string): (r: Parsed<string>)
    ensures r.Ok? ==> |r.rest| < |s|
    decreases |s|
  {
    if s == "" || s[0] < ' ' then Fail
    else if s[0] == '"' then Ok("", s[1..])
    else
      var first := if s[0] == '\\' then ParseEscape(s) else Ok(s[0], s[1..]);
      if first.Fail? then Fail
      else
        match ParseChars(first.rest)
        case Fail => Fail
        case Ok(tail, rest) => Ok([first.value] + tail, rest)
  }

  function ParseNatural(s: string): (r: Parsed<nat>)
    ensures r.Ok? ==> |r.rest| < |s|
  {
    var k := DigitPrefix(s);
    if k == 0 || (k > 1 && s[0] == '0') then Fail else Ok(DecimalValue(s[..k]), s[k..])
  }

  function ParseNumber(s: string): (r: Parsed<Value>)
    ensures r.Ok? ==> |r.rest| < |s|
  {
    var negative := s != "" && s[0] == '-';
    match ParseNatural(if negative then s[1..] else s)
    case Fail => Fail
    case Ok(n, rest) => Ok(Num(if negative then 0 - n else n), rest)
  }

  function ParseScalar(s: string): (r: Parsed<Value>)
    ensures r.Ok? ==> |r.rest| < |s| && !r.value.Arr?
  {
    if s == "" then Fail
    else if s[0] == '"' then
      match ParseChars(s[1..])
      case Fail => Fail
      case Ok(t, rest) => Ok(Str(t), rest)
    else if "null" <= s then Ok(Null, s[4..])
    else ParseNumber(s)
  }

  // Array elements after '[' and white space, up to and including ']'.
  function ParseItems(s: string): (r: Parsed<seq<Value>>)
    ensures r.Ok? ==> |r.rest| < |s|
    decreases |s|
  {
    match ParseScalar(s)
    case Fail => Fail
    case Ok(v, rest) =>
      var t := SkipSpace(rest);
      if t == "" then Fail
      else if t[0] == ']' then Ok([v], t[1..])
      else if t[0] != ',' then Fail
      else
        match ParseItems(SkipSpace(t[1..]))
        case Fail => Fail
        case Ok(vs, end) => Ok([v] + vs, end)
  }

  function ParseValue(s: string): (r: Parsed<Value>)
    ensures r.Ok? ==> |r.rest| < |s|
  {
    if s == "" || s[0] != '[' then ParseScalar(s)
    else
      var t := SkipSpace(s[1..]);
      if t != "" && t[0] == ']' then Ok(Arr([]), t[1..])
      else
        match ParseItems(t)
        case Fail => Fail
        case Ok(vs, rest) => Ok(Arr(vs), rest)
  }

  // Members after '{' and white space, up to and including '}'.
  function ParseMembers(s: string): (r: Parsed<seq<Member>>)
    decreases |s|
  {
    if s == "" || s[0] != '"' then Fail
    else
      match ParseChars(s[1..])
      case Fail => Fail
      case Ok(key, afterKey) =>
        var t := SkipSpace(afterKey);
        if t == "" || t[0] != ':' then Fail
        else
          match ParseValue(SkipSpace(t[1..]))
          case Fail => Fail
          case Ok(v, afterValue) =>
            var u := SkipSpace(afterValue);
            if u == "" then Fail
            else if u[0] == '}' then Ok([(key, v)], u[1..])
            else if u[0] != ',' then Fail
            else
              match ParseMembers(SkipSpace(u[1..]))
              case Fail => Fail
              case Ok(ms, rest) => Ok([(key, v)] + ms, rest)
  }

  // The first JSON value of the text must be an object; what follows it is not looked at,
  // as with one call of a json.Decoder.
  function ParseObject(s: string): Parsed<seq<Member>> {
    var t := SkipSpace(s);
    if t == "" || t[0] != '{' then Fail
    else
      var u := SkipSpace(t[1..]);
      if u != "" && u[0] == '}' then Ok([], u[1..]) else ParseMembers(u)
  }

  // ----- decoding undoes encoding -----

  ghost predicate JsonBlank(s: string) { forall c | c in s :: JsonSpace(c) }

  lemma {:induction false} SkipBlank(pre: string, t: string)
    requires JsonBlank(pre) && t != "" && !JsonSpace(t[0])
    ensures SkipSpace(pre + t) == t
  {
    if pre == "" {
      assert pre + t == t;
    } else {
      assert pre[0] in pre;
      SkipBlank(pre[1..], t);
      assert (pre + t)[1..] == pre[1..] + t;
    }
  }

  lemma HexDigitRoundTrip(d: nat)
    requires d < 16
    ensures HexValue(HexDigit(d)) == Some(d)
  {}

  lemma Divide16(n: nat)
    ensures n == 16 * (n / 16) + n % 16
  {}

  lemma UnicodeEscapeOf(s: string, a: nat, b: nat, c: nat, d: nat)
    requires |s| >= 6 && s[0] == '\\' && s[1] == 'u' && a < 16 && b < 16 && c < 16 && d < 16
    requires s[2] == HexDigit(a) && s[3] == HexDigit(b) && s[4] == HexDigit(c) && s[5] == HexDigit(d)
    ensures UnicodeEscape(s) == Some(4096 * a + 256 * b + 16 * c + d)
  {
    HexDigitRoundTrip(a);
    HexDigitRoundTrip(b);
    HexDigitRoundTrip(c);
    HexDigitRoundTrip(d);
  }

  lemma HexRoundTrip(n: nat, rest: string)
    requires n < 0x1_0000
    ensures UnicodeEscape("\\u" + Hex4(n) + rest) == Some(n)
  {
    var a := n / 16;
    var b := a / 16;
    Divide16(n);
    Divide16(a);
    Divide16(b);
    UnicodeEscapeOf("\\u" + Hex4(n) + rest, n / 16 / 16 / 16, n / 16 / 16 % 16, n / 16 % 16, n % 16);
  }

  lemma EscapeCharRoundTrip(c: char, rest: string)
    ensures EscapeChar(c) != "" && EscapeChar(c)[0] != '"' && EscapeChar(c)[0] >= ' '
    ensures var s := EscapeChar(c) + rest;
            (if s[0] == '\\' then ParseEscape(s) else Ok(s[0], s[1..])) == Ok(c, rest)
  {
    var s := EscapeChar(c) + rest;
    if s[0] == '\\' && |EscapeChar(c)| > 2 {
      HexRoundTrip(c as int, rest);
      assert s[6..] == rest;
    }
  }

  // How ParseChars reads one character and goes on.
  lemma CharsStep(s: string, c: char, tail: string, text: string, rest: string)
    requires s != "" && s[0] >= ' ' && s[0] != '"'
    requires (if s[0] == '\\' then ParseEscape(s) else Ok(s[0], s[1..])) == Ok(c, tail)
    requires ParseChars(tail) == Ok(text, rest)
    ensures ParseChars(s) == Ok([c] + text, rest)
  {}

  lemma {:induction false} TextRoundTrip(s: string, rest: string)
    ensures ParseChars(EscapeText(s) + ("\"" + rest)) == Ok(s, rest)
  {
    var end := "\"" + rest;
    if s == "" {
      assert EscapeText(s) + end == end;
    } else {
      var tail := EscapeText(s[1..]) + end;
      Assoc(EscapeChar(s[0]), EscapeText(s[1..]), end);
      EscapeCharRoundTrip(s[0], tail);
      TextRoundTrip(s[1..], rest);
      CharsStep(EscapeChar(s[0]) + tail, s[0], tail, s[1..], rest);
      assert [s[0]] + s[1..] == s;
    }
  }

  lemma QuotedRoundTrip(s: string, rest: string)
    ensures Quoted(s, rest) != "" && Quoted(s, rest)[0] == '"'
    ensures ParseChars(Quoted(s, rest)[1..]) == Ok(s, rest)
  {
    TextRoundTrip(s, rest);
    assert Quoted(s, rest)[1..] == EscapeText(s) + ("\"" + rest);
  }

  // What may follow a value without being read as part of it.
  predicate Delimited(rest: string) { rest == "" || !IsDigit(rest[0]) }

  lemma NaturalRoundTrip(n: nat, rest: string)
    requires Delimited(rest)
    ensures ParseNatural(Decimal(n) + rest) == Ok(n, rest)
  {
    var d := Decimal(n);
    DigitPrefixUnique(d, rest);
    assert (d + rest)[..|d|] == d && (d + rest)[|d|..] == rest;
    DecimalRoundTrip(n);
  }

  // How ParseNumber reads a sign.
  lemma NumberStep(s: string, body: string, n: nat, rest: string)
    requires ParseNatural(body) == Ok(n, rest)
    ensures s == "-" + body ==> ParseNumber(s) == Ok(Num(0 - n), rest)
    ensures s == body && s[0] != '-' ==> ParseNumber(s) == Ok(Num(n), rest)
  {
    assert s == "-" + body ==> s[1..] == body;
  }

  lemma NumberRoundTrip(n: int, rest: string)
    requires Delimited(rest)
    ensures ParseNumber(IntText(n) + rest) == Ok(Num(n), rest)
    ensures (IntText(n) + rest)[0] == '-' || IsDigit((IntText(n) + rest)[0])
  {
    var m: nat := if n < 0 then -n else n;
    var d := Decimal(m);
    NaturalRoundTrip(m, rest);
    NumberStep(IntText(n) + rest, d + rest, m, rest);
    assert d[0] in d;
    if n < 0 {
      assert "-" + d + rest == "-" + (d + rest);
    } else {
      assert (d + rest)[0] == d[0];
    }
  }

  lemma ScalarRoundTrip(v: Value, rest: string)
    requires !v.Arr? && Delimited(rest)
    ensures var s := ScalarText(v, rest);
            s != "" && !JsonSpace(s[0]) && s[0] != '[' && s[0] != ']' && ParseScalar(s) == Ok(v, rest)
  {
    var s := ScalarText(v, rest);
    match v
    case Null =>
      assert s[..4] == "null" && s[4..] == rest;
    case Str(t) =>
      QuotedRoundTrip(t, rest);
    case Num(n) =>
      NumberRoundTrip(n, rest);
  }

  // How ParseItems reads one element and goes on.
  lemma ItemsStep(s: string, v: Value, rest: string, t: string)
    requires ParseScalar(s) == Ok(v, rest) && SkipSpace(rest) == t && t != ""
    ensures t[0] == ']' ==> ParseItems(s) == Ok([v], t[1..])
    ensures t[0] == ',' && ParseItems(SkipSpace(t[1..])).Ok? ==>
              ParseItems(s) == Ok([v] + ParseItems(SkipSpace(t[1..])).value, ParseItems(SkipSpace(t[1..])).rest)
  {}

  lemma LastItemRead(v: Value, rest: string)
    requires !v.Arr?
    ensures var s := SkipSpace("\n    " + ScalarText(v, "\n  " + ("]" + rest)));
            s != "" && s[0] != ']' && ParseItems(s) == Ok([v], rest)
  {
    var end := "]" + rest;
    ScalarRoundTrip(v, "\n  " + end);
    SkipBlank("\n    ", ScalarText(v, "\n  " + end));
    SkipBlank("\n  ", end);
    ItemsStep(ScalarText(v, "\n  " + end), v, "\n  " + end, end);
    assert end[1..] == rest;
  }

  lemma NextItemRead(v: Value, more: string)
    requires !v.Arr?
    ensures var s, p := SkipSpace("\n    " + ScalarText(v, "," + more)), ParseItems(SkipSpace(more));
            s != "" && s[0] != ']' && (p.Ok? ==> ParseItems(s) == Ok([v] + p.value, p.rest))
  {
    var tail := "," + more;
    ScalarRoundTrip(v, tail);
    SkipBlank("\n    ", ScalarText(v, tail));
    assert tail[1..] == more;
    ItemsStep(ScalarText(v, tail), v, tail, tail);
  }

  lemma {:induction false} ItemsRoundTrip(items: seq<Value>, rest: string)
    requires items != [] && Scalars(items)
    ensures var s := SkipSpace(ItemsText(items, "\n  " + ("]" + rest)));
            s != "" && s[0] != ']' && ParseItems(s) == Ok(items, rest)
  {
    assert items[0] in items && items == [items[0]] + items[1..];
    if |items| == 1 {
      assert items == [items[0]];
      LastItemRead(items[0], rest);
    } else {
      ItemsRoundTrip(items[1..], rest);
      NextItemRead(items[0], ItemsText(items[1..], "\n  " + ("]" + rest)));
    }
  }

  lemma ValueRoundTrip(v: Value, rest: string)
    requires Flat(v) && Delimited(rest)
    ensures var s := ValueText(v, rest); s != "" && !JsonSpace(s[0]) && ParseValue(s) == Ok(v, rest)
  {
    var s := ValueText(v, rest);
    if !v.Arr? {
      ScalarRoundTrip(v, rest);
    } else if v.items == [] {
      assert s[1..] == "]" + rest;
      assert ("]" + rest)[1..] == rest;
    } else {
      ItemsRoundTrip(v.items, rest);
      assert s[1..] == ItemsText(v.items, "\n  " + ("]" + rest));
    }
  }

  // How ParseMembers reads one member and goes on.
  lemma MembersStep(s: string, key: string, t: string, u: string, v: Value, w: string, x: string)
    requires s != "" && s[0] == '"' && ParseChars(s[1..]) == Ok(key, ":" + t)
    requires SkipSpace(t) == u && ParseValue(u) == Ok(v, w)
    requires SkipSpace(w) == x && x != ""
    ensures x[0] == '}' ==> ParseMembers(s) == Ok([(key, v)], x[1..])
    ensures x[0] == ',' && ParseMembers(SkipSpace(x[1..])).Ok? ==>
              ParseMembers(s) ==
              Ok([(key, v)] + ParseMembers(SkipSpace(x[1..])).value, ParseMembers(SkipSpace(x[1..])).rest)
  {
    assert (":" + t)[1..] == t;
  }

  lemma MemberRead(key: string, v: Value, pre: string, mid: string, tail: string)
    requires Flat(v) && Delimited(tail) && JsonBlank(pre) && JsonBlank(mid)
    ensures var s := Quoted(key, ":" + (mid + ValueText(v, tail)));
            && SkipSpace(pre + s) == s && s != "" && s[0] == '"'
            && ParseChars(s[1..]) == Ok(key, ":" + (mid + ValueText(v, tail)))
    ensures SkipSpace(mid + ValueText(v, tail)) == ValueText(v, tail)
    ensures ParseValue(ValueText(v, tail)) == Ok(v, tail)
  {
    var t := mid + ValueText(v, tail);
    QuotedRoundTrip(key, ":" + t);
    SkipBlank(pre, Quoted(key, ":" + t));
    ValueRoundTrip(v, tail);
    SkipBlank(mid, ValueText(v, tail));
  }

  lemma LastMemberRead(key: string, v: Value, pre: string, mid: string, post: string)
    requires Flat(v) && JsonBlank(pre) && JsonBlank(mid) && JsonBlank(post)
    ensures var s := SkipSpace(pre + Quoted(key, ":" + (mid + ValueText(v, post + "}"))));
            s != "" && s[0] == '"' && ParseMembers(s) == Ok([(key, v)], "")
  {
    var tail := post + "}";
    if post != "" { assert post[0] in post && tail[0] == post[0]; }
    var t := mid + ValueText(v, tail);
    MemberRead(key, v, pre, mid, tail);
    SkipBlank(post, "}");
    MembersStep(Quoted(key, ":" + t), key, t, ValueText(v, tail), v, tail, "}");
  }

  lemma NextMemberRead(key: string, v: Value, pre: string, mid: string, more: string)
    requires Flat(v) && JsonBlank(pre) && JsonBlank(mid)
    ensures var s := SkipSpace(pre + Quoted(key, ":" + (mid + ValueText(v, "," + more))));
            var p := ParseMembers(SkipSpace(more));
            s != "" && s[0] == '"' && (p.Ok? ==> ParseMembers(s) == Ok([(key, v)] + p.value, p.rest))
  {
    var tail := "," + more;
    var t := mid + ValueText(v, tail);
    MemberRead(key, v, pre, mid, tail);
    assert tail[1..] == more;
    MembersStep(Quoted(key, ":" + t), key, t, ValueText(v, tail), v, tail, tail);
  }

  lemma MembersCons(ms: seq<Member>)
    requires ms != [] && FlatMembers(ms)
    ensures Flat(ms[0].1) && FlatMembers(ms[1..]) && ms == [(ms[0].0, ms[0].1)] + ms[1..]
  {
    assert ms[0] in ms && ms == [ms[0]] + ms[1..];
  }

  lemma {:induction false} MembersRoundTrip(ms: seq<Member>, pre: string, mid: string, post: string)
    requires ms != [] && FlatMembers(ms) && JsonBlank(pre) && JsonBlank(mid) && JsonBlank(post)
    ensures var s := SkipSpace(MembersText(ms, pre, mid, post + "}"));
            s != "" && s[0] == '"' && ParseMembers(s) == Ok(ms, "")
  {
    if |ms| == 1 {
      LastMemberRead(ms[0].0, ms[0].1, pre, mid, post);
      MembersCons(ms);
      assert ms == [(ms[0].0, ms[0].1)];
    } else {
      MembersCons(ms);
      MembersRoundTrip(ms[1..], pre, mid, post);
      NextMemberRead(ms[0].0, ms[0].1, pre, mid, MembersText(ms[1..], pre, mid, post + "}"));
    }
  }

  lemma ObjectRoundTrip(body: string, ms: seq<Member>)
    requires SkipSpace(body) != "" && SkipSpace(body)[0] == '"' && ParseMembers(SkipSpace(body)) == Ok(ms, "")
    ensures ParseObject("{" + body) == Ok(ms, "") && !("null" <= SkipSpace("{" + body))
  {
    assert ("{" + body)[1..] == body;
  }

  // One object, written compactly or indented, reads back as its members.
  lemma MarshalRoundTrip(ms: seq<Member>)
    requires ms != [] && FlatMembers(ms)
    ensures ParseObject(Marshal(ms)) == Ok(ms, "")
    ensures ParseObject(MarshalIndent(ms)) == Ok(ms, "")
    ensures !("null" <= SkipSpace(Marshal(ms))) && !("null" <= SkipSpace(MarshalIndent(ms)))
  {
    MembersRoundTrip(ms, "", "", "");
    assert "" + "}" == "}";
    ObjectRoundTrip(MembersText(ms, "", "", "}"), ms);
    MembersRoundTrip(ms, "\n  ", " ", "\n");
    ObjectRoundTrip(MembersText(ms, "\n  ", " ", "\n" + "}"), ms);
  }

  // ----- a compact object is one line -----

  ghost predicate NoControls(s: string) { forall c | c in s :: c >= ' ' }

  lemma {:induction false} EscapeTextOneLine(s: string)
    ensures NoControls(EscapeText(s))
  {
    if s != "" {
      EscapeTextOneLine(s[1..]);
    }
  }

  lemma ScalarOneLine(v: Value, rest: string)
    requires !v.Arr? && NoControls(rest)
    ensures NoControls(ScalarText(v, rest))
  {
    if v.Str? {
      EscapeTextOneLine(v.text);
    }
  }

  lemma {:induction false} MembersOneLine(ms: seq<Member>, rest: string)
    requires ms != [] && (forall m | m in ms :: !m.1.Arr?) && NoControls(rest)
    ensures NoControls(MembersText(ms, "", "", rest))
  {
    var more := if |ms| == 1 then rest else "," + MembersText(ms[1..], "", "", rest);
    if |ms| > 1 {
      MembersOneLine(ms[1..], rest);
    }
    ScalarOneLine(ms[0].1, more);
    EscapeTextOneLine(ms[0].0);
  }

  ghost predicate LastIs(s: string, c: char) { s != "" && s[|s| - 1] == c }

  lemma AppendLast(s: string, t: string, c: char)
    requires LastIs(t, c)
    ensures LastIs(s + t, c)
  {}

  lemma {:induction false} MembersEnd(ms: seq<Member>, pre: string, mid: string, rest: string)
    requires ms != [] && (forall m | m in ms :: !m.1.Arr?) && rest != ""
    ensures LastIs(MembersText(ms, pre, mid, rest), rest[|rest| - 1])
  {
    var c := rest[|rest| - 1];
    var more := if |ms| == 1 then rest else "," + MembersText(ms[1..], pre, mid, rest);
    if |ms| > 1 {
      MembersEnd(ms[1..], pre, mid, rest);
      AppendLast(",", MembersText(ms[1..], pre, mid, rest), c);
    }
    ScalarEnd(ms[0].1, more, c);
    AppendLast(mid, ScalarText(ms[0].1, more), c);
    AppendLast(":", mid + ScalarText(ms[0].1, more), c);
    QuotedEnd(ms[0].0, ":" + (mid + ScalarText(ms[0].1, more)), c);
    AppendLast(pre, Quoted(ms[0].0, ":" + (mid + ScalarText(ms[0].1, more))), c);
  }

  lemma QuotedEnd(s: string, rest: string, c: char)
    requires LastIs(rest, c)
    ensures LastIs(Quoted(s, rest), c)
  {
    AppendLast("\"", rest, c);
    AppendLast(EscapeText(s), "\"" + rest, c);
    AppendLast("\"", EscapeText(s) + ("\"" + rest), c);
  }

  lemma ScalarEnd(v: Value, rest: string, c: char)
    requires !v.Arr? && LastIs(rest, c)
    ensures LastIs(ScalarText(v, rest), c)
  {
    match v
    case Null => AppendLast("null", rest, c);
    case Str(s) => QuotedEnd(s, rest, c);
    case Num(n) => AppendLast(IntText(n), rest, c);
  }

  lemma MarshalOneLine(ms: seq<Member>)
    requires ms != [] && forall m | m in ms :: !m.1.Arr?
    ensures NoControls(Marshal(ms))
    ensures Marshal(ms) != "" && Marshal(ms)[0] == '{' && LastIs(Marshal(ms), '}')
  {
    MembersOneLine(ms, "}");
    MembersEnd(ms, "", "", "}");
    AppendLast("{", MembersText(ms, "", "", "}"), '}');
  }

  // ----- every spelling of a character is read -----

  // A hexadecimal digit in either letter case.
  ghost predicate HexIs(c: char, v: int) {
    0 <= v < 16 && (c == "0123456789abcdef"[v] || c == "0123456789ABCDEF"[v])
  }

  ghost predicate HexFour(s: string, n: int) {
    && |s| == 4
    && exists a, b, c, d | HexIs(s[0], a) && HexIs(s[1], b) && HexIs(s[2], c) && HexIs(s[3], d) ::
         n == 4096 * a + 256 * b + 16 * c + d
  }

  // The letters that stand behind a backslash, and what they stand for.
  ghost predicate ShortEscape(letter: char, c: char) {
    || (letter == c && (c == '"' || c == '\\' || c == '/'))
    || (letter == 'b' && c == '\U{8}') || (letter == 'f' && c == '\U{c}') || (letter == 'n' && c == '\n')
    || (letter == 'r' && c == '\r') || (letter == 't' && c == '\t')
  }

  // The number of a character.
  ghost predicate UnicodeForm(p: string, n: int) { |p| == 6 && p[0] == '\\' && p[1] == 'u' && HexFour(p[2..], n) }

  // A character as it is, by a short escape, by its number, or by a pair of surrogates.
  ghost predicate Spells(p: string, c: char) {
    || (p == [c] && c >= ' ' && c != '"' && c != '\\')
    || (|p| == 2 && p[0] == '\\' && ShortEscape(p[1], c))
    || UnicodeForm(p, c as int)
    || PairForm(p, c as int)
  }

  // The two surrogates of a number of more than sixteen bits.
  ghost predicate PairForm(p: string, n: int) {
    && |p| == 12 && n >= 0x1_0000
    && UnicodeForm(p[..6], 0xD800 + (n - 0x1_0000) / 0x400)
    && UnicodeForm(p[6..], 0xDC00 + (n - 0x1_0000) % 0x400)
  }

  lemma HexValueOf(c: char, v: int)
    requires HexIs(c, v)
    ensures HexValue(c) == Some(v)
  {}

  lemma FourValues(s: string, a: int, b: int, c: int, d: int)
    requires |s| >= 6 && s[0] == '\\' && s[1] == 'u'
    requires HexIs(s[2], a) && HexIs(s[3], b) && HexIs(s[4], c) && HexIs(s[5], d)
    ensures UnicodeEscape(s) == Some(4096 * a + 256 * b + 16 * c + d)
  {
    HexValueOf(s[2], a);
    HexValueOf(s[3], b);
    HexValueOf(s[4], c);
    HexValueOf(s[5], d);
  }

  lemma UnicodeRead(p: string, n: int, rest: string)
    requires UnicodeForm(p, n)
    ensures 0 <= n < 0x1_0000 && UnicodeEscape(p + rest) == Some(n)
  {
    var s, h := p + rest, p[2..];
    var a, b, c, d :| HexIs(h[0], a) && HexIs(h[1], b) && HexIs(h[2], c) && HexIs(h[3], d)
                      && n == 4096 * a + 256 * b + 16 * c + d;
    assert s[0] == p[0] && s[1] == p[1] && s[2] == h[0] && s[3] == h[1] && s[4] == h[2] && s[5] == h[3];
    FourValues(s, a, b, c, d);
  }

  lemma PairParsed(s: string, h: nat, l: nat)
    requires UnicodeEscape(s) == Some(h) && UnicodeEscape(s[6..]) == Some(l)
    requires 0xD800 <= h < 0xDC00 && 0xDC00 <= l <= 0xDFFF
    ensures |s| >= 12
    ensures ParseUnicode(s) == Ok((0x1_0000 + (h - 0xD800) * 0x400 + (l - 0xDC00)) as char, s[12..])
  {}

  lemma PairValue(n: int)
    requires 0x1_0000 <= n < 0x11_0000
    ensures var h, l := 0xD800 + (n - 0x1_0000) / 0x400, 0xDC00 + (n - 0x1_0000) % 0x400;
            0xD800 <= h < 0xDC00 && 0xDC00 <= l <= 0xDFFF && 0x1_0000 + (h - 0xD800) * 0x400 + (l - 0xDC00) == n
  {}

  lemma PairRead(p: string, h: int, l: int, rest: string)
    requires |p| == 12 && UnicodeForm(p[..6], h) && UnicodeForm(p[6..], l)
    requires 0xD800 <= h < 0xDC00 && 0xDC00 <= l <= 0xDFFF
    ensures ParseUnicode(p + rest) == Ok((0x1_0000 + (h - 0xD800) * 0x400 + (l - 0xDC00)) as char, rest)
  {
    var s := p + rest;
    assert s == p[..6] + (p[6..] + rest) && s[6..] == p[6..] + rest && s[12..] == rest;
    UnicodeRead(p[..6], h, p[6..] + rest);
    UnicodeRead(p[6..], l, rest);
    PairParsed(s, h, l);
  }

  // The first character of the text is read as c, before the rest.
  ghost predicate FirstReads(s: string, c: char, rest: string) {
    && s != "" && s[0] >= ' ' && s[0] != '"'
    && (if s[0] == '\\' then ParseEscape(s) else Ok(s[0], s[1..])) == Ok(c, rest)
  }

  lemma PlainReads(c: char, rest: string)
    requires c >= ' ' && c != '"' && c != '\\'
    ensures FirstReads([c] + rest, c, rest)
  {
    assert ([c] + rest)[1..] == rest;
  }

  lemma ShortReads(p: string, c: char, rest: string)
    requires |p| == 2 && p[0] == '\\' && ShortEscape(p[1], c)
    ensures FirstReads(p + rest, c, rest)
  {
    assert (p + rest)[0] == p[0] && (p + rest)[1] == p[1] && (p + rest)[2..] == rest;
  }

  lemma LongReads(p: string, c: char, rest: string)
    requires |p| >= 2 && p[0] == '\\' && p[1] == 'u' && ParseUnicode(p + rest) == Ok(c, rest)
    ensures FirstReads(p + rest, c, rest)
  {
    assert (p + rest)[0] == p[0] && (p + rest)[1] == p[1];
  }

  lemma NumberedRead(p: string, c: char, rest: string)
    requires UnicodeForm(p, c as int)
    ensures ParseUnicode(p + rest) == Ok(c, rest)
  {
    UnicodeRead(p, c as int, rest);
    assert (p + rest)[6..] == rest;
  }

  lemma PairReads(p: string, c: char, rest: string)
    requires PairForm(p, c as int)
    ensures FirstReads(p + rest, c, rest)
  {
    var n := c as int - 0x1_0000;
    assert p[..6][0] == p[0] && p[..6][1] == p[1];
    PairValue(c as int);
    PairRead(p, 0xD800 + n / 0x400, 0xDC00 + n % 0x400, rest);
    LongReads(p, c, rest);
  }

  lemma SpellingRead(p: string, c: char, rest: string)
    requires Spells(p, c)
    ensures FirstReads(p + rest, c, rest)
  {
    if |p| == 1 {
      PlainReads(c, rest);
    } else if |p| == 2 {
      ShortReads(p, c, rest);
    } else if |p| == 6 {
      NumberedRead(p, c, rest);
      LongReads(p, c, rest);
    } else {
      PairReads(p, c, rest);
    }
  }

  lemma SpellingStep(p: string, c: char, more: string, tail: string, rest: string)
    requires Spells(p, c) && ParseChars(more) == Ok(tail, rest)
    ensures ParseChars(p + more) == Ok([c] + tail, rest)
  {
    SpellingRead(p, c, more);
    CharsStep(p + more, c, more, tail, rest);
  }

  lemma NoMoreChars(rest: string)
    ensures ParseChars("\"" + rest) == Ok("", rest)
  {
    assert ("\"" + rest)[1..] == rest;
  }

  // Main result. However the characters of a string are spelled, each in its own way, it reads the same.
  lemma SpellingsRead(pieces: seq<string>, t: string, rest: string)
    requires |pieces| == |t| && forall i | 0 <= i < |t| :: Spells(pieces[i], t[i])
    ensures ParseChars(Concat(pieces) + ("\"" + rest)) == Ok(t, rest)
  {
    forall p, c, more, tail, end | Spells(p, c) && ParseChars(more) == Ok(tail, end)
      ensures ParseChars(p + more) == Ok([c] + tail, end)
    {
      SpellingStep(p, c, more, tail, end);
    }
    NoMoreChars(rest);
    PiecesRead(pieces, t, rest, Spells, ParseChars);
  }

  // The same for any notion of spelling that a reader takes step by step.
  lemma {:induction false} PiecesRead(pieces: seq<string>, t: string, rest: string, spells: (string, char) -> bool,
                                      read: string -> Parsed<string>)
    requires |pieces| == |t| && forall i | 0 <= i < |t| :: spells(pieces[i], t[i])
    requires read("\"" + rest) == Ok("", rest)
    requires forall p, c, more, tail, end | spells(p, c) && read(more) == Ok(tail, end) ::
               read(p + more) == Ok([c] + tail, end)
    ensures read(Concat(pieces) + ("\"" + rest)) == Ok(t, rest)
    decreases |t|
  {
    var end := "\"" + rest;
    if t == "" {
      assert Concat(pieces) + end == end;
    } else {
      var more := Concat(pieces[1..]) + end;
      PiecesRead(pieces[1..], t[1..], rest, spells, read);
      assert read(pieces[0] + more) == Ok([t[0]] + t[1..], rest);
      assert Concat(pieces) + end == pieces[0] + more && t == [t[0]] + t[1..];
    }
  }
}

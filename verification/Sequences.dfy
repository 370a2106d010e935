/** Facts about any sequences and multisets. */
module Sequences {

  lemma Assoc<T>(a: seq<T>, b: seq<T>, c: seq<T>)
    ensures (a + b) + c == a + (b + c)
  {}

  lemma HeadTail<T>(a: seq<T>, b: seq<T>)
    requires a != []
    ensures (a + b)[0] == a[0] && (a + b)[1..] == a[1..] + b
  {}

  lemma AppendMember<T>(s: seq<T>, t: seq<T>, x: T)
    ensures x in s + t <==> x in s || x in t
  {}

  lemma ThreeParts<T>(a: seq<T>, b: seq<T>, c: seq<T>)
    ensures (a + b + c)[..|a|] == a && (a + b + c)[|a| + |b|..|a| + |b| + |c|] == c
  {}

  // Ranges of a suffix, of a prefix and of a concatenation.
  lemma WithinSuffix<T>(s: seq<T>, k: nat, i: nat, j: nat)
    requires k + i <= k + j <= |s|
    ensures s[k..][i..j] == s[k + i..k + j] && s[k..][i..] == s[k + i..] && s[k..][..j] == s[k..k + j]
  {
    assert |s[k..][i..j]| == j - i && |s[k..][i..]| == |s| - (k + i) && |s[k..][..j]| == j;
  }

  lemma WithinPrefix<T>(s: seq<T>, n: nat, i: nat, j: nat)
    requires i <= j <= n <= |s|
    ensures s[..n][i..j] == s[i..j] && s[..n][..j] == s[..j]
  {
    assert |s[..n][i..j]| == j - i && |s[..n][..j]| == j;
  }

  lemma InFront<T>(a: seq<T>, b: seq<T>, n: nat)
    requires n <= |a|
    ensures (a + b)[..n] == a[..n]
  {}

  lemma Behind<T>(a: seq<T>, b: seq<T>, n: nat)
    requires n <= |b|
    ensures (a + b)[..|a| + n] == a + b[..n] && (a + b)[|a| + n..] == b[n..]
  {}

  lemma LastOfCons<T>(x: T, s: seq<T>)
    requires s != []
    ensures ([x] + s)[|[x] + s| - 1] == s[|s| - 1]
    ensures ([x] + s)[..|[x] + s| - 1] == [x] + s[..|s| - 1]
  {}

  function Map<T, U>(s: seq<T>, f: T -> U): (r: seq<U>)
    ensures |r| == |s| && forall i | 0 <= i < |s| :: r[i] == f(s[i])
  {
    seq(|s|, i requires 0 <= i < |s| => f(s[i]))
  }

  lemma MapTake<T, U>(s: seq<T>, f: T -> U, i: nat)
    requires i <= |s|
    ensures Map(s[..i], f) == Map(s, f)[..i]
  {}

  // What the first n parts add to a sequence, one after the other.
  function Gathered<T>(before: seq<T>, part: nat -> seq<T>, n: nat): seq<T> {
    if n == 0 then before else Gathered(before, part, n - 1) + part(n - 1)
  }

  lemma {:induction false} GatheredFrom<T>(before: seq<T>, part: nat -> seq<T>, n: nat)
    ensures Gathered(before, part, n) == before + Gathered([], part, n)
  {
    if n > 0 {
      GatheredFrom(before, part, n - 1);
      Assoc(before, Gathered([], part, n - 1), part(n - 1));
    }
  }

  lemma AllCons<T(!new)>(s: seq<T>, ok: T -> bool)
    requires s != []
    ensures (forall x | x in s :: ok(x)) <==> ok(s[0]) && forall x | x in s[1..] :: ok(x)
  {
    assert s == [s[0]] + s[1..];
  }

  lemma ConsMember<T>(x: T, s: seq<T>, y: T)
    ensures y in [x] + s <==> y == x || y in s
  {}

  lemma MultisetMembers<T>(s: seq<T>, t: seq<T>)
    requires multiset(s) == multiset(t)
    ensures |s| == |t|
    ensures forall x :: x in s <==> x in t
  {
    assert |multiset(s)| == |s| && |multiset(t)| == |t|;
    forall x ensures x in s <==> x in t {
      assert x in s <==> x in multiset(s);
      assert x in t <==> x in multiset(t);
    }
  }

  lemma WithoutOne<T>(t: seq<T>, k: nat)
    requires k < |t|
    ensures t == t[..k] + ([t[k]] + t[k + 1..])
    ensures multiset(t) == multiset{t[k]} + multiset(t[..k] + t[k + 1..])
  {
    assert t == t[..k] + ([t[k]] + t[k + 1..]);
    MiddleOut(t[..k], t[k], t[k + 1..]);
  }

  lemma MiddleOut<T>(p: seq<T>, x: T, q: seq<T>)
    ensures multiset(p + ([x] + q)) == multiset{x} + multiset(p + q)
  {
    assert multiset(p + ([x] + q)) == multiset(p) + (multiset{x} + multiset(q));
  }

  lemma CancelOne<T>(x: T, a: multiset<T>, b: multiset<T>)
    requires multiset{x} + a == multiset{x} + b
    ensures a == b
  {
    forall y ensures a[y] == b[y] {
      assert (multiset{x} + a)[y] == (multiset{x} + b)[y];
    }
  }

  // The place in a rearrangement of the first element, and what is left without it.
  lemma TakeFirst<T>(s: seq<T>, t: seq<T>) returns (k: nat)
    requires s != [] && multiset(s) == multiset(t)
    ensures k < |t| && t[k] == s[0] && multiset(s[1..]) == multiset(t[..k] + t[k + 1..])
    ensures t == t[..k] + ([t[k]] + t[k + 1..])
  {
    MultisetMembers(s, t);
    assert s[0] in t;
    k :| 0 <= k < |t| && t[k] == s[0];
    WithoutOne(t, k);
    WithoutOne(s, 0);
    assert s[..0] + s[0 + 1..] == s[1..];
    CancelOne(s[0], multiset(s[1..]), multiset(t[..k] + t[k + 1..]));
  }

  lemma InPrefix<T>(s: seq<T>, j: nat, k: nat)
    requires j < k <= |s|
    ensures s[j] in s[..k]
  {
    assert s[..k][j] == s[j];
  }

  // The places of the elements that pass a test.
  ghost function Places<T>(s: seq<T>, p: T -> bool): set<int> { set i | 0 <= i < |s| && p(s[i]) }

  lemma PlacesLast<T>(s: seq<T>, p: T -> bool)
    requires s != []
    ensures var n := |s| - 1; |Places(s, p)| == |Places(s[..n], p)| + if p(s[n]) then 1 else 0
  {
    var n := |s| - 1;
    assert Places(s, p) == Places(s[..n], p) + if p(s[n]) then {n} else {};
  }
}

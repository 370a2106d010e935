/** Stable sorting by a comparison, as Go's sort.SliceStable and sort.Strings provide it. */
module Sorting {
  import opened Sequences

  ghost predicate StrictWeakOrder<T(!new)>(less: (T, T) -> bool) {
    && (forall a :: !less(a, a))
    && (forall a, b, c :: less(a, b) && less(b, c) ==> less(a, c))
    && (forall a, b, c :: less(a, c) ==> less(a, b) || less(b, c))
  }

  ghost predicate SortedBy<T(!new)>(s: seq<T>, less: (T, T) -> bool) {
    forall i, j | 0 <= i < j < |s| :: !less(s[j], s[i])
  }

  ghost predicate StrictlySortedBy<T(!new)>(s: seq<T>, less: (T, T) -> bool) {
    forall i, j | 0 <= i < j < |s| :: less(s[i], s[j])
  }

  // Puts x in front of the first element that is not below it.
  function Insert<T>(x: T, s: seq<T>, less: (T, T) -> bool): seq<T> {
    if s != [] && less(s[0], x) then [s[0]] + Insert(x, s[1..], less) else [x] + s
  }

  function StableSort<T>(s: seq<T>, less: (T, T) -> bool): seq<T> {
    if s == [] then [] else Insert(s[0], StableSort(s[1..], less), less)
  }

  function Filter<T>(s: seq<T>, p: T -> bool): seq<T> {
    if s == [] then [] else (if p(s[0]) then [s[0]] else []) + Filter(s[1..], p)
  }

  lemma {:induction false} InsertPermutes<T>(x: T, s: seq<T>, less: (T, T) -> bool)
    ensures multiset(Insert(x, s, less)) == multiset([x] + s)
  {
    if s != [] && less(s[0], x) {
      InsertPermutes(x, s[1..], less);
      assert s == [s[0]] + s[1..];
    }
  }

  lemma {:induction false} SortPermutes<T>(s: seq<T>, less: (T, T) -> bool)
    ensures multiset(StableSort(s, less)) == multiset(s)
  {
    if s != [] {
      SortPermutes(s[1..], less);
      InsertPermutes(s[0], StableSort(s[1..], less), less);
      assert s == [s[0]] + s[1..];
    }
  }

  lemma {:induction false} FilterMembers<T>(s: seq<T>, p: T -> bool, x: T)
    ensures x in Filter(s, p) <==> x in s && p(x)
  {
    if s != [] {
      FilterMembers(s[1..], p, x);
      assert s == [s[0]] + s[1..];
    }
  }

  lemma {:induction false} FilterAppend<T>(s: seq<T>, t: seq<T>, p: T -> bool)
    ensures Filter(s + t, p) == Filter(s, p) + Filter(t, p)
  {
    if s == [] {
      assert s + t == t;
    } else {
      HeadTail(s, t);
      FilterAppend(s[1..], t, p);
      Assoc(if p(s[0]) then [s[0]] else [], Filter(s[1..], p), Filter(t, p));
    }
  }

  lemma {:induction false} InsertSorted<T(!new)>(x: T, s: seq<T>, less: (T, T) -> bool)
    requires StrictWeakOrder(less) && SortedBy(s, less)
    ensures SortedBy(Insert(x, s, less), less)
  {
    var r := Insert(x, s, less);
    if s != [] && less(s[0], x) {
      InsertSorted(x, s[1..], less);
      InsertPermutes(x, s[1..], less);
      MultisetMembers(r[1..], [x] + s[1..]);
      forall j | 0 < j < |r| ensures !less(r[j], r[0]) {
        assert r[j] in r[1..];
        assert r[j] in [x] + s[1..];
      }
    }
  }

  lemma {:induction false} SortSorts<T(!new)>(s: seq<T>, less: (T, T) -> bool)
    requires StrictWeakOrder(less)
    ensures SortedBy(StableSort(s, less), less)
  {
    if s != [] {
      SortSorts(s[1..], less);
      InsertSorted(s[0], StableSort(s[1..], less), less);
    }
  }

  // Sorting what is already in order changes nothing.
  lemma {:induction false} SortFixed<T(!new)>(s: seq<T>, less: (T, T) -> bool)
    requires SortedBy(s, less)
    ensures StableSort(s, less) == s
  {
    if s != [] {
      SortFixed(s[1..], less);
      assert s == [s[0]] + s[1..];
    }
  }

  // There is only one strictly sorted arrangement of the same elements.
  lemma {:induction false} StrictlySortedUnique<T(!new)>(s: seq<T>, t: seq<T>, less: (T, T) -> bool)
    requires StrictWeakOrder(less) && StrictlySortedBy(s, less) && StrictlySortedBy(t, less)
    requires forall x :: x in s <==> x in t
    ensures s == t
  {
    assert t == [] || t[0] in t;
    if s != [] {
      assert s[0] in t;
      assert t[0] in s;
      var i :| 0 <= i < |t| && t[i] == s[0];
      var j :| 0 <= j < |s| && s[j] == t[0];
      assert s[0] == t[0];
      forall x ensures x in s[1..] <==> x in t[1..] {
        StrictTail(s, x, less);
        StrictTail(t, x, less);
      }
      StrictlySortedUnique(s[1..], t[1..], less);
      assert s == [s[0]] + s[1..] && t == [t[0]] + t[1..];
    }
  }

  lemma StrictTail<T(!new)>(s: seq<T>, x: T, less: (T, T) -> bool)
    requires StrictWeakOrder(less) && StrictlySortedBy(s, less) && s != []
    ensures x in s[1..] <==> x in s && x != s[0]
  {
    assert s == [s[0]] + s[1..];
    if x in s[1..] {
      var j :| 0 < j < |s| && s[j] == x;
      assert less(s[0], s[j]);
    }
  }

  lemma AboveHead<T(!new)>(x: T, s: seq<T>, less: (T, T) -> bool)
    requires StrictWeakOrder(less) && SortedBy(s, less)
    requires s == [] || !less(s[0], x)
    ensures forall y | y in s :: !less(y, x)
  {
    forall y | y in s ensures !less(y, x) {
      var j :| 0 <= j < |s| && s[j] == y;
      assert j > 0 ==> !less(s[j], s[0]);
    }
  }

  lemma FilterCons<T>(h: T, t: seq<T>, p: T -> bool)
    ensures Filter([h] + t, p) == if p(h) then [h] + Filter(t, p) else Filter(t, p)
  {
    assert ([h] + t)[1..] == t;
  }

  lemma InsertCons<T>(x: T, h: T, t: seq<T>, less: (T, T) -> bool)
    ensures Insert(x, [h] + t, less) == if less(h, x) then [h] + Insert(x, t, less) else [x] + ([h] + t)
  {
    assert ([h] + t)[1..] == t;
  }

  lemma {:induction false} FilterNone<T>(s: seq<T>, p: T -> bool)
    requires forall x | x in s :: !p(x)
    ensures Filter(s, p) == []
  {
    if s != [] {
      assert s[0] in s;
      FilterNone(s[1..], p);
    }
  }

  lemma {:induction false} FilterAll<T>(s: seq<T>, p: T -> bool)
    requires forall x | x in s :: p(x)
    ensures Filter(s, p) == s
  {
    if s != [] {
      assert s[0] in s;
      FilterAll(s[1..], p);
    }
  }

  // Selecting by either of two tests that never hold together.
  lemma {:induction false} FilterDisjoint<T(!new)>(s: seq<T>, p: T -> bool, q: T -> bool, r: T -> bool)
    requires forall x :: (p(x) <==> q(x) || r(x)) && !(q(x) && r(x))
    ensures multiset(Filter(s, p)) == multiset(Filter(s, q)) + multiset(Filter(s, r))
  {
    if s != [] {
      FilterDisjoint(s[1..], p, q, r);
      FilterCons(s[0], s[1..], p);
      FilterCons(s[0], s[1..], q);
      FilterCons(s[0], s[1..], r);
      assert s == [s[0]] + s[1..];
    }
  }

  lemma {:induction false} FilterTwice<T>(s: seq<T>, q: T -> bool, p: T -> bool)
    requires forall x | x in s && p(x) :: q(x)
    ensures Filter(Filter(s, q), p) == Filter(s, p)
  {
    if s != [] {
      assert s == [s[0]] + s[1..];
      FilterTwice(s[1..], q, p);
      FilterCons(s[0], s[1..], q);
      FilterCons(s[0], s[1..], p);
      FilterCons(s[0], Filter(s[1..], q), p);
    }
  }

  lemma CutAt<T>(s: seq<T>, i: nat, j: nat)
    requires i < j < |s|
    ensures s == s[..i] + ([s[i]] + (s[i + 1..j] + ([s[j]] + s[j + 1..])))
  {
    assert s[j..] == [s[j]] + s[j + 1..];
    assert s[i + 1..] == s[i + 1..j] + s[j..];
    assert s[i..] == [s[i]] + s[i + 1..];
    assert s == s[..i] + s[i..];
  }

  lemma FilterTwo<T>(a: T, b: T, p: T -> bool)
    ensures Filter([a, b], p) == (if p(a) then [a] else []) + (if p(b) then [b] else [])
  {
    FilterCons(a, [b], p);
    FilterCons(b, [], p);
    assert [a] + [b] == [a, b];
  }

  // Selecting two elements that occur once each.
  lemma FilterPair<T>(a: seq<T>, x: T, b: seq<T>, y: T, c: seq<T>, p: T -> bool)
    requires p(x) && p(y) && forall z | z in a || z in b || z in c :: !p(z)
    ensures Filter(a + ([x] + (b + ([y] + c))), p) == [x, y]
  {
    FilterNone(a, p);
    FilterNone(b, p);
    FilterNone(c, p);
    FilterAppend(a, [x] + (b + ([y] + c)), p);
    FilterCons(x, b + ([y] + c), p);
    FilterAppend(b, [y] + c, p);
    FilterCons(y, c, p);
    assert [] + [y] == [y];
    assert [x] + [y] == [x, y];
  }

  lemma SortPair<T>(a: T, b: T, less: (T, T) -> bool)
    ensures StableSort([a, b], less) == if less(b, a) then [b, a] else [a, b]
  {
    assert [a, b][1..] == [b] && [b][1..] == [];
    assert StableSort([b], less) == [b];
    assert Insert(a, [], less) == [a];
    assert Insert(a, [b], less) == if less(b, a) then [b, a] else [a, b];
  }

  // Selecting after a stable sort is sorting the selection.
  lemma {:induction false} FilterInsert<T(!new)>(x: T, s: seq<T>, less: (T, T) -> bool, p: T -> bool)
    requires StrictWeakOrder(less) && SortedBy(s, less)
    ensures Filter(Insert(x, s, less), p) ==
            if p(x) then Insert(x, Filter(s, p), less) else Filter(s, p)
  {
    if s == [] {
      FilterCons(x, s, p);
    } else if less(s[0], x) {
      var h, t := s[0], s[1..];
      assert s == [h] + t;
      FilterInsert(x, t, less, p);
      FilterCons(h, t, p);
      assert Insert(x, s, less) == [h] + Insert(x, t, less);
      FilterCons(h, Insert(x, t, less), p);
      InsertCons(x, h, Filter(t, p), less);
    } else {
      AboveHead(x, s, less);
      FilterCons(x, s, p);
      var f := Filter(s, p);
      if f != [] { FilterMembers(s, p, f[0]); }
    }
  }

  lemma {:induction false} FilterSort<T(!new)>(s: seq<T>, less: (T, T) -> bool, p: T -> bool)
    requires StrictWeakOrder(less)
    ensures Filter(StableSort(s, less), p) == StableSort(Filter(s, p), less)
  {
    if s != [] {
      var h, t := s[0], s[1..];
      FilterSort(t, less, p);
      SortSorts(t, less);
      FilterInsert(h, StableSort(t, less), less, p);
      assert s == [h] + t;
      FilterCons(h, t, p);
      assert ([h] + Filter(t, p))[1..] == Filter(t, p);
    }
  }

  lemma {:induction false} FilterSorted<T(!new)>(s: seq<T>, less: (T, T) -> bool, p: T -> bool)
    requires SortedBy(s, less)
    ensures SortedBy(Filter(s, p), less)
  {
    if s != [] {
      FilterSorted(s[1..], less, p);
      var tail := Filter(s[1..], p);
      forall j | 0 <= j < |tail| ensures !less(tail[j], s[0]) {
        FilterMembers(s[1..], p, tail[j]);
        var k :| 0 <= k < |s[1..]| && s[1..][k] == tail[j];
        assert s[k + 1] == tail[j];
      }
    }
  }

  // ----- ties -----

  // What the order does not tell from x.
  function Like<T>(x: T, less: (T, T) -> bool): T -> bool { y => !less(x, y) && !less(y, x) }

  lemma {:induction false} FilterSame<T>(s: seq<T>, p: T -> bool, q: T -> bool)
    requires forall x | x in s :: p(x) <==> q(x)
    ensures Filter(s, p) == Filter(s, q)
  {
    if s != [] {
      assert s[0] in s && forall x | x in s[1..] :: x in s;
      FilterSame(s[1..], p, q);
    }
  }

  // A stable sort keeps ties in their order.
  lemma SortLike<T(!new)>(s: seq<T>, less: (T, T) -> bool, x: T)
    requires StrictWeakOrder(less)
    ensures Filter(StableSort(s, less), Like(x, less)) == Filter(s, Like(x, less))
  {
    FilterSort(s, less, Like(x, less));
    var f := Filter(s, Like(x, less));
    forall i, j | 0 <= i < j < |f| ensures !less(f[j], f[i]) {
      FilterMembers(s, Like(x, less), f[i]);
      FilterMembers(s, Like(x, less), f[j]);
    }
    SortFixed(f, less);
  }

  lemma LikeMember<T(!new)>(s: seq<T>, t: seq<T>, less: (T, T) -> bool, x: T)
    requires StrictWeakOrder(less) && x in s && Filter(s, Like(x, less)) == Filter(t, Like(x, less))
    ensures x in t
  {
    FilterMembers(s, Like(x, less), x);
    FilterMembers(t, Like(x, less), x);
  }

  lemma LeastOf<T(!new)>(s: seq<T>, less: (T, T) -> bool, x: T)
    requires StrictWeakOrder(less) && SortedBy(s, less) && x in s
    ensures !less(x, s[0])
  {
    var i :| 0 <= i < |s| && s[i] == x;
  }

  lemma FirstLike<T(!new)>(s: seq<T>, t: seq<T>, less: (T, T) -> bool)
    requires StrictWeakOrder(less) && SortedBy(s, less) && SortedBy(t, less) && s != [] && t != []
    requires s[0] in t && t[0] in s && Filter(s, Like(s[0], less)) == Filter(t, Like(s[0], less))
    ensures s[0] == t[0]
  {
    LeastOf(s, less, t[0]);
    LeastOf(t, less, s[0]);
    assert s == [s[0]] + s[1..] && t == [t[0]] + t[1..];
    FilterCons(s[0], s[1..], Like(s[0], less));
    FilterCons(t[0], t[1..], Like(s[0], less));
    assert Filter(s, Like(s[0], less))[0] == s[0] && Filter(t, Like(s[0], less))[0] == t[0];
  }

  lemma FilterTails<T>(s: seq<T>, t: seq<T>, p: T -> bool)
    requires s != [] && t != [] && s[0] == t[0] && Filter(s, p) == Filter(t, p)
    ensures Filter(s[1..], p) == Filter(t[1..], p)
  {
    if p(s[0]) {
      assert Filter(s, p)[1..] == Filter(s[1..], p) && Filter(t, p)[1..] == Filter(t[1..], p);
    } else {
      assert Filter(s, p) == Filter(s[1..], p) && Filter(t, p) == Filter(t[1..], p);
    }
  }

  // Sorted lists with the same ties in the same order are the same.
  lemma {:induction false} SortedLike<T(!new)>(s: seq<T>, t: seq<T>, less: (T, T) -> bool)
    requires StrictWeakOrder(less) && SortedBy(s, less) && SortedBy(t, less)
    requires forall x :: Filter(s, Like(x, less)) == Filter(t, Like(x, less))
    ensures s == t
  {
    if s != [] { LikeMember(s, t, less, s[0]); }
    if t != [] { LikeMember(t, s, less, t[0]); }
    if s != [] {
      FirstLike(s, t, less);
      forall x ensures Filter(s[1..], Like(x, less)) == Filter(t[1..], Like(x, less)) {
        FilterTails(s, t, Like(x, less));
      }
      SortedLike(s[1..], t[1..], less);
      assert s == [s[0]] + s[1..] && t == [t[0]] + t[1..];
    }
  }

  // Two lists sort to the same exactly when ties stand in the same order in both.
  lemma SortAgreesIff<T(!new)>(s: seq<T>, t: seq<T>, less: (T, T) -> bool)
    requires StrictWeakOrder(less)
    ensures StableSort(s, less) == StableSort(t, less) <==>
            forall x :: Filter(s, Like(x, less)) == Filter(t, Like(x, less))
  {
    forall x
      ensures Filter(StableSort(s, less), Like(x, less)) == Filter(s, Like(x, less))
      ensures Filter(StableSort(t, less), Like(x, less)) == Filter(t, Like(x, less))
    {
      SortLike(s, less, x);
      SortLike(t, less, x);
    }
    SortSorts(s, less);
    SortSorts(t, less);
    if forall x :: Filter(s, Like(x, less)) == Filter(t, Like(x, less)) {
      SortedLike(StableSort(s, less), StableSort(t, less), less);
    }
  }

  // ----- the order of strings -----

  // Go compares strings byte by byte; on UTF-8 that is the order of code points.
  predicate StringLess(a: string, b: string) {
    b != "" && (a == "" || a[0] < b[0] || (a[0] == b[0] && StringLess(a[1..], b[1..])))
  }

  lemma {:induction false} StringLessOrder(a: string, b: string, c: string)
    ensures !StringLess(a, a)
    ensures StringLess(a, b) && StringLess(b, c) ==> StringLess(a, c)
    ensures StringLess(a, b) || StringLess(b, a) || a == b
  {
    if a != "" && b != "" && a[0] == b[0] {
      StringLessOrder(a[1..], b[1..], if c == "" then "" else c[1..]);
      assert a == [a[0]] + a[1..] && b == [b[0]] + b[1..];
    } else if a != "" {
      StringLessOrder(a[1..], a[1..], "");
    }
  }

  lemma StringLessTotal()
    ensures forall a :: !StringLess(a, a)
    ensures forall a, b, c :: StringLess(a, b) && StringLess(b, c) ==> StringLess(a, c)
    ensures forall a, b :: StringLess(a, b) || StringLess(b, a) || a == b
    ensures StrictWeakOrder(StringLess)
  {
    forall a, b, c
      ensures !StringLess(a, a)
      ensures StringLess(a, b) && StringLess(b, c) ==> StringLess(a, c)
      ensures StringLess(a, b) || StringLess(b, a) || a == b
    {
      StringLessOrder(a, b, c);
    }
  }

  // Up to k the texts agree; there the first one ends, or has the smaller character.
  ghost predicate BelowFrom(a: string, b: string, k: nat) {
    k <= |a| && k < |b| && a[..k] == b[..k] && (k < |a| ==> a[k] < b[k])
  }

  ghost predicate Below(a: string, b: string) { exists k: nat :: BelowFrom(a, b, k) }

  // The order is that of the dictionary: the first place where the texts differ decides.
  lemma {:induction false} StringLessIff(a: string, b: string)
    ensures StringLess(a, b) <==> Below(a, b)
  {
    if b == "" {
    } else if a == "" || a[0] < b[0] {
      assert BelowFrom(a, b, 0);
    } else if a[0] == b[0] {
      StringLessIff(a[1..], b[1..]);
      BelowTail(a, b);
    } else {
      forall k: nat ensures !BelowFrom(a, b, k) {
        if k > 0 && k <= |a| && k <= |b| { assert a[..k][0] == a[0] && b[..k][0] == b[0]; }
      }
    }
  }

  lemma BelowTail(a: string, b: string)
    requires a != "" && b != "" && a[0] == b[0]
    ensures Below(a, b) <==> Below(a[1..], b[1..])
  {
    if k: nat :| BelowFrom(a[1..], b[1..], k) {
      assert a[..k + 1] == [a[0]] + a[1..][..k] && b[..k + 1] == [b[0]] + b[1..][..k];
      assert BelowFrom(a, b, k + 1);
    }
    if k: nat :| BelowFrom(a, b, k) {
      assert k > 0 && a[1..][..k - 1] == a[..k][1..] && b[1..][..k - 1] == b[..k][1..];
      assert BelowFrom(a[1..], b[1..], k - 1);
    }
  }

  ghost predicate Ascending(s: seq<string>) { forall i, j | 0 <= i < j < |s| :: Below(s[i], s[j]) }

  // The distinct strings of a list in ascending order.
  function Insorted(x: string, s: seq<string>): seq<string> {
    if s == [] || StringLess(x, s[0]) then [x] + s
    else if x == s[0] then s
    else [s[0]] + Insorted(x, s[1..])
  }

  function SortedDistinct(names: seq<string>): seq<string> {
    if names == [] then [] else Insorted(names[0], SortedDistinct(names[1..]))
  }

  lemma {:induction false} InsortedMembers(x: string, s: seq<string>, y: string)
    ensures y in Insorted(x, s) <==> y == x || y in s
  {
    if s == [] || StringLess(x, s[0]) || x == s[0] {
      ConsMember(x, s, y);
    } else {
      InsortedMembers(x, s[1..], y);
      ConsMember(s[0], Insorted(x, s[1..]), y);
      assert s == [s[0]] + s[1..];
    }
  }

  lemma StrictCons<T(!new)>(x: T, s: seq<T>, less: (T, T) -> bool)
    requires StrictlySortedBy(s, less) && forall y | y in s :: less(x, y)
    ensures StrictlySortedBy([x] + s, less)
  {}

  lemma {:induction false} InsortedStrict(x: string, s: seq<string>)
    requires StrictlySortedBy(s, StringLess)
    ensures StrictlySortedBy(Insorted(x, s), StringLess)
  {
    if s == [] {
    } else if StringLess(x, s[0]) {
      forall y | y in s ensures StringLess(x, y) { StringLessOrder(x, s[0], y); }
      StrictCons(x, s, StringLess);
    } else if x != s[0] {
      InsortedStrict(x, s[1..]);
      StringLessOrder(s[0], x, x);
      forall y | y in Insorted(x, s[1..]) ensures StringLess(s[0], y) {
        InsortedMembers(x, s[1..], y);
      }
      StrictCons(s[0], Insorted(x, s[1..]), StringLess);
    }
  }

  lemma {:induction false} SortedDistinctStrict(names: seq<string>)
    ensures StrictlySortedBy(SortedDistinct(names), StringLess)
    ensures forall y :: y in SortedDistinct(names) <==> y in names
  {
    if names != [] {
      SortedDistinctStrict(names[1..]);
      InsortedStrict(names[0], SortedDistinct(names[1..]));
      assert names == [names[0]] + names[1..];
      forall y ensures y in SortedDistinct(names) <==> y in names {
        InsortedMembers(names[0], SortedDistinct(names[1..]), y);
      }
    }
  }

  lemma DistinctAscending(names: seq<string>)
    ensures Ascending(SortedDistinct(names)) && forall n :: n in SortedDistinct(names) <==> n in names
  {
    var s := SortedDistinct(names);
    SortedDistinctStrict(names);
    forall i, j | 0 <= i < j < |s| ensures Below(s[i], s[j]) { StringLessIff(s[i], s[j]); }
  }

  // sort.Strings applied to the keys of a map gives the sorted distinct names, whatever order
  // the map handed its keys out in.
  lemma SortKeys(keys: seq<string>, names: seq<string>)
    requires forall i, j | 0 <= i < j < |keys| :: keys[i] != keys[j]
    requires forall y :: y in keys <==> y in names
    ensures StableSort(keys, StringLess) == SortedDistinct(names)
  {
    StringLessTotal();
    SortSorts(keys, StringLess);
    SortPermutes(keys, StringLess);
    SortedDistinctStrict(names);
    var r := StableSort(keys, StringLess);
    MultisetMembers(r, keys);
    forall i, j | 0 <= i < j < |r| ensures StringLess(r[i], r[j]) {
      DistinctPermutation(keys, r, i, j);
    }
    StrictlySortedUnique(r, SortedDistinct(names), StringLess);
  }

  lemma DistinctPermutation<T>(s: seq<T>, r: seq<T>, i: nat, j: nat)
    requires forall a, b | 0 <= a < b < |s| :: s[a] != s[b]
    requires multiset(s) == multiset(r) && i < j < |r|
    ensures r[i] != r[j]
  {
    var x := r[i];
    MultisetMembers(s, r);
    assert r == r[..j] + r[j..];
    assert r[i] in r[..j] && r[j] in r[j..];
    assert multiset(r) == multiset(r[..j]) + multiset(r[j..]);
    if r[j] == x {
      assert multiset(r)[x] >= 2;
      assert x in s;
      OnceDistinct(s, x);
    }
  }

  lemma OnceDistinct<T>(s: seq<T>, x: T)
    requires forall a, b | 0 <= a < b < |s| :: s[a] != s[b]
    ensures multiset(s)[x] <= 1
  {
    if s != [] {
      OnceDistinct(s[1..], x);
      assert s == [s[0]] + s[1..];
      if s[0] == x { assert x !in s[1..]; }
    }
  }
}

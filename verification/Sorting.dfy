/** A stable sort by an integer key, as `Array.prototype.sort` with a key comparison performs it. */
module Sorting {

  function Filter<T>(s: seq<T>, keep: T -> bool): seq<T> {
    if s == [] then []
    else if keep(s[|s| - 1]) then Filter(s[..|s| - 1], keep) + [s[|s| - 1]]
    else Filter(s[..|s| - 1], keep)
  }

  /** Puts x behind every element of an ascending sequence whose key is not larger. */
  function Insert<T>(s: seq<T>, x: T, key: T -> int): seq<T> {
    if s == [] || key(s[|s| - 1]) <= key(x) then s + [x] else Insert(s[..|s| - 1], x, key) + [s[|s| - 1]]
  }

  function SortBy<T>(s: seq<T>, key: T -> int): seq<T> {
    if s == [] then [] else Insert(SortBy(s[..|s| - 1], key), s[|s| - 1], key)
  }

  ghost predicate Ascending<T>(s: seq<T>, key: T -> int) {
    forall i, j :: 0 <= i < j < |s| ==> key(s[i]) <= key(s[j])
  }

  ghost predicate StrictlyAscending<T>(s: seq<T>, key: T -> int) {
    forall i, j :: 0 <= i < j < |s| ==> key(s[i]) < key(s[j])
  }

  lemma {:induction false} FilterMembers<T>(s: seq<T>, keep: T -> bool)
    ensures forall x :: x in Filter(s, keep) <==> x in s && keep(x)
  {
    if s != [] {
      FilterMembers(s[..|s| - 1], keep);
      assert s == s[..|s| - 1] + [s[|s| - 1]];
    }
  }

  lemma {:induction false} FilterNone<T>(s: seq<T>, keep: T -> bool)
    requires forall i :: 0 <= i < |s| ==> !keep(s[i])
    ensures Filter(s, keep) == []
  {
    if s != [] { FilterNone(s[..|s| - 1], keep); }
  }

  lemma {:induction false} FilterDisjoint<T>(s: seq<T>, p: T -> bool, q: T -> bool)
    requires forall x :: !(p(x) && q(x))
    ensures Filter(Filter(s, p), q) == []
  {
    if s != [] {
      FilterDisjoint(s[..|s| - 1], p, q);
      FilterAppend(Filter(s[..|s| - 1], p), s[|s| - 1], q);
    }
  }

  lemma FilterAppend<T>(s: seq<T>, x: T, keep: T -> bool)
    ensures Filter(s + [x], keep) == if keep(x) then Filter(s, keep) + [x] else Filter(s, keep)
  {
    assert (s + [x])[..|s|] == s;
  }

  lemma AscendingFront<T>(s: seq<T>, key: T -> int)
    requires s != [] && Ascending(s, key)
    ensures Ascending(s[..|s| - 1], key)
    ensures |s| > 1 ==> key(s[|s| - 2]) <= key(s[|s| - 1])
  {
  }

  /** Appending an element keeps the order when no element has a larger key. */
  lemma AscendingAppend<T>(s: seq<T>, x: T, key: T -> int)
    requires Ascending(s, key) && forall y :: y in s ==> key(y) <= key(x)
    ensures Ascending(s + [x], key)
  {
    forall i, j | 0 <= i < j < |s + [x]| ensures key((s + [x])[i]) <= key((s + [x])[j]) {
      assert s[i] in s;
    }
  }

  lemma {:induction false} InsertMembers<T>(s: seq<T>, x: T, key: T -> int)
    ensures multiset(Insert(s, x, key)) == multiset(s) + multiset{x}
    ensures |Insert(s, x, key)| == |s| + 1
    decreases |s|
  {
    if s != [] {
      var n := |s| - 1;
      assert s == s[..n] + [s[n]];
      InsertMembers(s[..n], x, key);
    }
  }

  lemma {:induction false} InsertAscending<T>(s: seq<T>, x: T, key: T -> int)
    requires Ascending(s, key)
    ensures Ascending(Insert(s, x, key), key)
    decreases |s|
  {
    if s == [] || key(s[|s| - 1]) <= key(x) {
      AscendingAppend(s, x, key);
    } else {
      var n := |s| - 1;
      InsertAscending(s[..n], x, key);
      InsertMembers(s[..n], x, key);
      var r := Insert(s[..n], x, key);
      forall y | y in r ensures key(y) <= key(s[n]) {
        assert y in multiset(r);
      }
      AscendingAppend(r, s[n], key);
    }
  }

  /** The result is ascending and has the same elements. */
  lemma {:induction false} SortFacts<T>(s: seq<T>, key: T -> int)
    ensures Ascending(SortBy(s, key), key)
    ensures multiset(SortBy(s, key)) == multiset(s)
    ensures |SortBy(s, key)| == |s|
    decreases |s|
  {
    if s != [] {
      var n := |s| - 1;
      SortFacts(s[..n], key);
      InsertMembers(SortBy(s[..n], key), s[n], key);
      InsertAscending(SortBy(s[..n], key), s[n], key);
      assert s == s[..n] + [s[n]];
    }
  }

  lemma SortMembers<T>(s: seq<T>, key: T -> int)
    ensures forall x :: x in SortBy(s, key) <==> x in s
  {
    SortFacts(s, key);
    forall x ensures x in SortBy(s, key) <==> x in s {
      assert x in multiset(SortBy(s, key)) <==> x in multiset(s);
    }
  }

  lemma InsertBehind<T>(s: seq<T>, x: T, key: T -> int)
    requires s == [] || key(s[|s| - 1]) <= key(x)
    ensures Insert(s, x, key) == s + [x]
  {
  }

  /** Sorting an ascending sequence changes nothing. */
  lemma {:induction false} SortIdentity<T>(s: seq<T>, key: T -> int)
    requires Ascending(s, key)
    ensures SortBy(s, key) == s
    decreases |s|
  {
    if s != [] {
      var n := |s| - 1;
      var t := s[..n];
      SortIdentity(t, key);
      assert t != [] ==> key(t[|t| - 1]) <= key(s[n]);
      InsertBehind(t, s[n], key);
      assert s == t + [s[n]];
    }
  }

  /** What remains of elements not above x does not end above x. */
  lemma {:induction false} FilterLastBelow<T>(s: seq<T>, x: T, key: T -> int, keep: T -> bool)
    requires forall i :: 0 <= i < |s| ==> key(s[i]) <= key(x)
    ensures var f := Filter(s, keep); f == [] || key(f[|f| - 1]) <= key(x)
  {
    if s != [] { FilterLastBelow(s[..|s| - 1], x, key, keep); }
  }

  lemma {:induction false} InsertFilter<T>(s: seq<T>, x: T, key: T -> int, keep: T -> bool)
    requires Ascending(s, key)
    ensures Filter(Insert(s, x, key), keep) == if keep(x) then Insert(Filter(s, keep), x, key) else Filter(s, keep)
    decreases |s|
  {
    if s == [] || key(s[|s| - 1]) <= key(x) {
      FilterAppend(s, x, keep);
      FilterLastBelow(s, x, key, keep);
    } else {
      var n := |s| - 1;
      InsertFilter(s[..n], x, key, keep);
      FilterAppend(Insert(s[..n], x, key), s[n], keep);
      if keep(s[n]) {
        var f := Filter(s, keep);
        assert f[..|f| - 1] == Filter(s[..n], keep);
      }
    }
  }

  /** Stability: sorting commutes with dropping elements, so elements with equal keys keep their order. */
  lemma {:induction false} SortFilter<T>(s: seq<T>, key: T -> int, keep: T -> bool)
    ensures Filter(SortBy(s, key), keep) == SortBy(Filter(s, keep), key)
    decreases |s|
  {
    if s != [] {
      var n := |s| - 1;
      SortFilter(s[..n], key, keep);
      SortFacts(s[..n], key);
      InsertFilter(SortBy(s[..n], key), s[n], key, keep);
      if keep(s[n]) {
        var f := Filter(s, keep);
        assert f[..|f| - 1] == Filter(s[..n], keep);
      }
    }
  }

  function Below<T>(key: T -> int, bound: int): T -> bool { (x: T) => key(x) < bound }
  function AtLeast<T>(key: T -> int, bound: int): T -> bool { (x: T) => key(x) >= bound }

  /** An ascending sequence is its part below a bound followed by the rest. */
  lemma {:induction false} SplitAscending<T>(s: seq<T>, key: T -> int, bound: int)
    requires Ascending(s, key)
    ensures s == Filter(s, Below(key, bound)) + Filter(s, AtLeast(key, bound))
    decreases |s|
  {
    if s != [] {
      var n := |s| - 1;
      var below, above := Below(key, bound), AtLeast(key, bound);
      SplitAscending(s[..n], key, bound);
      assert s == s[..n] + [s[n]];
      FilterAppend(s[..n], s[n], below);
      FilterAppend(s[..n], s[n], above);
      if key(s[n]) < bound {
        FilterNone(s[..n], above);
      }
    }
  }

  /** A strictly ascending sequence depends on its set of elements only. */
  lemma {:induction false} StrictlySortedUnique<T>(a: seq<T>, b: seq<T>, key: T -> int)
    requires StrictlyAscending(a, key) && StrictlyAscending(b, key)
    requires forall x :: x in a <==> x in b
    ensures a == b
    decreases |a|
  {
    assert a != [] ==> a[0] in b;
    assert b != [] ==> b[0] in a;
    if a != [] {
      var a', b', x := a[..|a| - 1], b[..|b| - 1], a[|a| - 1];
      FrontsOf(a, b, a', b', x, key);
      StrictlySortedUnique(a', b', key);
    }
  }

  lemma FrontsOf<T>(a: seq<T>, b: seq<T>, a': seq<T>, b': seq<T>, x: T, key: T -> int)
    requires StrictlyAscending(a, key) && StrictlyAscending(b, key) && a != [] && b != []
    requires forall y :: y in a <==> y in b
    requires a' == a[..|a| - 1] && b' == b[..|b| - 1] && x == a[|a| - 1]
    ensures a == a' + [x] && b == b' + [x]
    ensures StrictlyAscending(a', key) && StrictlyAscending(b', key) && forall y :: y in a' <==> y in b'
  {
    LastsMeet(a, b, key);
    assert a == a' + [x] && b == b' + [x];
    SameFronts(a', b', x, key);
  }

  lemma LastsMeet<T>(a: seq<T>, b: seq<T>, key: T -> int)
    requires StrictlyAscending(a, key) && StrictlyAscending(b, key) && a != [] && b != []
    requires forall y :: y in a <==> y in b
    ensures a[|a| - 1] == b[|b| - 1]
  {
    LastIsShared(a, b, key);
    LastIsShared(b, a, key);
  }

  lemma SameFronts<T>(a: seq<T>, b: seq<T>, x: T, key: T -> int)
    requires StrictlyAscending(a + [x], key) && StrictlyAscending(b + [x], key)
    requires forall y :: y in a + [x] <==> y in b + [x]
    ensures StrictlyAscending(a, key) && StrictlyAscending(b, key) && forall y :: y in a <==> y in b
  {
    WithoutLast(a, x, a + [x], key);
    WithoutLast(b, x, b + [x], key);
    assert forall i :: 0 <= i < |a| ==> (a + [x])[i] == a[i];
    assert forall i :: 0 <= i < |b| ==> (b + [x])[i] == b[i];
  }

  lemma WithoutLast<T>(front: seq<T>, last: T, s: seq<T>, key: T -> int)
    requires s == front + [last] && StrictlyAscending(s, key)
    ensures forall x :: x in front <==> x in s && x != last
  {
    forall x | x in front ensures x != last {
      var i :| 0 <= i < |front| && front[i] == x;
      assert s[i] == x && s[|front|] == last;
    }
  }

  lemma LastIsShared<T>(a: seq<T>, b: seq<T>, key: T -> int)
    requires a != [] && b != [] && StrictlyAscending(a, key) && StrictlyAscending(b, key)
    requires forall x :: x in a ==> x in b
    ensures key(a[|a| - 1]) <= key(b[|b| - 1]) && (key(a[|a| - 1]) == key(b[|b| - 1]) ==> a[|a| - 1] == b[|b| - 1])
  {
    var x := a[|a| - 1];
    assert x in b;
    var i :| 0 <= i < |b| && b[i] == x;
  }

  /** Where the first and the last sorted element stand in the input: the earliest of the smallest, the latest of the largest. */
  ghost predicate IsFirst<T>(s: seq<T>, i: int, key: T -> int) {
    0 <= i < |s| && forall j :: 0 <= j < |s| ==> key(s[i]) < key(s[j]) || (key(s[i]) == key(s[j]) && i <= j)
  }

  ghost predicate IsLast<T>(s: seq<T>, i: int, key: T -> int) {
    0 <= i < |s| && forall j :: 0 <= j < |s| ==> key(s[j]) < key(s[i]) || (key(s[i]) == key(s[j]) && j <= i)
  }

  lemma {:induction false} InsertEnds<T>(s: seq<T>, x: T, key: T -> int)
    requires Ascending(s, key)
    ensures var r := Insert(s, x, key);
            |r| == |s| + 1
            && r[0] == (if s != [] && key(s[0]) <= key(x) then s[0] else x)
            && r[|s|] == (if s != [] && key(s[|s| - 1]) > key(x) then s[|s| - 1] else x)
    decreases |s|
  {
    if s != [] && key(s[|s| - 1]) > key(x) { InsertEnds(s[..|s| - 1], x, key); }
  }

  /** Adding an element behind s moves these places only if the element displaces what they hold. */
  lemma EndsAppend<T>(s: seq<T>, x: T, i: int, key: T -> int)
    ensures IsFirst(s, i, key) ==> IsFirst(s + [x], if key(x) < key(s[i]) then |s| else i, key)
    ensures IsLast(s, i, key) ==> IsLast(s + [x], if key(x) >= key(s[i]) then |s| else i, key)
  {
  }

  lemma {:induction false} SortFirst<T>(s: seq<T>, key: T -> int)
    requires s != []
    ensures |SortBy(s, key)| == |s|
    ensures exists i :: IsFirst(s, i, key) && SortBy(s, key)[0] == s[i]
    decreases |s|
  {
    var t, x := s[..|s| - 1], s[|s| - 1];
    assert s == t + [x];
    SortFacts(t, key);
    InsertEnds(SortBy(t, key), x, key);
    if t == [] {
      assert IsFirst(s, 0, key);
    } else {
      SortFirst(t, key);
      var i :| IsFirst(t, i, key) && SortBy(t, key)[0] == t[i];
      EndsAppend(t, x, i, key);
    }
  }

  lemma {:induction false} SortLast<T>(s: seq<T>, key: T -> int)
    requires s != []
    ensures |SortBy(s, key)| == |s|
    ensures exists i :: IsLast(s, i, key) && SortBy(s, key)[|s| - 1] == s[i]
    decreases |s|
  {
    var t, x := s[..|s| - 1], s[|s| - 1];
    assert s == t + [x];
    SortFacts(t, key);
    InsertEnds(SortBy(t, key), x, key);
    if t == [] {
      assert IsLast(s, 0, key);
    } else {
      SortLast(t, key);
      var i :| IsLast(t, i, key) && SortBy(t, key)[|t| - 1] == t[i];
      EndsAppend(t, x, i, key);
    }
  }

  lemma {:induction false} FilterFilter<T>(s: seq<T>, p: T -> bool, q: T -> bool, both: T -> bool)
    requires forall x :: both(x) <==> p(x) && q(x)
    ensures Filter(Filter(s, p), q) == Filter(s, both)
  {
    if s != [] {
      FilterFilter(s[..|s| - 1], p, q, both);
      FilterAppend(Filter(s[..|s| - 1], p), s[|s| - 1], q);
    }
  }

  ghost predicate DistinctKeys<T>(s: seq<T>, key: T -> int) {
    forall i, j :: 0 <= i < j < |s| ==> key(s[i]) != key(s[j])
  }

  /** Sorting elements with distinct keys gives a strictly ascending sequence. */
  lemma {:induction false} SortStrict<T>(s: seq<T>, key: T -> int)
    requires DistinctKeys(s, key)
    ensures StrictlyAscending(SortBy(s, key), key)
    decreases |s|
  {
    if s != [] {
      var t, x := s[..|s| - 1], s[|s| - 1];
      SortStrict(t, key);
      SortFacts(t, key);
      forall y | y in SortBy(t, key) ensures key(y) != key(x) {
        assert y in multiset(t);
        var i :| 0 <= i < |t| && t[i] == y;
        assert key(s[i]) != key(s[|t|]);
      }
      InsertStrict(SortBy(t, key), x, key);
    }
  }

  lemma StrictAppend<T>(s: seq<T>, x: T, key: T -> int)
    requires StrictlyAscending(s, key) && forall y :: y in s ==> key(y) < key(x)
    ensures StrictlyAscending(s + [x], key)
  {
    forall i, j | 0 <= i < j < |s + [x]| ensures key((s + [x])[i]) < key((s + [x])[j]) {
      assert s[i] in s;
    }
  }

  lemma {:induction false} InsertStrict<T>(s: seq<T>, x: T, key: T -> int)
    requires StrictlyAscending(s, key) && forall y :: y in s ==> key(y) != key(x)
    ensures StrictlyAscending(Insert(s, x, key), key)
    decreases |s|
  {
    if s == [] {
    } else {
      var t, y := s[..|s| - 1], s[|s| - 1];
      assert s == t + [y];
      WithoutLast(t, y, s, key);
      if key(y) <= key(x) {
        assert y in s;
        StrictAppend(s, x, key);
      } else {
        InsertStrict(t, x, key);
        InsertMembers(t, x, key);
        var r := Insert(t, x, key);
        forall z | z in r ensures key(z) < key(y) {
          assert z in multiset(r);
        }
        StrictAppend(r, y, key);
      }
    }
  }

  // ---------------------------------------------------------------- totals

  function Total<T>(s: seq<T>, value: T -> real): real {
    if s == [] then 0.0 else Total(s[..|s| - 1], value) + value(s[|s| - 1])
  }

  lemma {:induction false} TotalConcat<T>(a: seq<T>, b: seq<T>, value: T -> real)
    ensures Total(a + b, value) == Total(a, value) + Total(b, value)
    decreases |b|
  {
    if b == [] {
      assert a + b == a;
    } else {
      TotalConcat(a, b[..|b| - 1], value);
      assert (a + b)[..|a + b| - 1] == a + b[..|b| - 1];
    }
  }

  lemma TotalOne<T>(x: T, value: T -> real)
    ensures Total([x], value) == value(x)
  {
    assert [x][..0] == [];
  }

  lemma {:induction false} TotalInsert<T>(s: seq<T>, x: T, key: T -> int, value: T -> real)
    ensures Total(Insert(s, x, key), value) == Total(s, value) + value(x)
    decreases |s|
  {
    if s == [] || key(s[|s| - 1]) <= key(x) {
      TotalConcat(s, [x], value);
    } else {
      TotalInsert(s[..|s| - 1], x, key, value);
      TotalConcat(Insert(s[..|s| - 1], x, key), [s[|s| - 1]], value);
    }
  }

  /** A total does not depend on the order. */
  lemma {:induction false} TotalSort<T>(s: seq<T>, key: T -> int, value: T -> real)
    ensures Total(SortBy(s, key), value) == Total(s, value)
    decreases |s|
  {
    if s != [] {
      TotalSort(s[..|s| - 1], key, value);
      TotalInsert(SortBy(s[..|s| - 1], key), s[|s| - 1], key, value);
    }
  }

  lemma {:induction false} TotalWithout<T>(s: seq<T>, i: nat, value: T -> real)
    requires i < |s|
    ensures Total(s, value) == Total(s[..i] + s[i + 1..], value) + value(s[i])
  {
    assert s == s[..i] + ([s[i]] + s[i + 1..]);
    TotalConcat(s[..i], [s[i]] + s[i + 1..], value);
    TotalConcat([s[i]], s[i + 1..], value);
    TotalConcat(s[..i], s[i + 1..], value);
  }

  lemma BagWithout<T>(front: seq<T>, b: seq<T>, i: nat)
    requires i < |b| && multiset(front + [b[i]]) == multiset(b)
    ensures multiset(front) == multiset(b[..i] + b[i + 1..])
  {
    var x := b[i];
    assert b == b[..i] + [x] + b[i + 1..];
    assert multiset(b) == multiset(b[..i] + b[i + 1..]) + multiset{x};
    assert multiset(front) == multiset(front + [x]) - multiset{x};
  }

  lemma {:induction false} TotalOfBag<T>(a: seq<T>, b: seq<T>, value: T -> real)
    requires multiset(a) == multiset(b)
    ensures Total(a, value) == Total(b, value)
    decreases |a|
  {
    assert |multiset(a)| == |a| && |multiset(b)| == |b|;
    if a != [] {
      var n := |a| - 1;
      var x := a[n];
      assert a == a[..n] + [x];
      assert x in multiset(b);
      var i :| 0 <= i < |b| && b[i] == x;
      BagWithout(a[..n], b, i);
      TotalOfBag(a[..n], b[..i] + b[i + 1..], value);
      TotalWithout(b, i, value);
    }
  }

  /** Dropping elements is counting them as nothing. */
  lemma {:induction false} TotalFilter<T>(s: seq<T>, keep: T -> bool, value: T -> real, kept: T -> real)
    requires forall x :: kept(x) == if keep(x) then value(x) else 0.0
    ensures Total(Filter(s, keep), value) == Total(s, kept)
    decreases |s|
  {
    if s != [] {
      TotalFilter(s[..|s| - 1], keep, value, kept);
      if keep(s[|s| - 1]) { TotalConcat(Filter(s[..|s| - 1], keep), [s[|s| - 1]], value); }
    }
  }

  lemma {:induction false} TotalSum<T>(s: seq<T>, v: T -> real, w: T -> real, sum: T -> real)
    requires forall x :: sum(x) == v(x) + w(x)
    ensures Total(s, sum) == Total(s, v) + Total(s, w)
    decreases |s|
  {
    if s != [] { TotalSum(s[..|s| - 1], v, w, sum); }
  }

  function FlatMap<T, U>(s: seq<T>, f: T -> seq<U>): seq<U> {
    if s == [] then [] else FlatMap(s[..|s| - 1], f) + f(s[|s| - 1])
  }

  ghost predicate Produces<T(!new), U>(s: seq<T>, f: T -> seq<U>, y: U) {
    exists x :: x in s && y in f(x)
  }

  lemma {:induction false} FlatMapMembers<T(!new), U>(s: seq<T>, f: T -> seq<U>, y: U)
    ensures y in FlatMap(s, f) <==> Produces(s, f, y)
  {
    if s != [] {
      var t, x := s[..|s| - 1], s[|s| - 1];
      FlatMapMembers(t, f, y);
      assert s == t + [x];
      if Produces(t, f, y) {
        var z :| z in t && y in f(z);
        assert z in s;
      }
    }
  }

  lemma {:induction false} FlatMapOfNothing<T, U>(s: seq<T>, f: T -> seq<U>)
    requires forall x :: x in s ==> f(x) == []
    ensures FlatMap(s, f) == []
  {
    if s != [] {
      assert s[|s| - 1] in s && forall x :: x in s[..|s| - 1] ==> x in s;
      FlatMapOfNothing(s[..|s| - 1], f);
    }
  }

  lemma {:induction false} TotalFlatMap<T, U>(s: seq<T>, f: T -> seq<U>, value: U -> real, each: T -> real)
    requires forall x :: each(x) == Total(f(x), value)
    ensures Total(FlatMap(s, f), value) == Total(s, each)
    decreases |s|
  {
    if s != [] {
      TotalFlatMap(s[..|s| - 1], f, value, each);
      TotalConcat(FlatMap(s[..|s| - 1], f), f(s[|s| - 1]), value);
    }
  }

  // ---------------------------------------------------------------- elements of one key

  lemma {:induction false} FilterConcat<T>(a: seq<T>, b: seq<T>, keep: T -> bool)
    ensures Filter(a + b, keep) == Filter(a, keep) + Filter(b, keep)
    decreases |b|
  {
    if b == [] {
      assert a + b == a;
    } else {
      FilterConcat(a, b[..|b| - 1], keep);
      assert (a + b)[..|a + b| - 1] == a + b[..|b| - 1];
    }
  }

  lemma {:induction false} FilterAll<T>(s: seq<T>, keep: T -> bool)
    requires forall i :: 0 <= i < |s| ==> keep(s[i])
    ensures Filter(s, keep) == s
  {
    if s != [] { FilterAll(s[..|s| - 1], keep); }
  }

  lemma {:induction false} OneKeyAscends<T>(s: seq<T>, key: T -> int, k: int, keep: T -> bool)
    requires forall x :: keep(x) <==> key(x) == k
    ensures forall i :: 0 <= i < |Filter(s, keep)| ==> key(Filter(s, keep)[i]) == k
  {
    if s != [] { OneKeyAscends(s[..|s| - 1], key, k, keep); }
  }

  /** Sorting leaves the elements of one key in the order they came in. */
  lemma SortKeepsTies<T>(s: seq<T>, key: T -> int, k: int, keep: T -> bool)
    requires forall x :: keep(x) <==> key(x) == k
    ensures Filter(SortBy(s, key), keep) == Filter(s, keep)
  {
    SortFilter(s, key, keep);
    OneKeyAscends(s, key, k, keep);
    SortIdentity(Filter(s, keep), key);
  }
}

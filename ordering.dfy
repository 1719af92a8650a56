/** Query helpers shared by the services: `filter`, counting, and the
    `orderBy: { key: 'desc' }` of the database queries (or the
    `sort((a, b) => b - a)` of JavaScript), modelled as a stable insertion
    sort on an integer key. */
module Ordering {

  /** Non-increasing by `key`. */
  ghost predicate SortedDesc<T>(s: seq<T>, key: T -> int)
  {
    forall i, j :: 0 <= i < j < |s| ==> key(s[i]) >= key(s[j])
  }

  /** Inserts `x` in front of the first element whose key is not larger,
      so that `x` stays ahead of equal keys coming after it. */
  function Insert<T>(x: T, s: seq<T>, key: T -> int): (r: seq<T>)
    requires SortedDesc(s, key)
    ensures SortedDesc(r, key)
    ensures multiset(r) == multiset(s) + multiset{x}
    ensures |r| == |s| + 1
    ensures r[0] == x || (s != [] && r[0] == s[0])
  {
    if s == [] || key(x) >= key(s[0]) then
      ConsSorted(x, s, key);
      [x] + s
    else
      var t := Insert(x, s[1..], key);
      assert s == [s[0]] + s[1..];
      assert multiset([s[0]] + t) == multiset{s[0]} + multiset(t);
      ConsSorted(s[0], t, key);
      [s[0]] + t
  }

  /** An element no smaller than the head of a sorted sequence can go in
      front of it. */
  lemma ConsSorted<T>(x: T, s: seq<T>, key: T -> int)
    requires SortedDesc(s, key) && (s == [] || key(x) >= key(s[0]))
    ensures SortedDesc([x] + s, key)
  {
    var r := [x] + s;
    forall i, j | 0 <= i < j < |r| ensures key(r[i]) >= key(r[j]) {
      if i == 0 {
        assert r[j] == s[j - 1];
        assert key(s[0]) >= key(s[j - 1]);
      } else {
        assert r[i] == s[i - 1] && r[j] == s[j - 1];
      }
    }
  }

  /** Sorts by non-increasing key; elements with equal keys keep their
      relative order. */
  function SortDesc<T>(s: seq<T>, key: T -> int): (r: seq<T>)
    ensures SortedDesc(r, key)
    ensures multiset(r) == multiset(s)
    ensures |r| == |s|
  {
    if s == [] then []
    else
      assert s == [s[0]] + s[1..];
      Insert(s[0], SortDesc(s[1..], key), key)
  }

  /** `s.filter(p)`: the elements satisfying `p`, in their order. */
  function Filter<T(!new)>(s: seq<T>, p: T -> bool): (r: seq<T>)
    ensures |r| <= |s|
    ensures forall i :: 0 <= i < |r| ==> r[i] in s && p(r[i])
    ensures forall i :: 0 <= i < |s| && p(s[i]) ==> s[i] in r
    ensures multiset(r) <= multiset(s)
    ensures forall x {:trigger multiset(r)[x]} :: multiset(r)[x] == if p(x) then multiset(s)[x] else 0
  {
    if s == [] then []
    else
      var head := if p(s[0]) then [s[0]] else [];
      var rest := Filter(s[1..], p);
      assert s == [s[0]] + s[1..];
      FilterStep(s[0], s[1..], rest, p);
      head + rest
  }

  /** The filter of `[x] + t`, given the filter `rest` of `t`. */
  lemma FilterStep<T(!new)>(x: T, t: seq<T>, rest: seq<T>, p: T -> bool)
    requires |rest| <= |t|
    requires forall i :: 0 <= i < |rest| ==> rest[i] in t && p(rest[i])
    requires forall i :: 0 <= i < |t| && p(t[i]) ==> t[i] in rest
    requires multiset(rest) <= multiset(t)
    requires forall y {:trigger multiset(rest)[y]} :: multiset(rest)[y] == if p(y) then multiset(t)[y] else 0
    ensures var s, r := [x] + t, (if p(x) then [x] else []) + rest;
      && |r| <= |s|
      && (forall i :: 0 <= i < |r| ==> r[i] in s && p(r[i]))
      && (forall i :: 0 <= i < |s| && p(s[i]) ==> s[i] in r)
      && multiset(r) <= multiset(s)
      && (forall y {:trigger multiset(r)[y]} :: multiset(r)[y] == if p(y) then multiset(s)[y] else 0)
  {
    var s, r := [x] + t, (if p(x) then [x] else []) + rest;
    assert multiset(s) == multiset{x} + multiset(t);
    assert multiset(r) == multiset(if p(x) then [x] else []) + multiset(rest);
    forall i | 0 <= i < |s| && p(s[i]) ensures s[i] in r {
      if i > 0 {
        assert s[i] == t[i - 1];
      }
    }
  }

  /** Filtering a non-empty sequence: its first element, if kept, then the
      filter of the rest. */
  lemma FilterCons<T(!new)>(x: T, t: seq<T>, p: T -> bool)
    ensures Filter([x] + t, p) == (if p(x) then [x] else []) + Filter(t, p)
  {
    assert ([x] + t)[1..] == t;
  }

  /** A kept first element heads the filter of the rest. */
  lemma FilterKeepsHead<T(!new)>(s: seq<T>, r: seq<T>, x: T, t: seq<T>, rest: seq<T>, p: T -> bool)
    requires s == [x] + t && r == [x] + rest
    requires p(x) && rest == Filter(t, p)
    ensures Filter(s, p) == r
  {
    FilterCons(x, t, p);
  }

  /** Filtering a concatenation filters each part in turn, so the kept
      elements stay in their order. */
  lemma {:induction false} FilterAppend<T(!new)>(a: seq<T>, b: seq<T>, p: T -> bool)
    ensures Filter(a + b, p) == Filter(a, p) + Filter(b, p)
  {
    if a != [] {
      var c := a + b;
      assert c[0] == a[0] && c[1..] == a[1..] + b;
      FilterAppend(a[1..], b, p);
      var x, y := Filter(a[1..], p), Filter(b, p);
      if p(a[0]) {
        assert Filter(c, p) == [a[0]] + (x + y);
        assert Filter(a, p) == [a[0]] + x;
        assert [a[0]] + (x + y) == ([a[0]] + x) + y;
      } else {
        assert Filter(c, p) == x + y;
        assert Filter(a, p) == x;
      }
    } else {
      assert a + b == b;
    }
  }

  /** `s.slice(0, n)`. */
  function Take<T>(s: seq<T>, n: nat): (r: seq<T>)
    ensures |r| == if n < |s| then n else |s|
    ensures forall i :: 0 <= i < |r| ==> r[i] == s[i]
  {
    if n < |s| then s[..n] else s
  }

  /** Every element of a sequence without repetitions occurs once. */
  ghost predicate Distinct<T>(s: seq<T>)
  {
    forall i, j :: 0 <= i < j < |s| ==> s[i] != s[j]
  }

  /** Reordering or dropping elements keeps a sequence free of repetitions. */
  lemma DistinctSubMultiset<T>(s: seq<T>, r: seq<T>)
    requires Distinct(s)
    requires multiset(r) <= multiset(s)
    ensures Distinct(r)
  {
    forall i, j | 0 <= i < j < |r| ensures r[i] != r[j] {
      if r[i] == r[j] {
        var x := r[i];
        assert r == r[..i] + [x] + r[i + 1..j] + [x] + r[j + 1..];
        assert multiset(r)[x] >= 2;
        DistinctCountAtMostOne(s, x);
        assert false;
      }
    }
  }

  lemma {:induction false} DistinctCountAtMostOne<T>(s: seq<T>, x: T)
    requires Distinct(s)
    ensures multiset(s)[x] <= 1
  {
    if s != [] {
      assert s == [s[0]] + s[1..];
      DistinctCountAtMostOne(s[1..], x);
      if s[0] == x {
        assert x !in s[1..];
      }
    }
  }
}

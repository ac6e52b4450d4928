/**
 * The array operations the application uses, stated on sequences:
 * `filter`, `findIndex`/`find`, counting, `new Set(...)` de-duplication
 * and the stable `sort` of ECMAScript 2019.
 */
module Seqs {
  import opened Wrappers

  // ---------------------------------------------------------------------
  // filter

  /** `s.filter(p)`. */
  function Filter<T>(s: seq<T>, p: T -> bool): (r: seq<T>)
    ensures |r| <= |s|
    ensures forall k :: 0 <= k < |r| ==> r[k] in s && p(r[k])
    ensures forall k :: 0 <= k < |s| && p(s[k]) ==> s[k] in r
    decreases |s|
  {
    if s == [] then []
    else Filter(s[..|s| - 1], p) + (if p(s[|s| - 1]) then [s[|s| - 1]] else [])
  }

  /** Filtering keeps storage order: it distributes over concatenation. */
  lemma {:induction false} FilterAppend<T>(a: seq<T>, b: seq<T>, p: T -> bool)
    ensures Filter(a + b, p) == Filter(a, p) + Filter(b, p)
    decreases |b|
  {
    if b != [] {
      var b' := b[..|b| - 1];
      FilterAppend(a, b', p);
      assert (a + b)[..|a + b| - 1] == a + b';
      assert (a + b)[|a + b| - 1] == b[|b| - 1];
      var tail := if p(b[|b| - 1]) then [b[|b| - 1]] else [];
      assert Filter(a + b, p) == Filter(a + b', p) + tail;
      assert Filter(b, p) == Filter(b', p) + tail;
      assert Filter(a + b, p) == Filter(a, p) + Filter(b', p) + tail;
    } else {
      assert a + b == a;
    }
  }

  /** Filtering a one-element sequence. */
  lemma FilterSingleton<T>(x: T, p: T -> bool)
    ensures Filter([x], p) == if p(x) then [x] else []
  {
    assert [x][..0] == [];
  }

  /** Filtering with a predicate every element satisfies keeps everything. */
  lemma {:induction false} FilterAll<T>(s: seq<T>, p: T -> bool)
    requires forall x :: x in s ==> p(x)
    ensures Filter(s, p) == s
    decreases |s|
  {
    if s != [] {
      FilterAll(s[..|s| - 1], p);
      assert s == s[..|s| - 1] + [s[|s| - 1]];
    }
  }

  /** Filtering keeps every copy of an element that satisfies `p`, and no copy of one that does not. */
  lemma {:induction false} FilterMultiset<T>(s: seq<T>, p: T -> bool, x: T)
    ensures multiset(Filter(s, p))[x] == if p(x) then multiset(s)[x] else 0
    decreases |s|
  {
    if s != [] {
      var init, last := s[..|s| - 1], s[|s| - 1];
      FilterMultiset(init, p, x);
      assert s == init + [last];
      assert multiset(s) == multiset(init) + multiset{last};
    }
  }

  /** Filtering keeps elements in the order of a key that increases along the sequence. */
  lemma {:induction false} FilterKeepsOrder<T>(s: seq<T>, p: T -> bool, key: T -> int)
    requires forall i, j :: 0 <= i < j < |s| ==> key(s[i]) < key(s[j])
    ensures forall i, j :: 0 <= i < j < |Filter(s, p)| ==> key(Filter(s, p)[i]) < key(Filter(s, p)[j])
    decreases |s|
  {
    if s != [] {
      var init, last := s[..|s| - 1], s[|s| - 1];
      FilterKeepsOrder(init, p, key);
      var f := Filter(init, p);
      assert forall i, j :: 0 <= i < j < |f| ==> key(f[i]) < key(f[j]);
      forall k | 0 <= k < |f| ensures key(f[k]) < key(last) {
        var m :| 0 <= m < |init| && init[m] == f[k];
        assert s[m] == init[m];
      }
      if p(last) {
        var r := f + [last];
        assert Filter(s, p) == r;
        forall i, j | 0 <= i < j < |r| ensures key(r[i]) < key(r[j]) {
          if j < |f| {
            assert r[i] == f[i] && r[j] == f[j];
          } else {
            assert r[i] == f[i] && r[j] == last;
          }
        }
      } else {
        assert Filter(s, p) == f;
      }
    }
  }

  /** Filtering with a predicate no element satisfies keeps nothing. */
  lemma {:induction false} FilterNone<T>(s: seq<T>, p: T -> bool)
    requires forall x :: x in s ==> !p(x)
    ensures Filter(s, p) == []
    decreases |s|
  {
    if s != [] {
      FilterNone(s[..|s| - 1], p);
    }
  }

  /** Two predicates that agree on the elements give the same filter. */
  lemma {:induction false} FilterCongruent<T>(s: seq<T>, p: T -> bool, q: T -> bool)
    requires forall x :: x in s ==> p(x) == q(x)
    ensures Filter(s, p) == Filter(s, q)
    decreases |s|
  {
    if s != [] {
      FilterCongruent(s[..|s| - 1], p, q);
    }
  }

  // ---------------------------------------------------------------------
  // findIndex

  /** `s.findIndex(p)` searching from position `k`, with `None` for -1. */
  function FirstIndexFrom<T>(s: seq<T>, p: T -> bool, k: nat): (r: Option<nat>)
    ensures r.Some? ==> k <= r.value < |s| && p(s[r.value])
    ensures r.Some? ==> forall j :: k <= j < r.value ==> !p(s[j])
    ensures r.None? ==> forall j :: k <= j < |s| ==> !p(s[j])
    decreases |s| - k
  {
    if k >= |s| then None
    else if p(s[k]) then Some(k)
    else FirstIndexFrom(s, p, k + 1)
  }

  /** `s.findIndex(p)`: the first index whose element satisfies `p`. */
  function FirstIndex<T>(s: seq<T>, p: T -> bool): (r: Option<nat>)
    ensures r.Some? ==> r.value < |s| && p(s[r.value])
    ensures r.Some? ==> forall j :: 0 <= j < r.value ==> !p(s[j])
    ensures r.None? <==> forall j :: 0 <= j < |s| ==> !p(s[j])
  {
    FirstIndexFrom(s, p, 0)
  }

  /** `s.find(p)`. */
  function Find<T>(s: seq<T>, p: T -> bool): (r: Option<T>)
    ensures r.Some? <==> exists j :: 0 <= j < |s| && p(s[j])
    ensures r.Some? ==> r.value in s && p(r.value)
  {
    match FirstIndex(s, p)
    case None => None
    case Some(i) => Some(s[i])
  }

  /** Removing index `i` (`splice(i, 1)`). */
  function RemoveAt<T>(s: seq<T>, i: nat): (r: seq<T>)
    requires i < |s|
    ensures |r| == |s| - 1
    ensures forall j :: 0 <= j < i ==> r[j] == s[j]
    ensures forall j :: i <= j < |r| ==> r[j] == s[j + 1]
  {
    s[..i] + s[i + 1..]
  }

  // ---------------------------------------------------------------------
  // flattening

  /** The pieces `f(x)` of the elements of `s`, concatenated in order. */
  function FlatMap<T, U>(s: seq<T>, f: T -> seq<U>): (r: seq<U>)
    ensures s == [] ==> r == []
    decreases |s|
  {
    if s == [] then [] else FlatMap(s[..|s| - 1], f) + f(s[|s| - 1])
  }

  /** Flattening distributes over concatenation. */
  lemma {:induction false} FlatMapAppend<T, U>(a: seq<T>, b: seq<T>, f: T -> seq<U>)
    ensures FlatMap(a + b, f) == FlatMap(a, f) + FlatMap(b, f)
    decreases |b|
  {
    if b == [] {
      assert a + b == a;
    } else {
      var b' := b[..|b| - 1];
      FlatMapAppend(a, b', f);
      assert (a + b)[..|a + b| - 1] == a + b';
      assert (a + b)[|a + b| - 1] == b[|b| - 1];
    }
  }

  // ---------------------------------------------------------------------
  // counting

  /** The number of elements satisfying `p` (`s.filter(p).length`). */
  function Count<T>(s: seq<T>, p: T -> bool): (n: nat)
    ensures n <= |s|
    ensures n == 0 <==> forall j :: 0 <= j < |s| ==> !p(s[j])
    decreases |s|
  {
    if s == [] then 0
    else Count(s[..|s| - 1], p) + (if p(s[|s| - 1]) then 1 else 0)
  }

  /** Counting is the length of the filter. */
  lemma {:induction false} CountIsFilterLength<T>(s: seq<T>, p: T -> bool)
    ensures Count(s, p) == |Filter(s, p)|
    decreases |s|
  {
    if s != [] { CountIsFilterLength(s[..|s| - 1], p); }
  }

  /** Counting distributes over concatenation. */
  lemma {:induction false} CountAppend<T>(a: seq<T>, b: seq<T>, p: T -> bool)
    ensures Count(a + b, p) == Count(a, p) + Count(b, p)
    decreases |b|
  {
    if b != [] {
      CountAppend(a, b[..|b| - 1], p);
      assert (a + b)[..|a + b| - 1] == a + b[..|b| - 1];
      assert (a + b)[|a + b| - 1] == b[|b| - 1];
      assert Count(a + b, p) == Count(a + b[..|b| - 1], p) + (if p(b[|b| - 1]) then 1 else 0);
    } else {
      assert a + b == a;
    }
  }

  /** Elementwise-equivalent sequences have equal counts. */
  lemma {:induction false} CountCongruent<T>(s: seq<T>, t: seq<T>, p: T -> bool, q: T -> bool)
    requires |s| == |t|
    requires forall j :: 0 <= j < |s| ==> p(s[j]) == q(t[j])
    ensures Count(s, p) == Count(t, q)
    decreases |s|
  {
    if s != [] { CountCongruent(s[..|s| - 1], t[..|t| - 1], p, q); }
  }

  // ---------------------------------------------------------------------
  // new Set(s): distinct values, first occurrences in order

  predicate Distinct<T(==)>(s: seq<T>) {
    forall i, j :: 0 <= i < j < |s| ==> s[i] != s[j]
  }

  /** `[...new Set(s)]`: each value once, in order of first occurrence. */
  function Dedup<T(==)>(s: seq<T>): (r: seq<T>)
    ensures forall k :: 0 <= k < |r| ==> r[k] in s
    ensures forall k :: 0 <= k < |s| ==> s[k] in r
    ensures Distinct(r)
    decreases |s|
  {
    if s == [] then []
    else
      var prefix := Dedup(s[..|s| - 1]);
      if s[|s| - 1] in s[..|s| - 1] then prefix else prefix + [s[|s| - 1]]
  }

  /** A distinct sequence holds each value at most once. */
  lemma {:induction false} DistinctMultiplicity<T>(s: seq<T>, x: T)
    requires Distinct(s)
    ensures multiset(s)[x] <= 1
    decreases |s|
  {
    if s != [] {
      var s' := s[..|s| - 1];
      DistinctMultiplicity(s', x);
      assert s == s' + [s[|s| - 1]];
      if x == s[|s| - 1] {
        assert x !in s';
      }
    }
  }

  /** A permutation of a distinct sequence is distinct. */
  lemma DistinctPermutation<T>(a: seq<T>, b: seq<T>)
    requires Distinct(a)
    requires multiset(a) == multiset(b)
    ensures Distinct(b)
  {
    forall i, j | 0 <= i < j < |b| ensures b[i] != b[j] {
      if b[i] == b[j] {
        var x := b[i];
        assert b == b[..j] + [b[j]] + b[j + 1..];
        assert x in b[..j];
        assert multiset(b)[x] >= 2 by {
          assert multiset(b) == multiset(b[..j]) + multiset{x} + multiset(b[j + 1..]);
        }
        DistinctMultiplicity(a, x);
      }
    }
  }

  // ---------------------------------------------------------------------
  // stable sort

  /**
   * `gt(a, b)` means the comparator puts `a` after `b` (it returned a positive
   * number). A consistent comparator is a strict weak order.
   */
  ghost predicate StrictWeakOrder<T(!new)>(gt: (T, T) -> bool) {
    && (forall a, b :: gt(a, b) ==> !gt(b, a))
    && (forall a, b, c :: gt(a, c) ==> gt(a, b) || gt(b, c))
  }

  /** No element has to follow a later one. */
  predicate Sorted<T>(s: seq<T>, gt: (T, T) -> bool) {
    forall i, j :: 0 <= i < j < |s| ==> !gt(s[i], s[j])
  }

  /** Stable insertion of `x` behind every element it does not have to precede. */
  function Insert<T>(s: seq<T>, x: T, gt: (T, T) -> bool): (r: seq<T>)
    ensures |r| == |s| + 1
    decreases |s|
  {
    if s == [] then [x]
    else if gt(s[|s| - 1], x) then Insert(s[..|s| - 1], x, gt) + [s[|s| - 1]]
    else s + [x]
  }

  /** Insertion adds exactly the one element. */
  lemma {:induction false} InsertMultiset<T>(s: seq<T>, x: T, gt: (T, T) -> bool)
    ensures multiset(Insert(s, x, gt)) == multiset(s) + multiset{x}
    decreases |s|
  {
    if s != [] && gt(s[|s| - 1], x) {
      InsertMultiset(s[..|s| - 1], x, gt);
      assert s == s[..|s| - 1] + [s[|s| - 1]];
    }
  }

  /** The stable sort `Array.prototype.sort` performs with comparator `gt`. */
  function Sort<T>(s: seq<T>, gt: (T, T) -> bool): (r: seq<T>)
    ensures |r| == |s|
    decreases |s|
  {
    if s == [] then [] else Insert(Sort(s[..|s| - 1], gt), s[|s| - 1], gt)
  }

  /** The sort is a permutation of its input. */
  lemma {:induction false} SortPermutation<T>(s: seq<T>, gt: (T, T) -> bool)
    ensures multiset(Sort(s, gt)) == multiset(s)
    decreases |s|
  {
    if s != [] {
      SortPermutation(s[..|s| - 1], gt);
      InsertMultiset(Sort(s[..|s| - 1], gt), s[|s| - 1], gt);
      assert s == s[..|s| - 1] + [s[|s| - 1]];
    }
  }

  lemma {:induction false} InsertSorted<T(!new)>(s: seq<T>, x: T, gt: (T, T) -> bool)
    requires StrictWeakOrder(gt)
    requires Sorted(s, gt)
    ensures Sorted(Insert(s, x, gt), gt)
    decreases |s|
  {
    if s != [] {
      var last := s[|s| - 1];
      var s' := s[..|s| - 1];
      if gt(last, x) {
        InsertSorted(s', x, gt);
        var r' := Insert(s', x, gt);
        var r := r' + [last];
        InsertMultiset(s', x, gt);
        forall i | 0 <= i < |r'| ensures !gt(r'[i], last) {
          var e := r'[i];
          assert e in multiset(r');
          if e == x {
            assert !gt(x, last);
          } else {
            assert e in multiset(s');
            var k :| 0 <= k < |s'| && s'[k] == e;
            assert s[k] == e;
          }
        }
      } else {
        var r := s + [x];
        forall i | 0 <= i < |s| ensures !gt(s[i], x) {
          if i < |s| - 1 {
            assert !gt(s[i], last) && !gt(last, x);
          }
        }
      }
    }
  }

  /** The sort orders its output. */
  lemma {:induction false} SortSorted<T(!new)>(s: seq<T>, gt: (T, T) -> bool)
    requires StrictWeakOrder(gt)
    ensures Sorted(Sort(s, gt), gt)
    decreases |s|
  {
    if s != [] {
      SortSorted(s[..|s| - 1], gt);
      InsertSorted(Sort(s[..|s| - 1], gt), s[|s| - 1], gt);
    }
  }

  /** An already sorted sequence is left as it is (the sort is stable). */
  lemma {:induction false} SortOfSorted<T>(s: seq<T>, gt: (T, T) -> bool)
    requires Sorted(s, gt)
    ensures Sort(s, gt) == s
    decreases |s|
  {
    if s != [] {
      var s' := s[..|s| - 1];
      SortOfSorted(s', gt);
      assert s == s' + [s[|s| - 1]];
      if s' != [] {
        assert !gt(s'[|s'| - 1], s[|s| - 1]);
      }
    }
  }

  /** The elements the comparator cannot tell apart from `x`. */
  function Tied<T>(gt: (T, T) -> bool, x: T): (T -> bool) {
    (y: T) => !gt(x, y) && !gt(y, x)
  }

  /**
   * Inserting `v` adds it to a filter at the end, provided `v` never moves
   * past an element the filter keeps when the filter keeps `v`.
   */
  lemma {:induction false} InsertFilter<T>(t: seq<T>, v: T, gt: (T, T) -> bool, q: T -> bool)
    requires q(v) ==> forall e :: e in t && gt(e, v) ==> !q(e)
    ensures Filter(Insert(t, v, gt), q) == Filter(t, q) + (if q(v) then [v] else [])
    decreases |t|
  {
    if t == [] {
      FilterSingleton(v, q);
    } else {
      var init, last := t[..|t| - 1], t[|t| - 1];
      if gt(last, v) {
        InsertFilter(init, v, gt, q);
        FilterAppend(Insert(init, v, gt), [last], q);
        FilterSingleton(last, q);
      } else {
        assert (t + [v])[..|t|] == t;
      }
    }
  }

  /**
   * The sort is stable: the elements tied with any `x` come out in the
   * order they went in.
   */
  lemma {:induction false} SortStable<T(!new)>(s: seq<T>, gt: (T, T) -> bool, x: T)
    requires StrictWeakOrder(gt)
    ensures Filter(Sort(s, gt), Tied(gt, x)) == Filter(s, Tied(gt, x))
    decreases |s|
  {
    if s != [] {
      var init, last := s[..|s| - 1], s[|s| - 1];
      var q := Tied(gt, x);
      SortStable(init, gt, x);
      forall e | e in Sort(init, gt) && gt(e, last) && q(last)
        ensures !q(e)
      {
        assert gt(e, x) || gt(x, last);
      }
      InsertFilter(Sort(init, gt), last, gt, q);
    }
  }

  /** Moving the hole of an insertion one place to the left. */
  lemma ShiftHole<T>(p: seq<T>, j: nat, h: T, rest: seq<T>)
    requires 0 < j <= |p|
    ensures (p[..j] + [h] + p[j..] + rest)[j := p[j - 1]] == p[..j - 1] + [p[j - 1]] + p[j - 1..] + rest
  {
  }

  /** Filling the hole. */
  lemma FillHole<T>(p: seq<T>, j: nat, h: T, x: T, rest: seq<T>)
    requires j <= |p|
    ensures (p[..j] + [h] + p[j..] + rest)[j := x] == p[..j] + [x] + p[j..] + rest
  {
  }

  /**
   * Where the stable insertion puts `x`: behind a prefix `l` whose last
   * element need not follow it, ahead of a suffix `r` whose elements all do.
   */
  lemma {:induction false} InsertAt<T>(l: seq<T>, r: seq<T>, x: T, gt: (T, T) -> bool)
    requires l != [] ==> !gt(l[|l| - 1], x)
    requires forall k :: 0 <= k < |r| ==> gt(r[k], x)
    ensures Insert(l + r, x, gt) == l + [x] + r
    decreases |r|
  {
    if r == [] {
      assert l + r == l;
    } else {
      var r', last := r[..|r| - 1], r[|r| - 1];
      InsertAt(l, r', x, gt);
      assert (l + r)[..|l + r| - 1] == l + r';
      assert (l + r)[|l + r| - 1] == last;
      assert Insert(l + r, x, gt) == l + [x] + r' + [last];
      assert r == r' + [last];
    }
  }

  /** One more element sorted: the prefix of length `i + 1`. */
  lemma SortExtend<T>(orig: seq<T>, i: nat, gt: (T, T) -> bool)
    requires i < |orig|
    ensures Sort(orig[..i + 1], gt) == Insert(Sort(orig[..i], gt), orig[i], gt)
  {
    assert orig[..i + 1][..i] == orig[..i];
  }

  /**
   * One pass of the insertion sort: `a[i]` moves left past every element of
   * `a[..i]` that has to follow it.
   */
  method InsertLast<T>(a: array<T>, i: nat, gt: (T, T) -> bool)
    requires i < a.Length
    modifies a
    ensures a[..] == Insert(old(a[..i]), old(a[i]), gt) + old(a[i + 1..])
  {
    ghost var p := a[..i];
    ghost var rest := a[i + 1..];
    var x := a[i];
    assert a[..] == p[..i] + [x] + p[i..] + rest by {
      assert a[..] == a[..i] + [a[i]] + a[i + 1..];
      assert p[..i] == p && p[i..] == [];
    }
    var j := i;
    while j > 0 && gt(a[j - 1], x)
      invariant 0 <= j <= i
      invariant a[..] == p[..j] + [a[j]] + p[j..] + rest
      invariant forall k :: j <= k < i ==> gt(p[k], x)
    {
      assert a[j - 1] == p[j - 1];
      ghost var before := a[..];
      a[j] := a[j - 1];
      assert a[..] == before[j := p[j - 1]];
      ShiftHole(p, j, before[j], rest);
      j := j - 1;
    }
    InsertAt(p[..j], p[j..], x, gt);
    assert p[..j] + p[j..] == p;
    ghost var before := a[..];
    a[j] := x;
    assert a[..] == before[j := x];
    FillHole(p, j, before[j], x, rest);
  }

  /** The three parts of a sequence built around one element. */
  lemma SliceParts<T>(s: seq<T>, p: seq<T>, x: T, rest: seq<T>)
    requires s == p + [x] + rest
    ensures s[..|p|] == p && s[|p|] == x && s[|p| + 1..] == rest
  {
  }

  /** One pass of the insertion sort turns a sorted prefix of length `i` into one of length `i + 1`. */
  lemma SortStep<T>(orig: seq<T>, i: nat, gt: (T, T) -> bool, before: seq<T>, after: seq<T>)
    requires i < |orig|
    requires before == Sort(orig[..i], gt) + orig[i..]
    requires after == Insert(before[..i], before[i], gt) + before[i + 1..]
    ensures after == Sort(orig[..i + 1], gt) + orig[i + 1..]
  {
    var p := Sort(orig[..i], gt);
    assert orig[i..] == [orig[i]] + orig[i + 1..];
    SliceParts(before, p, orig[i], orig[i + 1..]);
    SortExtend(orig, i, gt);
  }

  /**
   * `a.sort(cmp)` in place, as an insertion sort: the array ends up holding
   * the stable sort of what it held.
   */
  method SortInPlace<T>(a: array<T>, gt: (T, T) -> bool)
    modifies a
    ensures a[..] == Sort(old(a[..]), gt)
  {
    ghost var orig := a[..];
    var i := 0;
    assert orig[..0] == [];
    while i < a.Length
      invariant 0 <= i <= a.Length
      invariant a[..] == Sort(orig[..i], gt) + orig[i..]
    {
      ghost var before := a[..];
      InsertLast(a, i, gt);
      SortStep(orig, i, gt, before, a[..]);
      i := i + 1;
    }
    assert orig[..a.Length] == orig;
  }
}

/**
 * A stable insertion sort driven by a "greater than" comparator, the shape of
 * the comparator the store hands to `Array.prototype.sort`: `gt(a, b)` says
 * that `a` belongs after `b`.
 */
module Sorting {

  /** Insert `x` just before the first element that belongs after it. */
  function Insert<T>(s: seq<T>, x: T, gt: (T, T) -> bool): (r: seq<T>)
    ensures multiset(r) == multiset(s) + multiset{x}
  {
    if s == [] then [x]
    else if gt(s[0], x) then [x] + s
    else
      assert s == [s[0]] + s[1..];
      [s[0]] + Insert(s[1..], x, gt)
  }

  /** Insert the elements one by one, in their original order. */
  function Sort<T>(s: seq<T>, gt: (T, T) -> bool): (r: seq<T>)
    ensures multiset(r) == multiset(s)
  {
    if s == [] then []
    else
      assert s == s[..|s| - 1] + [s[|s| - 1]];
      Insert(Sort(s[..|s| - 1], gt), s[|s| - 1], gt)
  }

  /** No element is followed by one it belongs after. */
  ghost predicate Sorted<T>(s: seq<T>, gt: (T, T) -> bool) {
    forall i, j | 0 <= i < j < |s| :: !gt(s[i], s[j])
  }

  ghost predicate AllIn<T>(s: seq<T>, d: set<T>) {
    forall i | 0 <= i < |s| :: s[i] in d
  }

  /** `gt` is a strict partial order on `d`. */
  ghost predicate StrictOrder<T>(gt: (T, T) -> bool, d: set<T>) {
    && (forall a | a in d :: !gt(a, a))
    && (forall a, b, c | a in d && b in d && c in d :: gt(a, b) && gt(b, c) ==> gt(a, c))
  }

  /** `gt` is a strict weak order on `d`: "not after" is transitive as well. */
  ghost predicate WeakOrder<T>(gt: (T, T) -> bool, d: set<T>) {
    && StrictOrder(gt, d)
    && (forall a, b, c | a in d && b in d && c in d :: !gt(a, b) && !gt(b, c) ==> !gt(a, c))
  }

  /** Neither element belongs after the other: a tie. */
  ghost predicate Tie<T>(gt: (T, T) -> bool, a: T, b: T) {
    !gt(a, b) && !gt(b, a)
  }

  lemma AllInPermutation<T>(a: seq<T>, b: seq<T>, d: set<T>)
    requires multiset(a) == multiset(b) && AllIn(b, d)
    ensures AllIn(a, d)
  {
    forall i | 0 <= i < |a| ensures a[i] in d {
      assert a[i] in multiset(b);
      var j :| 0 <= j < |b| && b[j] == a[i];
    }
  }

  lemma {:induction false} InsertSorted<T>(s: seq<T>, x: T, gt: (T, T) -> bool, d: set<T>)
    requires StrictOrder(gt, d) && AllIn(s, d) && x in d && Sorted(s, gt)
    ensures Sorted(Insert(s, x, gt), gt)
  {
    if s == [] {
    } else if gt(s[0], x) {
      var r := [x] + s;
      forall i, j | 0 <= i < j < |r| ensures !gt(r[i], r[j]) {
        if i == 0 && gt(x, s[j - 1]) {
          assert gt(s[0], s[j - 1]);
        }
      }
    } else {
      var t := Insert(s[1..], x, gt);
      InsertSorted(s[1..], x, gt, d);
      forall k | 0 <= k < |t| ensures !gt(s[0], t[k]) {
        assert t[k] in multiset(t);
        if t[k] != x {
          assert t[k] in multiset(s[1..]);
          var m :| 0 <= m < |s[1..]| && s[1..][m] == t[k];
          assert s[m + 1] == t[k];
        }
      }
      var r := [s[0]] + t;
      forall i, j | 0 <= i < j < |r| ensures !gt(r[i], r[j]) {
        if i > 0 { assert r[i] == t[i - 1] && r[j] == t[j - 1]; }
      }
    }
  }

  /** Under a strict order the result is sorted (equal keys included). */
  lemma {:induction false} SortSorted<T>(s: seq<T>, gt: (T, T) -> bool, d: set<T>)
    requires StrictOrder(gt, d) && AllIn(s, d)
    ensures Sorted(Sort(s, gt), gt)
  {
    if s != [] {
      var p := s[..|s| - 1];
      SortSorted(p, gt, d);
      AllInPermutation(Sort(p, gt), p, d);
      InsertSorted(Sort(p, gt), s[|s| - 1], gt, d);
    }
  }

  /** The elements of `s` that `keep` selects, in order. */
  function Filter<T>(s: seq<T>, keep: T -> bool): (r: seq<T>) {
    if s == [] then [] else (if keep(s[0]) then [s[0]] else []) + Filter(s[1..], keep)
  }

  /**
   * `gt` treats the selected elements of `d` alike: whether an element
   * belongs after one of them does not depend on which.
   */
  ghost predicate Uniform<T>(gt: (T, T) -> bool, keep: T -> bool, d: set<T>) {
    forall a, b, c | a in d && b in d && c in d :: keep(b) && keep(c) ==> gt(a, b) == gt(a, c)
  }

  lemma FilterCons<T>(a: T, t: seq<T>, keep: T -> bool)
    ensures Filter([a] + t, keep) == (if keep(a) then [a] else []) + Filter(t, keep)
  {
    assert ([a] + t)[1..] == t;
  }

  lemma {:induction false} FilterSnoc<T>(t: seq<T>, a: T, keep: T -> bool)
    ensures Filter(t + [a], keep) == Filter(t, keep) + (if keep(a) then [a] else [])
  {
    if t == [] {
      assert [] + [a] == [a];
      FilterCons(a, [], keep);
    } else {
      assert t + [a] == [t[0]] + (t[1..] + [a]);
      FilterCons(t[0], t[1..] + [a], keep);
      FilterSnoc(t[1..], a, keep);
      FilterCons(t[0], t[1..], keep);
      assert [t[0]] + t[1..] == t;
    }
  }

  lemma {:induction false} FilterNone<T>(s: seq<T>, keep: T -> bool)
    requires forall k | 0 <= k < |s| :: !keep(s[k])
    ensures Filter(s, keep) == []
  {
    if s != [] { FilterNone(s[1..], keep); }
  }

  /** Behind an element greater than a selected `x`, a sorted sequence selects nothing. */
  lemma NoneSelectedAfterGreater<T>(s: seq<T>, x: T, gt: (T, T) -> bool, keep: T -> bool, d: set<T>)
    requires StrictOrder(gt, d) && Uniform(gt, keep, d) && AllIn(s, d) && x in d && Sorted(s, gt)
    requires s != [] && gt(s[0], x) && keep(x)
    ensures Filter(s, keep) == []
  {
    forall k | 0 <= k < |s| ensures !keep(s[k]) {
      if k == 0 { assert !gt(s[0], s[0]); } else { assert !gt(s[0], s[k]); }
    }
    FilterNone(s, keep);
  }

  lemma {:induction false} InsertFilter<T>(s: seq<T>, x: T, gt: (T, T) -> bool, keep: T -> bool, d: set<T>)
    requires StrictOrder(gt, d) && Uniform(gt, keep, d) && AllIn(s, d) && x in d && Sorted(s, gt)
    ensures Filter(Insert(s, x, gt), keep) == Filter(s, keep) + (if keep(x) then [x] else [])
  {
    if s == [] {
      FilterCons(x, [], keep);
    } else if gt(s[0], x) {
      InsertFilterFront(s, x, gt, keep, d);
    } else {
      var t := Insert(s[1..], x, gt);
      assert Insert(s, x, gt) == [s[0]] + t;
      InsertFilter(s[1..], x, gt, keep, d);
      FilterShift(s[0], t, s[1..], keep, if keep(x) then [x] else []);
      assert [s[0]] + s[1..] == s;
    }
  }

  /** `InsertFilter` where `x` goes in front. */
  lemma InsertFilterFront<T>(s: seq<T>, x: T, gt: (T, T) -> bool, keep: T -> bool, d: set<T>)
    requires StrictOrder(gt, d) && Uniform(gt, keep, d) && AllIn(s, d) && x in d && Sorted(s, gt)
    requires s != [] && gt(s[0], x)
    ensures Filter(Insert(s, x, gt), keep) == Filter(s, keep) + (if keep(x) then [x] else [])
  {
    assert Insert(s, x, gt) == [x] + s;
    FilterCons(x, s, keep);
    if keep(x) {
      NoneSelectedAfterGreater(s, x, gt, keep, d);
      assert Filter([x] + s, keep) == [x] + [];
    } else {
      assert Filter([x] + s, keep) == [] + Filter(s, keep);
    }
  }

  /** Putting the same element in front of two sequences keeps the difference of their selections. */
  lemma FilterShift<T>(a: T, t: seq<T>, u: seq<T>, keep: T -> bool, extra: seq<T>)
    requires Filter(t, keep) == Filter(u, keep) + extra
    ensures Filter([a] + t, keep) == Filter([a] + u, keep) + extra
  {
    var h := if keep(a) then [a] else [];
    calc {
      Filter([a] + t, keep);
      { FilterCons(a, t, keep); }
      h + Filter(t, keep);
      h + (Filter(u, keep) + extra);
      (h + Filter(u, keep)) + extra;
      { FilterCons(a, u, keep); }
      Filter([a] + u, keep) + extra;
    }
  }

  /**
   * Stability under a strict order alone: the elements of a class that the
   * order treats alike keep the relative order they had in the input.
   */
  lemma {:induction false} SortFilter<T>(s: seq<T>, gt: (T, T) -> bool, keep: T -> bool, d: set<T>)
    requires StrictOrder(gt, d) && Uniform(gt, keep, d) && AllIn(s, d)
    ensures Filter(Sort(s, gt), keep) == Filter(s, keep)
  {
    if s != [] {
      var p, x := s[..|s| - 1], s[|s| - 1];
      assert p + [x] == s;
      assert AllIn(p, d) && x in d;
      var q := Sort(p, gt);
      assert Sort(s, gt) == Insert(q, x, gt);
      SortFilter(p, gt, keep, d);
      SortSorted(p, gt, d);
      AllInPermutation(q, p, d);
      InsertFilter(q, x, gt, keep, d);
      FilterSnoc(p, x, keep);
    }
  }

  /** The elements of `s` tied with `v`, in the order they appear in `s`. */
  ghost function Ties<T>(s: seq<T>, gt: (T, T) -> bool, v: T): (r: seq<T>) {
    Filter(s, x => Tie(gt, x, v))
  }

  /** Under a strict weak order, the ties of `v` are treated alike. */
  lemma TiesUniform<T>(gt: (T, T) -> bool, v: T, d: set<T>)
    requires WeakOrder(gt, d) && v in d
    ensures Uniform(gt, x => Tie(gt, x, v), d)
  {
    forall a, b, c | a in d && b in d && c in d && Tie(gt, b, v) && Tie(gt, c, v)
      ensures gt(a, b) == gt(a, c)
    {
      assert Tie(gt, b, c);
    }
  }

  /**
   * Stability: under a strict weak order, the elements tied with any `v`
   * keep the relative order they had in the input.
   */
  lemma SortStable<T>(s: seq<T>, gt: (T, T) -> bool, v: T, d: set<T>)
    requires WeakOrder(gt, d) && AllIn(s, d) && v in d
    ensures Ties(Sort(s, gt), gt, v) == Ties(s, gt, v)
  {
    TiesUniform(gt, v, d);
    SortFilter(s, gt, x => Tie(gt, x, v), d);
  }

  /** Apply `f` to every element. */
  function MapSeq<T, U>(s: seq<T>, f: T -> U): (r: seq<U>)
    ensures |r| == |s| && forall i | 0 <= i < |s| :: r[i] == f(s[i])
  {
    seq(|s|, i requires 0 <= i < |s| => f(s[i]))
  }

  /**
   * Sorting decorated elements by a comparator that only looks at the
   * decoration, then projecting, is sorting the projections.
   */
  lemma {:induction false} InsertProject<T, U>(s: seq<T>, x: T, f: T -> U, gt: (T, T) -> bool, gu: (U, U) -> bool)
    requires forall a, b :: gt(a, b) == gu(f(a), f(b))
    ensures MapSeq(Insert(s, x, gt), f) == Insert(MapSeq(s, f), f(x), gu)
  {
    var fs := MapSeq(s, f);
    if s == [] {
      assert MapSeq([x], f) == [f(x)];
    } else {
      assert fs[0] == f(s[0]) && fs != [];
      assert gt(s[0], x) == gu(fs[0], f(x));
      if gt(s[0], x) {
        assert MapSeq([x] + s, f) == [f(x)] + fs;
      } else {
        var t := Insert(s[1..], x, gt);
        InsertProject(s[1..], x, f, gt, gu);
        assert fs[1..] == MapSeq(s[1..], f);
        assert MapSeq([s[0]] + t, f) == [f(s[0])] + MapSeq(t, f);
      }
    }
  }

  lemma {:induction false} SortProject<T, U>(s: seq<T>, f: T -> U, gt: (T, T) -> bool, gu: (U, U) -> bool)
    requires forall a, b :: gt(a, b) == gu(f(a), f(b))
    ensures MapSeq(Sort(s, gt), f) == Sort(MapSeq(s, f), gu)
  {
    if s != [] {
      var p := s[..|s| - 1];
      SortProject(p, f, gt, gu);
      InsertProject(Sort(p, gt), s[|s| - 1], f, gt, gu);
      assert MapSeq(s, f)[..|s| - 1] == MapSeq(p, f);
    }
  }
}

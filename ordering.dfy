/**
 * Orders and sorted sequences shared by the encoders and the feature selector.
 *
 * `SortedDistinct` is the sorted list of distinct values that numpy's `unique`
 * returns; scikit-learn's LabelEncoder and OneHotEncoder (with automatic
 * categories) both take their classes from it, and `argsort` over distinct
 * ranks is the same sort applied to feature indices.  `StrLess` is Python's
 * comparison of `str` values, which is what orders those classes.
 */
module Ordering {

  /** `less` is a strict total order on the values that occur in `dom`. */
  ghost predicate StrictOrderOn<T>(less: (T, T) -> bool, dom: seq<T>) {
    && (forall a, b :: a in dom && b in dom && less(a, b) ==> !less(b, a))
    && (forall a, b, c :: a in dom && b in dom && c in dom && less(a, b) && less(b, c) ==> less(a, c))
    && (forall a, b :: a in dom && b in dom && a != b ==> less(a, b) || less(b, a))
  }

  /** Every element of `s` is below every later element, so `s` has no repeats. */
  ghost predicate StrictlySorted<T>(s: seq<T>, less: (T, T) -> bool) {
    forall i, j :: 0 <= i < j < |s| ==> less(s[i], s[j])
  }

  /** The first position of `x` in `s`. */
  function IndexOf<T(==)>(s: seq<T>, x: T): (i: nat)
    requires x in s
    ensures i < |s| && s[i] == x
    ensures x !in s[..i]
  {
    if s[0] == x then 0
    else
      assert s == [s[0]] + s[1..];
      var k := IndexOf(s[1..], x);
      assert s[..k + 1] == [s[0]] + s[1..][..k];
      k + 1
  }

  /** Adds `x` to a sorted sequence of distinct values at its place; a value already present is not added again. */
  function Insert<T(==)>(x: T, s: seq<T>, less: (T, T) -> bool): seq<T>
  {
    if s == [] then [x]
    else if x == s[0] then s
    else if less(x, s[0]) then [x] + s
    else [s[0]] + Insert(x, s[1..], less)
  }

  /** The distinct values of `xs` in ascending order (numpy's `unique`). */
  function SortedDistinct<T(==)>(xs: seq<T>, less: (T, T) -> bool): seq<T>
  {
    if xs == [] then []
    else Insert(xs[|xs| - 1], SortedDistinct(xs[..|xs| - 1], less), less)
  }

  lemma {:induction false} InsertCorrect<T>(x: T, s: seq<T>, less: (T, T) -> bool, dom: seq<T>)
    requires StrictOrderOn(less, dom)
    requires x in dom && forall y :: y in s ==> y in dom
    requires StrictlySorted(s, less)
    ensures StrictlySorted(Insert(x, s, less), less)
    ensures x in Insert(x, s, less)
    ensures forall y :: y in s ==> y in Insert(x, s, less)
    ensures forall y :: y in Insert(x, s, less) ==> y == x || y in s
  {
    if s == [] || x == s[0] {
    } else if less(x, s[0]) {
      var r := [x] + s;
      forall i, j | 0 <= i < j < |r| ensures less(r[i], r[j]) {
        if i == 0 && j > 1 {
          assert less(s[0], s[j - 1]);
        }
      }
    } else {
      assert s == [s[0]] + s[1..];
      var t := s[1..];
      InsertCorrect(x, t, less, dom);
      var u := Insert(x, t, less);
      var r := [s[0]] + u;
      assert s[0] in s;
      assert less(s[0], x);
      forall i, j | 0 <= i < j < |r| ensures less(r[i], r[j]) {
        if i == 0 {
          var y := u[j - 1];
          assert y in u;
          assert y == x || y in t;
          if y in t {
            var k := IndexOf(t, y);
            assert s[k + 1] == y;
            assert less(s[0], s[k + 1]);
          }
          assert less(s[0], y);
        } else {
          assert r[i] == u[i - 1] && r[j] == u[j - 1];
        }
      }
    }
  }

  /** `SortedDistinct` is ascending without repeats and holds exactly the values of its input. */
  lemma {:induction false} SortedDistinctCorrect<T>(xs: seq<T>, less: (T, T) -> bool, dom: seq<T>)
    requires StrictOrderOn(less, dom)
    requires forall y :: y in xs ==> y in dom
    ensures StrictlySorted(SortedDistinct(xs, less), less)
    ensures forall y :: y in xs ==> y in SortedDistinct(xs, less)
    ensures forall y :: y in SortedDistinct(xs, less) ==> y in xs
  {
    if xs != [] {
      var n := |xs| - 1;
      var p := xs[..n];
      forall y | y in p ensures y in xs {
        var k := IndexOf(p, y);
        assert xs[k] == y;
      }
      SortedDistinctCorrect(p, less, dom);
      assert xs[n] in xs;
      forall y | y in SortedDistinct(p, less) ensures y in dom {
        assert y in p;
      }
      InsertCorrect(xs[n], SortedDistinct(p, less), less, dom);
    }
  }

  /** A value not yet present makes the sequence one longer. */
  lemma {:induction false} InsertLength<T>(x: T, s: seq<T>, less: (T, T) -> bool)
    requires x !in s
    ensures |Insert(x, s, less)| == |s| + 1
  {
    if s != [] && !less(x, s[0]) {
      assert s == [s[0]] + s[1..];
      InsertLength(x, s[1..], less);
    }
  }

  /** Sorting values that are already distinct loses none of them. */
  lemma {:induction false} SortedDistinctLength<T>(xs: seq<T>, less: (T, T) -> bool, dom: seq<T>)
    requires StrictOrderOn(less, dom)
    requires forall y :: y in xs ==> y in dom
    requires forall i, j :: 0 <= i < j < |xs| ==> xs[i] != xs[j]
    ensures |SortedDistinct(xs, less)| == |xs|
  {
    if xs != [] {
      var n := |xs| - 1;
      var p := xs[..n];
      forall y | y in p ensures y in xs {
        var k := IndexOf(p, y);
        assert xs[k] == y;
      }
      SortedDistinctCorrect(p, less, dom);
      SortedDistinctLength(p, less, dom);
      assert xs[n] !in p;
      InsertLength(xs[n], SortedDistinct(p, less), less);
    }
  }

  /** Two sequences sorted ascending without repeats that hold the same values are equal:
      the sorted class list does not depend on how it was computed. */
  lemma {:induction false} SortedUnique<T>(s: seq<T>, t: seq<T>, less: (T, T) -> bool)
    requires forall a, b :: less(a, b) ==> !less(b, a)
    requires StrictlySorted(s, less) && StrictlySorted(t, less)
    requires forall y :: y in s ==> y in t
    requires forall y :: y in t ==> y in s
    ensures s == t
  {
    assert s != [] ==> s[0] in t;
    assert t != [] ==> t[0] in s;
    if s != [] && t != [] {
      var s0, t0 := s[0], t[0];
      var i := IndexOf(s, t0);
      var j := IndexOf(t, s0);
      assert i > 0 ==> less(s0, t0);
      assert j > 0 ==> less(t0, s0);
      assert s0 == t0;
      assert s == [s[0]] + s[1..] && t == [t[0]] + t[1..];
      forall y ensures y in s[1..] <==> y in t[1..] {
        if y in s[1..] {
          var k := IndexOf(s[1..], y);
          assert less(s[0], s[k + 1]);
          var m := IndexOf(t, y);
          assert m != 0;
          assert t[1..][m - 1] == y;
        }
        if y in t[1..] {
          var k := IndexOf(t[1..], y);
          assert less(t[0], t[k + 1]);
          var m := IndexOf(s, y);
          assert m != 0;
          assert s[1..][m - 1] == y;
        }
      }
      SortedUnique(s[1..], t[1..], less);
    }
  }

  /** In a sorted sequence without repeats, positions compare as their values do. */
  lemma PositionsFollowOrder<T>(s: seq<T>, less: (T, T) -> bool, i: nat, j: nat)
    requires forall a, b :: less(a, b) ==> !less(b, a)
    requires StrictlySorted(s, less)
    requires i < |s| && j < |s|
    ensures i < j <==> less(s[i], s[j])
  {
  }

  // Python's comparison of strings: lexicographic by code point, a proper prefix first.

  predicate StrLess(a: string, b: string)
  {
    if a == [] then b != []
    else if b == [] then false
    else if a[0] != b[0] then a[0] < b[0]
    else StrLess(a[1..], b[1..])
  }

  lemma {:induction false} StrLessAsymmetric(a: string, b: string)
    ensures StrLess(a, b) ==> !StrLess(b, a)
  {
    if a != [] && b != [] && a[0] == b[0] {
      StrLessAsymmetric(a[1..], b[1..]);
    }
  }

  lemma {:induction false} StrLessTransitive(a: string, b: string, c: string)
    ensures StrLess(a, b) && StrLess(b, c) ==> StrLess(a, c)
  {
    if a != [] && b != [] && c != [] && a[0] == b[0] && b[0] == c[0] {
      StrLessTransitive(a[1..], b[1..], c[1..]);
    }
  }

  lemma {:induction false} StrLessTotal(a: string, b: string)
    ensures a == b || StrLess(a, b) || StrLess(b, a)
  {
    if a != [] && b != [] && a[0] == b[0] {
      StrLessTotal(a[1..], b[1..]);
      if a[1..] == b[1..] {
        assert a == [a[0]] + a[1..] && b == [b[0]] + b[1..];
      }
    }
  }

  /** Python's string order is a strict total order on any collection of strings. */
  lemma StrLessIsStrictOrder(dom: seq<string>)
    ensures StrictOrderOn(StrLess, dom)
    ensures forall a, b :: StrLess(a, b) ==> !StrLess(b, a)
  {
    forall a, b ensures StrLess(a, b) ==> !StrLess(b, a) {
      StrLessAsymmetric(a, b);
    }
    forall a, b, c ensures StrLess(a, b) && StrLess(b, c) ==> StrLess(a, c) {
      StrLessTransitive(a, b, c);
    }
    forall a, b ensures a == b || StrLess(a, b) || StrLess(b, a) {
      StrLessTotal(a, b);
    }
  }

  /** A common prefix does not change how two strings compare. */
  lemma {:induction false} StrLessCommonPrefix(p: string, a: string, b: string)
    ensures StrLess(p + a, p + b) == StrLess(a, b)
  {
    if p != [] {
      var pa, pb := p + a, p + b;
      assert pa != [] && pb != [] && pa[0] == pb[0];
      assert pa[1..] == p[1..] + a && pb[1..] == p[1..] + b;
      assert StrLess(pa, pb) == StrLess(pa[1..], pb[1..]);
      StrLessCommonPrefix(p[1..], a, b);
    } else {
      assert p + a == a && p + b == b;
    }
  }
}

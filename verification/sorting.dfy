/** Python's `sorted(xs, key=...)`: a stable sort. It is modelled as insertion sort over a
    strict weak order `less` ("key(a) < key(b)"), with the three facts callers rely on:
    the result is a permutation, it is ordered, and elements with equal keys keep their
    input order. Also the code-point order Python uses to compare strings. */
module Sorting {

  /** `less` is a strict weak order: asymmetric, and "not less" is transitive. */
  ghost predicate StrictWeakOrder<T(!new)>(less: (T, T) -> bool) {
    && (forall a, b :: less(a, b) ==> !less(b, a))
    && (forall a, b, c :: !less(a, b) && !less(b, c) ==> !less(a, c))
  }

  /** Every later element is at least every earlier one. */
  predicate SortedBy<T>(s: seq<T>, less: (T, T) -> bool) {
    forall i, j :: 0 <= i < j < |s| ==> !less(s[j], s[i])
  }

  /** Inserts `x` in front of the first element that is not less than it. */
  function Insert<T>(x: T, s: seq<T>, less: (T, T) -> bool): (r: seq<T>)
    ensures |r| == |s| + 1
    ensures multiset(r) == multiset(s) + multiset{x}
  {
    if s == [] || !less(s[0], x) then [x] + s
    else
      assert s == [s[0]] + s[1..];
      [s[0]] + Insert(x, s[1..], less)
  }

  function Sort<T>(s: seq<T>, less: (T, T) -> bool): (r: seq<T>)
    ensures |r| == |s|
    ensures multiset(r) == multiset(s)
  {
    if s == [] then []
    else
      assert s == [s[0]] + s[1..];
      Insert(s[0], Sort(s[1..], less), less)
  }

  lemma InsertSorted<T(!new)>(x: T, s: seq<T>, less: (T, T) -> bool)
    requires StrictWeakOrder(less) && SortedBy(s, less)
    ensures SortedBy(Insert(x, s, less), less)
  {
    if s != [] && less(s[0], x) {
      InsertSorted(x, s[1..], less);
      var r := Insert(x, s[1..], less);
      forall k | 0 <= k < |r|
        ensures !less(r[k], s[0])
      {
        assert r[k] in multiset(r);
        if r[k] != x {
          assert r[k] in multiset(s[1..]);
          assert r[k] in s[1..];
        }
      }
    }
  }

  /** The sorted result is ordered. */
  lemma {:induction false} SortSorted<T(!new)>(s: seq<T>, less: (T, T) -> bool)
    requires StrictWeakOrder(less)
    ensures SortedBy(Sort(s, less), less)
  {
    if s != [] {
      SortSorted(s[1..], less);
      InsertSorted(s[0], Sort(s[1..], less), less);
    }
  }

  /** The elements of `s` whose key equals the key of `x`, in order. */
  function Equivalents<T>(s: seq<T>, x: T, less: (T, T) -> bool): (r: seq<T>)
    ensures |r| <= |s|
  {
    if s == [] then []
    else (if !less(x, s[0]) && !less(s[0], x) then [s[0]] else []) + Equivalents(s[1..], x, less)
  }

  lemma EquivalentsCons<T>(y: T, s: seq<T>, x: T, less: (T, T) -> bool)
    ensures Equivalents([y] + s, x, less) ==
            (if !less(x, y) && !less(y, x) then [y] else []) + Equivalents(s, x, less)
  {
    assert ([y] + s)[1..] == s;
  }

  /** Two elements with the key of `x` are not less than one another. */
  lemma SameKeyNotLess<T(!new)>(y: T, h: T, x: T, less: (T, T) -> bool)
    requires StrictWeakOrder(less)
    requires !less(x, y) && !less(y, x) && !less(x, h) && !less(h, x)
    ensures !less(y, h)
  {
    assert !less(y, x) && !less(x, h);
  }

  lemma SwapFronts<T>(a: seq<T>, b: seq<T>, t: seq<T>)
    requires a + b == b + a
    ensures a + (b + t) == b + (a + t)
  {
    assert a + (b + t) == (a + b) + t;
    assert b + (a + t) == (b + a) + t;
  }

  lemma {:induction false} InsertStable<T(!new)>(h: T, s: seq<T>, x: T, less: (T, T) -> bool)
    requires StrictWeakOrder(less)
    ensures Equivalents(Insert(h, s, less), x, less) == Equivalents([h] + s, x, less)
  {
    if s != [] && less(s[0], h) {
      var y, rest := s[0], s[1..];
      var ey := if !less(x, y) && !less(y, x) then [y] else [];
      var eh := if !less(x, h) && !less(h, x) then [h] else [];
      if ey != [] && eh != [] {
        SameKeyNotLess(y, h, x, less);
      }
      assert ey + eh == eh + ey;
      InsertStable(h, rest, x, less);
      calc {
        Equivalents(Insert(h, s, less), x, less);
        { assert Insert(h, s, less) == [y] + Insert(h, rest, less); }
        Equivalents([y] + Insert(h, rest, less), x, less);
        { EquivalentsCons(y, Insert(h, rest, less), x, less); }
        ey + Equivalents([h] + rest, x, less);
        { EquivalentsCons(h, rest, x, less); }
        ey + (eh + Equivalents(rest, x, less));
        { SwapFronts(ey, eh, Equivalents(rest, x, less)); }
        eh + (ey + Equivalents(rest, x, less));
        { EquivalentsCons(y, rest, x, less); assert s == [y] + rest; }
        eh + Equivalents(s, x, less);
        { EquivalentsCons(h, s, x, less); }
        Equivalents([h] + s, x, less);
      }
    }
  }

  /** Stability: for every key, the elements with that key come out in input order. */
  lemma {:induction false} SortStable<T(!new)>(s: seq<T>, x: T, less: (T, T) -> bool)
    requires StrictWeakOrder(less)
    ensures Equivalents(Sort(s, less), x, less) == Equivalents(s, x, less)
  {
    if s != [] {
      SortStable(s[1..], x, less);
      InsertStable(s[0], Sort(s[1..], less), x, less);
      EquivalentsCons(s[0], Sort(s[1..], less), x, less);
      EquivalentsCons(s[0], s[1..], x, less);
      assert s == [s[0]] + s[1..];
    }
  }

  /** Python's `<` on `str`: lexicographic by code point, a proper prefix first. */
  predicate StrLt(a: string, b: string) {
    if a == [] then b != []
    else if b == [] then false
    else if a[0] < b[0] then true
    else if a[0] == b[0] then StrLt(a[1..], b[1..])
    else false
  }

  lemma {:induction false} StrLtAsymmetric(a: string, b: string)
    ensures StrLt(a, b) ==> !StrLt(b, a)
  {
    if a != [] && b != [] && a[0] == b[0] {
      StrLtAsymmetric(a[1..], b[1..]);
    }
  }

  lemma {:induction false} StrLtTotal(a: string, b: string)
    ensures a == b || StrLt(a, b) || StrLt(b, a)
  {
    if a != [] && b != [] && a[0] == b[0] {
      StrLtTotal(a[1..], b[1..]);
      if a[1..] == b[1..] {
        assert a == [a[0]] + a[1..] && b == [b[0]] + b[1..];
      }
    }
  }

  lemma {:induction false} StrLtTransitive(a: string, b: string, c: string)
    requires StrLt(a, b) && StrLt(b, c)
    ensures StrLt(a, c)
  {
    if a != [] && a[0] == b[0] && b[0] == c[0] {
      StrLtTransitive(a[1..], b[1..], c[1..]);
    }
  }

  /** "Not less" on strings is transitive. */
  lemma StrLeTransitive(a: string, b: string, c: string)
    requires !StrLt(a, b) && !StrLt(b, c)
    ensures !StrLt(a, c)
  {
    StrLtTotal(a, b);
    StrLtTotal(b, c);
    if StrLt(a, c) {
      if a == b {
        StrLtAsymmetric(b, c);
      } else if b == c {
        StrLtAsymmetric(a, b);
      } else {
        StrLtTransitive(c, b, a);
        StrLtAsymmetric(a, c);
      }
    }
  }
}

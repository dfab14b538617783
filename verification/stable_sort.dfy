/** `Array.prototype.sort` with a comparator, which ECMAScript 2019 requires
    to be stable (section 22.1.3.27). The comparator returns a number; as in
    the standard only its sign matters, and `a` may stay before `b` exactly
    when `cmp(a, b) <= 0`. The stable result is computed here by insertion. */
module StableSort {

  /** `a` may precede `b`. */
  predicate Leq<T>(cmp: (T, T) -> real, a: T, b: T) {
    cmp(a, b) <= 0.0
  }

  /** Neither of `a` and `b` must precede the other: they tie. */
  predicate Tie<T>(cmp: (T, T) -> real, a: T, b: T) {
    Leq(cmp, a, b) && Leq(cmp, b, a)
  }

  /** A consistent comparator in the standard's sense: `Leq` is total and
      transitive. When it is not, the standard leaves the order
      implementation-defined. */
  ghost predicate Consistent<T(!new)>(cmp: (T, T) -> real) {
    && (forall a, b :: Leq(cmp, a, b) || Leq(cmp, b, a))
    && (forall a, b, c :: Leq(cmp, a, b) && Leq(cmp, b, c) ==> Leq(cmp, a, c))
  }

  /** Every element may precede every later one. */
  ghost predicate Sorted<T>(cmp: (T, T) -> real, s: seq<T>) {
    forall i, j :: 0 <= i < j < |s| ==> Leq(cmp, s[i], s[j])
  }

  /** The elements of `s` that tie with `k`, in the order of `s`. */
  function TiesOf<T>(cmp: (T, T) -> real, s: seq<T>, k: T): seq<T>
  {
    if s == [] then []
    else TiesOf(cmp, s[..|s| - 1], k) + (if Tie(cmp, s[|s| - 1], k) then [s[|s| - 1]] else [])
  }

  /** Places `x` after the last element of `r` that may precede it. */
  function Insert<T>(cmp: (T, T) -> real, x: T, r: seq<T>): (o: seq<T>)
    ensures multiset(o) == multiset(r) + multiset{x}
  {
    if r == [] then [x]
    else if Leq(cmp, r[|r| - 1], x) then r + [x]
    else
      assert r == r[..|r| - 1] + [r[|r| - 1]];
      Insert(cmp, x, r[..|r| - 1]) + [r[|r| - 1]]
  }

  /** The stable sort of `s` under `cmp`. */
  function Sort<T>(cmp: (T, T) -> real, s: seq<T>): (r: seq<T>)
    ensures multiset(r) == multiset(s)
    ensures |r| == |s|
  {
    if s == [] then []
    else
      assert s == s[..|s| - 1] + [s[|s| - 1]];
      var r := Insert(cmp, s[|s| - 1], Sort(cmp, s[..|s| - 1]));
      assert |r| == |multiset(r)|;
      r
  }

  lemma {:induction false} InsertSorted<T(!new)>(cmp: (T, T) -> real, x: T, r: seq<T>)
    requires Consistent(cmp)
    requires Sorted(cmp, r)
    ensures Sorted(cmp, Insert(cmp, x, r))
  {
    if r != [] {
      var last := r[|r| - 1];
      if Leq(cmp, last, x) {
        forall i | 0 <= i < |r|
          ensures Leq(cmp, r[i], x)
        {
          if i < |r| - 1 {
            assert Leq(cmp, r[i], last);
          }
        }
      } else {
        var init := r[..|r| - 1];
        InsertSorted(cmp, x, init);
        var o := Insert(cmp, x, init);
        assert Leq(cmp, x, last);
        forall y | y in o
          ensures Leq(cmp, y, last)
        {
          assert y in multiset(o);
          if y != x {
            assert y in init;
            var i :| 0 <= i < |init| && init[i] == y;
            assert r[i] == y;
          }
        }
        assert forall i :: 0 <= i < |o| ==> o[i] in o;
      }
    }
  }

  /** Inserting `x` into a sorted sequence keeps the ties of every key in
      order, with `x` after the ties that were already there. */
  lemma {:induction false} InsertTies<T(!new)>(cmp: (T, T) -> real, x: T, r: seq<T>, k: T)
    requires Consistent(cmp)
    requires Sorted(cmp, r)
    ensures TiesOf(cmp, Insert(cmp, x, r), k)
         == TiesOf(cmp, r, k) + (if Tie(cmp, x, k) then [x] else [])
  {
    if r != [] {
      var last := r[|r| - 1];
      var init := r[..|r| - 1];
      assert r == init + [last];
      if Leq(cmp, last, x) {
        assert Insert(cmp, x, r) == r + [x];
        TiesAppend(cmp, r, x, k);
      } else {
        assert Sorted(cmp, init);
        InsertTies(cmp, x, init, k);
        var o := Insert(cmp, x, init);
        assert Insert(cmp, x, r) == o + [last];
        TiesAppend(cmp, o, last, k);
        TiesAppend(cmp, init, last, k);
        NotBothTie(cmp, x, last, k);
        SwapTails(TiesOf(cmp, init, k), if Tie(cmp, x, k) then [x] else [], if Tie(cmp, last, k) then [last] else []);
      }
    }
  }

  /** Appending one element extends the ties by that element when it ties. */
  lemma TiesAppend<T>(cmp: (T, T) -> real, s: seq<T>, y: T, k: T)
    ensures TiesOf(cmp, s + [y], k) == TiesOf(cmp, s, k) + (if Tie(cmp, y, k) then [y] else [])
  {
    var t := s + [y];
    assert t[..|t| - 1] == s && t[|t| - 1] == y;
  }

  lemma SwapTails<T>(base: seq<T>, a: seq<T>, b: seq<T>)
    requires a == [] || b == []
    ensures base + a + b == base + b + a
  {
    if a == [] {
      assert base + a == base;
    } else {
      assert base + b == base;
    }
  }

  /** Two elements that do not tie cannot both tie with the same key. */
  lemma NotBothTie<T(!new)>(cmp: (T, T) -> real, x: T, y: T, k: T)
    requires Consistent(cmp)
    requires !Leq(cmp, y, x)
    ensures !(Tie(cmp, x, k) && Tie(cmp, y, k))
  {
  }

  lemma {:induction false} SortSorted<T(!new)>(cmp: (T, T) -> real, s: seq<T>)
    requires Consistent(cmp)
    ensures Sorted(cmp, Sort(cmp, s))
  {
    if s != [] {
      SortSorted(cmp, s[..|s| - 1]);
      InsertSorted(cmp, s[|s| - 1], Sort(cmp, s[..|s| - 1]));
    }
  }

  /** Stability: for every key, the elements tying with it come out in the
      order they went in. */
  lemma {:induction false} SortStable<T(!new)>(cmp: (T, T) -> real, s: seq<T>, k: T)
    requires Consistent(cmp)
    ensures TiesOf(cmp, Sort(cmp, s), k) == TiesOf(cmp, s, k)
  {
    if s != [] {
      var init := s[..|s| - 1];
      SortStable(cmp, init, k);
      SortSorted(cmp, init);
      InsertTies(cmp, s[|s| - 1], Sort(cmp, init), k);
    }
  }

  /** A comparator under which everything ties leaves the order unchanged. */
  lemma {:induction false} SortAllTie<T>(cmp: (T, T) -> real, s: seq<T>)
    requires forall a, b :: Leq(cmp, a, b)
    ensures Sort(cmp, s) == s
  {
    if s != [] {
      var init := s[..|s| - 1];
      var x := s[|s| - 1];
      SortAllTie(cmp, init);
      assert Sort(cmp, s) == Insert(cmp, x, init);
      if init != [] {
        assert Leq(cmp, init[|init| - 1], x);
      }
      assert Insert(cmp, x, init) == init + [x];
      assert s == init + [x];
    }
  }
}

/** Sequence operations behind the JavaScript array idioms the pages use:
    `filter` by value or by index, `includes`, and `Array.from(new Set(...))`. */
module Seqs {

  /** No element occurs twice. */
  predicate NoDup<T(==)>(s: seq<T>) {
    forall i, j :: 0 <= i < j < |s| ==> s[i] != s[j]
  }

  /** `s.filter(y => y !== x)`: every occurrence of `x` dropped, the rest
      kept in order. */
  function RemoveAll<T(==,!new)>(s: seq<T>, x: T): (r: seq<T>)
    ensures |r| <= |s|
    ensures forall y :: y in r <==> y in s && y != x
    ensures x !in s ==> r == s
    ensures multiset(r) == multiset(s)[x := 0]
  {
    if s == [] then []
    else
      var rest := RemoveAll(s[1..], x);
      assert s == [s[0]] + s[1..];
      if s[0] == x then rest else [s[0]] + rest
  }

  /** Removal works part by part, so the kept elements stay in order. */
  lemma {:induction false} RemoveAllConcat<T(!new)>(a: seq<T>, b: seq<T>, x: T)
    ensures RemoveAll(a + b, x) == RemoveAll(a, x) + RemoveAll(b, x)
  {
    if a == [] {
      assert a + b == b;
    } else {
      assert (a + b)[0] == a[0] && (a + b)[1..] == a[1..] + b;
      RemoveAllConcat(a[1..], b, x);
    }
  }

  /** Removing a value keeps a duplicate-free sequence duplicate-free. */
  lemma {:induction false} RemoveAllNoDup<T(!new)>(s: seq<T>, x: T)
    requires NoDup(s)
    ensures NoDup(RemoveAll(s, x))
  {
    if s != [] {
      RemoveAllNoDup(s[1..], x);
      if s[0] != x {
        var rest := RemoveAll(s[1..], x);
        assert s[0] !in rest by {
          assert s[0] !in s[1..] by {
            forall j | 0 <= j < |s[1..]|
              ensures s[1..][j] != s[0]
            {
              assert s[1..][j] == s[j + 1];
            }
          }
        }
        assert RemoveAll(s, x) == [s[0]] + rest;
      }
    }
  }

  /** `s.filter((_, i) => i !== index)`: the element at `index` dropped when
      `index` is a position of `s`; otherwise `s` itself. */
  function RemoveAt<T>(s: seq<T>, index: int): (r: seq<T>)
    ensures 0 <= index < |s| ==> |r| == |s| - 1
    ensures 0 <= index < |s| ==> forall j :: 0 <= j < index ==> r[j] == s[j]
    ensures 0 <= index < |s| ==> forall j :: index <= j < |r| ==> r[j] == s[j + 1]
    ensures !(0 <= index < |s|) ==> r == s
  {
    if 0 <= index < |s| then s[..index] + s[index + 1..] else s
  }

  /** Removing one position removes exactly that element's occurrence. */
  lemma RemoveAtMultiset<T>(s: seq<T>, index: int)
    requires 0 <= index < |s|
    ensures multiset(RemoveAt(s, index)) + multiset{s[index]} == multiset(s)
  {
    assert s == s[..index] + [s[index]] + s[index + 1..];
  }

  /** Dropping a position keeps a duplicate-free sequence duplicate-free. */
  lemma RemoveAtNoDup<T>(s: seq<T>, index: int)
    ensures NoDup(s) ==> NoDup(RemoveAt(s, index))
  {
    var r := RemoveAt(s, index);
    if NoDup(s) && 0 <= index < |s| {
      forall i, j | 0 <= i < j < |r|
        ensures r[i] != r[j]
      {
        var i' := if i < index then i else i + 1;
        var j' := if j < index then j else j + 1;
        assert r[i] == s[i'] && r[j] == s[j'];
      }
    }
  }

  /** `Array.from(new Set(s))`: the distinct elements of `s`, each once, in
      the order of their first occurrence. */
  function Distinct<T(==,!new)>(s: seq<T>): (r: seq<T>)
    ensures NoDup(r)
    ensures forall x :: x in r <==> x in s
    ensures |r| <= |s|
  {
    if s == [] then []
    else
      var init := s[..|s| - 1];
      var r := Distinct(init);
      assert s == init + [s[|s| - 1]];
      if s[|s| - 1] in r then r else r + [s[|s| - 1]]
  }

  /** Position of the first occurrence of `x` in `s`. */
  function FirstIndex<T(==)>(s: seq<T>, x: T): (k: nat)
    requires x in s
    ensures k < |s| && s[k] == x
    ensures forall j :: 0 <= j < k ==> s[j] != x
  {
    if s[0] == x then 0 else 1 + FirstIndex(s[1..], x)
  }

  /** `Distinct` lists the elements in the order in which they first occur. */
  lemma {:induction false} DistinctFirstOccurrenceOrder<T(!new)>(s: seq<T>)
    ensures forall i, j :: 0 <= i < j < |Distinct(s)| ==>
              FirstIndex(s, Distinct(s)[i]) < FirstIndex(s, Distinct(s)[j])
  {
    if s != [] {
      var init := s[..|s| - 1];
      var last := s[|s| - 1];
      DistinctFirstOccurrenceOrder(init);
      var r := Distinct(init);
      assert s == init + [last];
      forall x | x in init
        ensures FirstIndex(s, x) == FirstIndex(init, x)
      {
        FirstIndexPrefix(init, [last], x);
      }
      if last !in r {
        assert last !in init;
        assert FirstIndex(s, last) == |init| by {
          FirstIndexAppend(init, last);
        }
      }
    }
  }

  lemma FirstIndexPrefix<T>(a: seq<T>, b: seq<T>, x: T)
    requires x in a
    ensures FirstIndex(a + b, x) == FirstIndex(a, x)
  {
    if a[0] != x {
      assert (a + b)[1..] == a[1..] + b;
      FirstIndexPrefix(a[1..], b, x);
    }
  }

  lemma FirstIndexAppend<T>(a: seq<T>, x: T)
    requires x !in a
    ensures FirstIndex(a + [x], x) == |a|
  {
    if a != [] {
      assert (a + [x])[1..] == a[1..] + [x];
      FirstIndexAppend(a[1..], x);
    }
  }
}

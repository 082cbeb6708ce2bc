/**
 * Python's `sorted` on strings: the order compares code points from the
 * left, and a proper prefix comes first.
 */
module Sorting {

  /** `a <= b` for Python strings. */
  predicate StrLe(a: string, b: string)
    decreases |a|
  {
    a == [] || (b != [] && (a[0] < b[0] || (a[0] == b[0] && StrLe(a[1..], b[1..]))))
  }

  lemma {:induction false} StrLeTotal(a: string, b: string)
    ensures StrLe(a, b) || StrLe(b, a)
    decreases |a|
  {
    if a != [] && b != [] && a[0] == b[0] {
      StrLeTotal(a[1..], b[1..]);
    }
  }

  lemma {:induction false} StrLeTrans(a: string, b: string, c: string)
    requires StrLe(a, b) && StrLe(b, c)
    ensures StrLe(a, c)
    decreases |a|
  {
    if a != [] && a[0] == b[0] && b[0] == c[0] {
      StrLeTrans(a[1..], b[1..], c[1..]);
    }
  }

  lemma {:induction false} StrLeAntisymmetric(a: string, b: string)
    requires StrLe(a, b) && StrLe(b, a)
    ensures a == b
    decreases |a|
  {
    if a != [] {
      StrLeAntisymmetric(a[1..], b[1..]);
      assert a == [a[0]] + a[1..] && b == [b[0]] + b[1..];
    }
  }

  /** The keys of `xs` never decrease. */
  predicate SortedBy<T>(xs: seq<T>, key: T -> string) {
    forall i, j :: 0 <= i < j < |xs| ==> StrLe(key(xs[i]), key(xs[j]))
  }

  /** Insert `x` before the first element whose key is above its own, so after any equal keys. */
  function Insert<T>(x: T, xs: seq<T>, key: T -> string): (r: seq<T>)
    ensures multiset(r) == multiset(xs) + multiset{x}
    ensures |r| == |xs| + 1
    decreases |xs|
  {
    if xs == [] || (StrLe(key(x), key(xs[0])) && key(x) != key(xs[0])) then [x] + xs
    else
      assert xs == [xs[0]] + xs[1..];
      [xs[0]] + Insert(x, xs[1..], key)
  }

  lemma {:induction false} InsertSorted<T>(x: T, xs: seq<T>, key: T -> string)
    requires SortedBy(xs, key)
    ensures SortedBy(Insert(x, xs, key), key)
    decreases |xs|
  {
    if xs == [] || (StrLe(key(x), key(xs[0])) && key(x) != key(xs[0])) {
      forall j | 0 <= j < |xs| ensures StrLe(key(x), key(xs[j])) {
        if j > 0 {
          StrLeTrans(key(x), key(xs[0]), key(xs[j]));
        }
      }
      SortedCons(x, xs, key);
    } else {
      assert StrLe(key(xs[0]), key(x)) by {
        if key(x) == key(xs[0]) {
          StrLeTotal(key(x), key(x));
        } else {
          StrLeTotal(key(x), key(xs[0]));
        }
      }
      InsertSorted(x, xs[1..], key);
      InsertBounded(x, xs[1..], key, key(xs[0]));
      SortedCons(xs[0], Insert(x, xs[1..], key), key);
    }
  }

  /** A sorted list stays sorted under a head whose key is at most every key in it. */
  lemma SortedCons<T>(h: T, rest: seq<T>, key: T -> string)
    requires SortedBy(rest, key)
    requires forall j :: 0 <= j < |rest| ==> StrLe(key(h), key(rest[j]))
    ensures SortedBy([h] + rest, key)
  {
    var r := [h] + rest;
    forall i, j | 0 <= i < j < |r| ensures StrLe(key(r[i]), key(r[j])) {
      assert r[j] == rest[j - 1];
      if i > 0 {
        assert r[i] == rest[i - 1];
      }
    }
  }

  /** Inserting keeps a lower bound that `x` and every element of the list respect. */
  lemma InsertBounded<T>(x: T, ys: seq<T>, key: T -> string, lo: string)
    requires StrLe(lo, key(x))
    requires forall j :: 0 <= j < |ys| ==> StrLe(lo, key(ys[j]))
    ensures forall j :: 0 <= j < |Insert(x, ys, key)| ==> StrLe(lo, key(Insert(x, ys, key)[j]))
  {
    var r := Insert(x, ys, key);
    forall j | 0 <= j < |r| ensures StrLe(lo, key(r[j])) {
      assert r[j] in multiset(r);
      if r[j] != x {
        assert r[j] in multiset(ys);
        var k :| 0 <= k < |ys| && ys[k] == r[j];
      }
    }
  }

  /** Insertion sort by key; each element goes after the equal keys already placed, as in Python's stable `sorted`. */
  function SortBy<T>(xs: seq<T>, key: T -> string): (r: seq<T>)
    ensures multiset(r) == multiset(xs)
    ensures |r| == |xs|
    decreases |xs|
  {
    if xs == [] then []
    else
      assert xs == xs[..|xs| - 1] + [xs[|xs| - 1]];
      Insert(xs[|xs| - 1], SortBy(xs[..|xs| - 1], key), key)
  }

  /** The sort orders its result and keeps exactly the elements it was given. */
  lemma {:induction false} SortBySorted<T>(xs: seq<T>, key: T -> string)
    ensures SortedBy(SortBy(xs, key), key)
    ensures forall x :: x in SortBy(xs, key) <==> x in xs
    decreases |xs|
  {
    var r := SortBy(xs, key);
    assert forall x :: x in r <==> x in multiset(r);
    assert forall x :: x in xs <==> x in multiset(xs);
    if xs != [] {
      SortBySorted(xs[..|xs| - 1], key);
      InsertSorted(xs[|xs| - 1], SortBy(xs[..|xs| - 1], key), key);
    }
  }

  /** `sorted` on a list of names. */
  function SortStrings(names: seq<string>): (r: seq<string>)
    ensures multiset(r) == multiset(names)
  {
    SortBy(names, s => s)
  }

  /** The sorted names are in order and are the names given. */
  lemma SortStringsSorted(names: seq<string>)
    ensures forall i, j :: 0 <= i < j < |SortStrings(names)| ==> StrLe(SortStrings(names)[i], SortStrings(names)[j])
    ensures forall x :: x in SortStrings(names) <==> x in names
  {
    SortBySorted(names, s => s);
  }
}

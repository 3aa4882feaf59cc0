/**
  Orderings for the tree-backed containers. A Java `Comparator` (or an element type's `compareTo`)
  is a function `(T, T) -> int` read by sign. A tree-backed store is kept as the strictly ascending
  sequence of its elements, which is the order its iterator yields.
*/
module Ordering {
  import opened Lang

  /**
    A comparator consistent with equals: zero exactly on equal elements, sign-antisymmetric and
    transitive. These are the demands `java.util.TreeSet` and `java.util.TreeMap` make of it.
  */
  ghost predicate IsComparator<T(!new)>(cmp: (T, T) -> int) {
    && (forall a, b :: cmp(a, b) == 0 <==> a == b)
    && (forall a, b :: cmp(a, b) < 0 <==> cmp(b, a) > 0)
    && (forall a, b, c {:trigger TransitiveAt(cmp, a, b, c)} :: TransitiveAt(cmp, a, b, c))
  }

  /**
    Transitivity at one triple. `IsComparator` states it under this name so that the solver uses it
    only where a proof asks for it (lemma `Transitive`), rather than chaining it unboundedly.
  */
  ghost predicate TransitiveAt<T>(cmp: (T, T) -> int, a: T, b: T, c: T) {
    cmp(a, b) < 0 && cmp(b, c) < 0 ==> cmp(a, c) < 0
  }

  lemma Transitive<T(!new)>(cmp: (T, T) -> int, a: T, b: T, c: T)
    requires IsComparator(cmp) && cmp(a, b) < 0 && cmp(b, c) < 0
    ensures cmp(a, c) < 0
  {
    assert TransitiveAt(cmp, a, b, c);
  }

  /**
    The ordering a tree container uses: its comparator, or the elements' natural ordering (their
    `compareTo`) when the comparator is null.
  */
  function Active<T>(natural: (T, T) -> int, comparator: Nullable<(T, T) -> int>): (T, T) -> int {
    if comparator.Null? then natural else comparator.value
  }

  /** A `SortedSet` handed to a constructor: its elements in ascending order and its comparator. */
  datatype SortedSource<!T> = SortedSource(elements: seq<T>, comparator: Nullable<(T, T) -> int>)

  /** Strictly ascending under `cmp`: the in-order contents of a tree. */
  ghost predicate Sorted<T>(s: seq<T>, cmp: (T, T) -> int) {
    forall i, j :: 0 <= i < j < |s| ==> cmp(s[i], s[j]) < 0
  }

  /** `TreeMap.put` on the key sequence: a key equal to a stored one leaves the sequence as it is. */
  function Insert<T>(s: seq<T>, x: T, cmp: (T, T) -> int): seq<T> {
    if s == [] then [x]
    else if cmp(x, s[0]) < 0 then [x] + s
    else if cmp(x, s[0]) == 0 then s
    else [s[0]] + Insert(s[1..], x, cmp)
  }

  /** Inserting each element of `xs` in turn: `TreeSet.addAll` and `TreeMap.putAll` of a foreign source. */
  function InsertAll<T>(s: seq<T>, xs: seq<T>, cmp: (T, T) -> int): seq<T>
    decreases |xs|
  {
    if xs == [] then s else InsertAll(Insert(s, xs[0], cmp), xs[1..], cmp)
  }

  /** The elements of `s` that satisfy `keep`, in their order: the contents of a range view. */
  function Filter<T>(s: seq<T>, keep: T -> bool): seq<T> {
    if s == [] then []
    else if keep(s[0]) then [s[0]] + Filter(s[1..], keep)
    else Filter(s[1..], keep)
  }

  /** The sequence backwards: the order of a descending iterator. */
  function Reverse<T>(s: seq<T>): seq<T> {
    if s == [] then [] else Reverse(s[1..]) + [s[0]]
  }

  /** `x` lies above the lower bound `from`, or on it when the bound is inclusive. */
  predicate Above<T>(cmp: (T, T) -> int, x: T, from: T, inclusive: bool) {
    cmp(x, from) > 0 || (inclusive && cmp(x, from) == 0)
  }

  /** `x` lies below the upper bound `to`, or on it when the bound is inclusive. */
  predicate Below<T>(cmp: (T, T) -> int, x: T, to: T, inclusive: bool) {
    cmp(x, to) < 0 || (inclusive && cmp(x, to) == 0)
  }

  lemma SortedTail<T>(s: seq<T>, cmp: (T, T) -> int)
    requires Sorted(s, cmp) && s != []
    ensures Sorted(s[1..], cmp)
  {
    forall i, j | 0 <= i < j < |s[1..]| ensures cmp(s[1..][i], s[1..][j]) < 0 {
      assert s[1..][i] == s[i + 1] && s[1..][j] == s[j + 1];
    }
  }

  /** The head of a sorted sequence lies below every later element. */
  lemma SortedHead<T>(s: seq<T>, cmp: (T, T) -> int, y: T)
    requires Sorted(s, cmp) && s != [] && y in s[1..]
    ensures cmp(s[0], y) < 0
  {
    var k :| 0 <= k < |s[1..]| && s[1..][k] == y;
    assert s[k + 1] == y;
  }

  lemma SortedCons<T>(x: T, s: seq<T>, cmp: (T, T) -> int)
    requires Sorted(s, cmp)
    requires forall y :: y in s ==> cmp(x, y) < 0
    ensures Sorted([x] + s, cmp)
  {
    var r := [x] + s;
    forall i, j | 0 <= i < j < |r| ensures cmp(r[i], r[j]) < 0 {
      if i == 0 {
        assert r[j] == s[j - 1] && r[j] in s;
      } else {
        assert r[i] == s[i - 1] && r[j] == s[j - 1];
      }
    }
  }

  /** Inserting into a tree adds exactly the new element. */
  lemma {:induction false} InsertElems<T(!new)>(s: seq<T>, x: T, cmp: (T, T) -> int)
    requires IsComparator(cmp)
    ensures Elems(Insert(s, x, cmp)) == Elems(s) + {x}
  {
    if s != [] && cmp(x, s[0]) > 0 {
      var tail := s[1..];
      InsertElems(tail, x, cmp);
      assert s == [s[0]] + tail;
      assert Elems(s) == {s[0]} + Elems(tail);
      assert Elems(Insert(s, x, cmp)) == {s[0]} + Elems(Insert(tail, x, cmp));
    }
  }

  /** A new element makes the tree one larger; an element already present leaves its size alone. */
  lemma {:induction false} InsertSize<T(!new)>(s: seq<T>, x: T, cmp: (T, T) -> int)
    requires IsComparator(cmp) && Sorted(s, cmp)
    ensures |Insert(s, x, cmp)| == if x in s then |s| else |s| + 1
  {
    if s == [] {
    } else if cmp(x, s[0]) < 0 {
      forall y | y in s ensures y != x {
        if y != s[0] {
          assert y in s[1..] by { assert s == [s[0]] + s[1..]; }
          SortedHead(s, cmp, y);
          Transitive(cmp, x, s[0], y);
        }
      }
    } else if cmp(x, s[0]) > 0 {
      var tail := s[1..];
      SortedTail(s, cmp);
      InsertSize(tail, x, cmp);
      assert s == [s[0]] + tail;
      assert x in s <==> x in tail;
    }
  }

  /** Inserting into a tree keeps it sorted. */
  lemma {:induction false} InsertSorted<T(!new)>(s: seq<T>, x: T, cmp: (T, T) -> int)
    requires IsComparator(cmp) && Sorted(s, cmp)
    ensures Sorted(Insert(s, x, cmp), cmp)
  {
    if s == [] {
    } else if cmp(x, s[0]) < 0 {
      forall y | y in s ensures cmp(x, y) < 0 {
        if y != s[0] {
          assert y in s[1..] by { assert s == [s[0]] + s[1..]; }
          SortedHead(s, cmp, y);
          Transitive(cmp, x, s[0], y);
        }
      }
      SortedCons(x, s, cmp);
    } else if cmp(x, s[0]) > 0 {
      var tail := s[1..];
      SortedTail(s, cmp);
      InsertSorted(tail, x, cmp);
      InsertElems(tail, x, cmp);
      var t := Insert(tail, x, cmp);
      forall y | y in t ensures cmp(s[0], y) < 0 {
        assert y in Elems(t);
        if y != x {
          SortedHead(s, cmp, y);
        }
      }
      SortedCons(s[0], t, cmp);
    }
  }

  /** A key equal to a stored one leaves the tree as it is. */
  lemma {:induction false} InsertPresent<T(!new)>(s: seq<T>, x: T, cmp: (T, T) -> int)
    requires IsComparator(cmp) && Sorted(s, cmp) && x in s
    ensures Insert(s, x, cmp) == s
  {
    if cmp(x, s[0]) > 0 {
      assert x in s[1..] by { assert s == [s[0]] + s[1..]; }
      SortedTail(s, cmp);
      InsertPresent(s[1..], x, cmp);
      assert s == [s[0]] + s[1..];
    }
  }

  /** Inserting a whole source keeps the tree sorted and holds exactly the old and new elements. */
  lemma {:induction false} InsertAllFacts<T(!new)>(s: seq<T>, xs: seq<T>, cmp: (T, T) -> int)
    requires IsComparator(cmp) && Sorted(s, cmp)
    ensures Sorted(InsertAll(s, xs, cmp), cmp)
    ensures Elems(InsertAll(s, xs, cmp)) == Elems(s) + Elems(xs)
    decreases |xs|
  {
    if xs != [] {
      InsertSorted(s, xs[0], cmp);
      InsertElems(s, xs[0], cmp);
      InsertAllFacts(Insert(s, xs[0], cmp), xs[1..], cmp);
      assert xs == [xs[0]] + xs[1..];
      assert Elems(xs) == {xs[0]} + Elems(xs[1..]);
    }
  }

  /** A range view holds exactly the stored elements that pass the range test, still in order. */
  lemma {:induction false} FilterFacts<T>(s: seq<T>, keep: T -> bool, cmp: (T, T) -> int)
    requires Sorted(s, cmp)
    ensures Sorted(Filter(s, keep), cmp)
    ensures Elems(Filter(s, keep)) == set x | x in s && keep(x)
  {
    if s != [] {
      SortedTail(s, cmp);
      FilterFacts(s[1..], keep, cmp);
      assert s == [s[0]] + s[1..];
      var rest := Filter(s[1..], keep);
      if keep(s[0]) {
        forall y | y in rest ensures cmp(s[0], y) < 0 {
          assert y in Elems(rest);
          SortedHead(s, cmp, y);
        }
        SortedCons(s[0], rest, cmp);
        assert Elems([s[0]] + rest) == {s[0]} + Elems(rest);
      }
    }
  }

  /** A descending iterator passes each element once, last first. */
  lemma {:induction false} ReverseFacts<T>(s: seq<T>)
    ensures |Reverse(s)| == |s|
    ensures forall i :: 0 <= i < |s| ==> Reverse(s)[i] == s[|s| - 1 - i]
  {
    if s != [] {
      ReverseFacts(s[1..]);
      var r := Reverse(s);
      forall i | 0 <= i < |s| ensures r[i] == s[|s| - 1 - i] {
        if i < |s| - 1 {
          assert r[i] == Reverse(s[1..])[i] == s[1..][|s| - 2 - i];
        }
      }
    }
  }

  /** A strictly ascending sequence holds each element once. */
  lemma SortedDistinct<T(!new)>(s: seq<T>, cmp: (T, T) -> int)
    requires IsComparator(cmp) && Sorted(s, cmp)
    ensures Distinct(s)
  {
    forall i, j | 0 <= i < j < |s| ensures s[i] != s[j] {
      assert cmp(s[i], s[j]) < 0;
    }
  }

  lemma ElemsEmpty<T>(s: seq<T>)
    ensures Elems(s) == {} <==> s == []
  {
    if s != [] {
      assert s[0] in Elems(s);
    }
  }

  /** Two trees over the same comparator with the same elements have the same in-order contents. */
  lemma {:induction false} SortedUnique<T(!new)>(a: seq<T>, b: seq<T>, cmp: (T, T) -> int)
    requires IsComparator(cmp) && Sorted(a, cmp) && Sorted(b, cmp) && Elems(a) == Elems(b)
    ensures a == b
  {
    ElemsEmpty(a);
    ElemsEmpty(b);
    if a != [] && b != [] {
      assert a[0] in Elems(b) && b[0] in Elems(a);
      assert a[0] == b[0];
      SortedTail(a, cmp);
      SortedTail(b, cmp);
      forall y ensures y in a[1..] <==> y in b[1..] {
        if y in a[1..] {
          assert y in Elems(a);
          assert y in b;
          assert y != b[0];
          assert y in b[1..] by { assert b == [b[0]] + b[1..]; }
        }
        if y in b[1..] {
          assert y in Elems(b);
          assert y in a;
          assert y != a[0];
          assert y in a[1..] by { assert a == [a[0]] + a[1..]; }
        }
      }
      SortedUnique(a[1..], b[1..], cmp);
      assert a == [a[0]] + a[1..] && b == [b[0]] + b[1..];
    }
  }

  /**
    `String.compareTo`: the difference of the first differing characters, or else the difference
    of the lengths.
  */
  function CompareStrings(a: string, b: string): int {
    if a == [] || b == [] then |a| - |b|
    else if a[0] != b[0] then a[0] as int - b[0] as int
    else CompareStrings(a[1..], b[1..])
  }

  lemma {:induction false} CompareStringsZero(a: string, b: string)
    ensures CompareStrings(a, b) == 0 <==> a == b
  {
    if a != [] && b != [] && a[0] == b[0] {
      CompareStringsZero(a[1..], b[1..]);
      assert a == [a[0]] + a[1..] && b == [b[0]] + b[1..];
    }
  }

  lemma {:induction false} CompareStringsAntisymmetric(a: string, b: string)
    ensures CompareStrings(a, b) == -CompareStrings(b, a)
  {
    if a != [] && b != [] && a[0] == b[0] {
      CompareStringsAntisymmetric(a[1..], b[1..]);
    }
  }

  lemma {:induction false} CompareStringsTransitive(a: string, b: string, c: string)
    requires CompareStrings(a, b) < 0 && CompareStrings(b, c) < 0
    ensures CompareStrings(a, c) < 0
  {
    if a != [] && b != [] && c != [] && a[0] == b[0] && b[0] == c[0] {
      CompareStringsTransitive(a[1..], b[1..], c[1..]);
    }
  }

  /** The natural ordering of `java.lang.String` is a comparator consistent with equals. */
  lemma StringOrderIsComparator()
    ensures IsComparator(CompareStrings)
  {
    forall a, b ensures CompareStrings(a, b) == 0 <==> a == b {
      CompareStringsZero(a, b);
    }
    forall a, b ensures CompareStrings(a, b) < 0 <==> CompareStrings(b, a) > 0 {
      CompareStringsAntisymmetric(a, b);
    }
    forall a, b, c ensures TransitiveAt(CompareStrings, a, b, c) {
      if CompareStrings(a, b) < 0 && CompareStrings(b, c) < 0 {
        CompareStringsTransitive(a, b, c);
      }
    }
  }
}

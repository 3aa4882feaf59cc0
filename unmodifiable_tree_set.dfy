/**
  `SerializableUnmodifiableTreeSet`: a tree set whose overridden mutators all fail with
  `UnsupportedOperationException`. Both copy constructors end in the overridden `addAll`, so they
  fail too, and with them every range and descending view, which are built with the collection
  constructor. The `impl` package's class of the same name is modelled by this one.
*/
module UnmodifiableTreeSet {
  import opened Lang
  import opened Ordering
  import Iterators

  class SerializableUnmodifiableTreeSet<E(==,!new)> {
    /** The natural ordering of the element type (its `compareTo`). */
    const natural: (E, E) -> int
    /** The comparator the backing tree was created with; null stands for natural ordering. */
    var comparator: Nullable<(E, E) -> int>
    /** The backing tree, in ascending order. */
    var elements: seq<E>

    function Order(): (E, E) -> int
      reads this
    {
      Active(natural, comparator)
    }

    ghost predicate Valid()
      reads this
    {
      IsComparator(Order()) && Sorted(elements, Order())
    }

    function Size(): nat
      reads this
    {
      |elements|
    }

    /** The empty constructor: natural ordering, no elements. */
    constructor Empty(natural: (E, E) -> int)
      requires IsComparator(natural)
      ensures Valid() && this.natural == natural && comparator == Null && elements == []
    {
      this.natural := natural;
      comparator := Null;
      elements := [];
    }

    /** The singleton constructor: natural ordering and exactly the one element, put with the inherited `add`. */
    constructor Singleton(natural: (E, E) -> int, pSingleItem: E)
      requires IsComparator(natural)
      ensures Valid() && this.natural == natural && comparator == Null && elements == [pSingleItem]
    {
      this.natural := natural;
      comparator := Null;
      elements := [];
      new;
      elements := Insert(elements, pSingleItem, Order());
    }

    /** The field-by-field copy `clone` makes. */
    constructor Copy(natural: (E, E) -> int, comparator: Nullable<(E, E) -> int>, elements: seq<E>)
      requires IsComparator(Active(natural, comparator)) && Sorted(elements, Active(natural, comparator))
      ensures Valid() && this.natural == natural && this.comparator == comparator && this.elements == elements
    {
      this.natural := natural;
      this.comparator := comparator;
      this.elements := elements;
    }

    /**
      The collection constructor as written: `TreeSet(Collection)` creates an empty tree and calls
      `addAll`, which dispatches to the override below and throws, whatever the source holds.
    */
    static method FromCollection(natural: (E, E) -> int, pCollection: Nullable<seq<E>>)
      returns (r: Result<SerializableUnmodifiableTreeSet<E>>)
      requires IsComparator(natural)
      ensures r == Failure(UnsupportedOperation)
    {
      var s := new SerializableUnmodifiableTreeSet.Empty(natural);
      var added := s.AddAll(if pCollection.Null? then [] else pCollection.value);
      r := Failure(added.error);
    }

    /**
      The sorted-set constructor as written: it takes over the source's comparator and then calls
      the overridden `addAll`, which throws.
    */
    static method FromSortedSet(natural: (E, E) -> int, pSortedSet: SortedSource<E>)
      returns (r: Result<SerializableUnmodifiableTreeSet<E>>)
      requires IsComparator(Active(natural, pSortedSet.comparator))
      ensures r == Failure(UnsupportedOperation)
    {
      var s := new SerializableUnmodifiableTreeSet.Copy(natural, pSortedSet.comparator, []);
      var added := s.AddAll(pSortedSet.elements);
      r := Failure(added.error);
    }

    /**
      The collection constructor as evidently intended: each element put into a naturally ordered
      tree with the inherited `add`, so the set holds exactly the source's elements, ascending.
    */
    static method FromCollectionCorrected(natural: (E, E) -> int, pCollection: seq<E>)
      returns (s: SerializableUnmodifiableTreeSet<E>)
      requires IsComparator(natural)
      ensures fresh(s) && s.Valid() && s.natural == natural && s.comparator == Null
      ensures Elems(s.elements) == Elems(pCollection)
    {
      s := new SerializableUnmodifiableTreeSet.Empty(natural);
      var i := 0;
      while i < |pCollection|
        invariant 0 <= i <= |pCollection|
        invariant s.Valid() && s.natural == natural && s.comparator == Null
        invariant Elems(s.elements) == Elems(pCollection[..i])
      {
        InsertSorted(s.elements, pCollection[i], natural);
        InsertElems(s.elements, pCollection[i], natural);
        assert pCollection[..i + 1] == pCollection[..i] + [pCollection[i]];
        s.elements := Insert(s.elements, pCollection[i], natural);
        i := i + 1;
      }
      assert pCollection[..i] == pCollection;
    }

    /**
      The sorted-set constructor as evidently intended: the source's comparator, and the source's
      elements put one by one with the inherited `add`, which leaves them in the source's order.
    */
    static method FromSortedSetCorrected(natural: (E, E) -> int, pSortedSet: SortedSource<E>)
      returns (s: SerializableUnmodifiableTreeSet<E>)
      requires IsComparator(Active(natural, pSortedSet.comparator))
      requires Sorted(pSortedSet.elements, Active(natural, pSortedSet.comparator))
      ensures fresh(s) && s.Valid() && s.natural == natural
      ensures s.comparator == pSortedSet.comparator && s.elements == pSortedSet.elements
    {
      ghost var cmp := Active(natural, pSortedSet.comparator);
      s := new SerializableUnmodifiableTreeSet.Copy(natural, pSortedSet.comparator, []);
      var i := 0;
      while i < |pSortedSet.elements|
        invariant 0 <= i <= |pSortedSet.elements|
        invariant s.Valid() && s.natural == natural && s.comparator == pSortedSet.comparator
        invariant s.elements == pSortedSet.elements[..i]
      {
        InsertAtEnd(s.elements, pSortedSet.elements, i, cmp);
        s.elements := Insert(s.elements, pSortedSet.elements[i], s.Order());
        i := i + 1;
      }
      assert pSortedSet.elements[..i] == pSortedSet.elements;
    }

    /** `iterator`: the ascending iterator of the tree behind an `UnmodifiableIterator`. */
    method Iterator() returns (it: Iterators.UnmodifiableIterator<E>)
      ensures fresh(it) && fresh(it.iter)
      ensures it.iter.Valid() && it.iter.elems == elements && it.iter.cursor == 0
    {
      var superIter := new Iterators.BackingIterator(elements);
      it := new Iterators.UnmodifiableIterator(superIter);
    }

    /** `descendingIterator`: the descending iterator of the tree behind an `UnmodifiableIterator`. */
    method DescendingIterator() returns (it: Iterators.UnmodifiableIterator<E>)
      ensures fresh(it) && fresh(it.iter)
      ensures it.iter.Valid() && it.iter.elems == Reverse(elements) && it.iter.cursor == 0
    {
      var superIter := new Iterators.BackingIterator(Reverse(elements));
      it := new Iterators.UnmodifiableIterator(superIter);
    }

    method Add(pElement: E) returns (r: Result<bool>)
      ensures r == Failure(UnsupportedOperation)
    {
      r := Failure(UnsupportedOperation);
    }

    method Remove(pElement: E) returns (r: Result<bool>)
      ensures r == Failure(UnsupportedOperation)
    {
      r := Failure(UnsupportedOperation);
    }

    method Clear() returns (o: Outcome)
      ensures o == Fail(UnsupportedOperation)
    {
      o := Fail(UnsupportedOperation);
    }

    method RemoveAll(pCollection: seq<E>) returns (r: Result<bool>)
      ensures r == Failure(UnsupportedOperation)
    {
      r := Failure(UnsupportedOperation);
    }

    method AddAll(pCollection: seq<E>) returns (r: Result<bool>)
      ensures r == Failure(UnsupportedOperation)
    {
      r := Failure(UnsupportedOperation);
    }

    method RetainAll(pCollection: seq<E>) returns (r: Result<bool>)
      ensures r == Failure(UnsupportedOperation)
    {
      r := Failure(UnsupportedOperation);
    }

    /** `clone`: a new set with the same comparator and the same elements. */
    method Clone() returns (c: SerializableUnmodifiableTreeSet<E>)
      requires Valid()
      ensures fresh(c) && c.Valid()
      ensures c.natural == natural && c.comparator == comparator && c.elements == elements
    {
      c := new SerializableUnmodifiableTreeSet.Copy(natural, comparator, elements);
    }

    /** `descendingSet`: the reversed view handed to the collection constructor, which throws. */
    method DescendingSet() returns (r: Result<SerializableUnmodifiableTreeSet<E>>)
      requires IsComparator(natural)
      ensures r == Failure(UnsupportedOperation)
    {
      r := FromCollection(natural, NonNull(Reverse(elements)));
    }

    /**
      `subSet(from, fromInclusive, to, toInclusive)`: the platform refuses bounds in the wrong order
      with `IllegalArgumentException`; any other range view goes to the collection constructor,
      which throws.
    */
    method SubSet(pFromElement: E, pFromInclusive: bool, pToElement: E, pToInclusive: bool)
      returns (r: Result<SerializableUnmodifiableTreeSet<E>>)
      requires IsComparator(natural)
      ensures Order()(pFromElement, pToElement) > 0 ==> r == Failure(IllegalArgument)
      ensures Order()(pFromElement, pToElement) <= 0 ==> r == Failure(UnsupportedOperation)
    {
      var cmp := Order();
      if cmp(pFromElement, pToElement) > 0 {
        r := Failure(IllegalArgument);
      } else {
        var view := Filter(elements, x => Above(cmp, x, pFromElement, pFromInclusive) && Below(cmp, x, pToElement, pToInclusive));
        r := FromCollection(natural, NonNull(view));
      }
    }

    /** `headSet(to, inclusive)`: the head view goes to the collection constructor, which throws. */
    method HeadSet(pToElement: E, pInclusive: bool) returns (r: Result<SerializableUnmodifiableTreeSet<E>>)
      requires IsComparator(natural)
      ensures r == Failure(UnsupportedOperation)
    {
      var cmp := Order();
      r := FromCollection(natural, NonNull(Filter(elements, x => Below(cmp, x, pToElement, pInclusive))));
    }

    /** `tailSet(from, inclusive)`: the tail view goes to the collection constructor, which throws. */
    method TailSet(pFromElement: E, pInclusive: bool) returns (r: Result<SerializableUnmodifiableTreeSet<E>>)
      requires IsComparator(natural)
      ensures r == Failure(UnsupportedOperation)
    {
      var cmp := Order();
      r := FromCollection(natural, NonNull(Filter(elements, x => Above(cmp, x, pFromElement, pInclusive))));
    }

    /** `subSet(from, to)`: the same as `subSet(from, true, to, false)`. */
    method SubSetHalfOpen(pFromElement: E, pToElement: E) returns (r: Result<SerializableUnmodifiableTreeSet<E>>)
      requires IsComparator(natural)
      ensures Order()(pFromElement, pToElement) > 0 ==> r == Failure(IllegalArgument)
      ensures Order()(pFromElement, pToElement) <= 0 ==> r == Failure(UnsupportedOperation)
    {
      r := SubSet(pFromElement, true, pToElement, false);
    }

    /** `headSet(to)`: the same as `headSet(to, false)`. */
    method HeadSetExclusive(pToElement: E) returns (r: Result<SerializableUnmodifiableTreeSet<E>>)
      requires IsComparator(natural)
      ensures r == Failure(UnsupportedOperation)
    {
      r := HeadSet(pToElement, false);
    }

    /** `tailSet(from)`: the same as `tailSet(from, true)`. */
    method TailSetInclusive(pFromElement: E) returns (r: Result<SerializableUnmodifiableTreeSet<E>>)
      requires IsComparator(natural)
      ensures r == Failure(UnsupportedOperation)
    {
      r := TailSet(pFromElement, true);
    }

    /** `comparator`: the tree's comparator; the set is ordered by it, or naturally when it is null. */
    function Comparator(): (c: Nullable<(E, E) -> int>)
      reads this
      ensures c == Null ==> Order() == natural
      ensures c.NonNull? ==> Order() == c.value
    {
      comparator
    }
  }

  /** Putting the next element of a sorted sequence after its prefix lands it at the end. */
  lemma {:induction false} InsertAtEnd<E(!new)>(prefix: seq<E>, s: seq<E>, i: nat, cmp: (E, E) -> int)
    requires IsComparator(cmp) && Sorted(s, cmp) && i < |s| && prefix == s[..i]
    ensures Insert(prefix, s[i], cmp) == s[..i + 1]
    ensures Sorted(s[..i + 1], cmp)
  {
    if prefix != [] {
      assert cmp(s[i], prefix[0]) > 0;
      assert prefix[1..] == s[1..][..i - 1];
      SortedTail(s, cmp);
      InsertAtEnd(prefix[1..], s[1..], i - 1, cmp);
      assert s[..i + 1] == [s[0]] + s[1..][..i];
    }
    var t := s[..i + 1];
    forall a, b | 0 <= a < b < |t| ensures cmp(t[a], t[b]) < 0 {
      assert t[a] == s[a] && t[b] == s[b];
    }
  }
}

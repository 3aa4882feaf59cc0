/**
  `SerializableUnmodifiableHashSet`: a hash set filled once by its constructor, whose overridden
  mutators all fail with `UnsupportedOperationException`. The `impl` package's class of the same
  name is modelled by this one.
*/
module UnmodifiableHashSet {
  import opened Lang
  import Iterators

  class SerializableUnmodifiableHashSet<E(==)> {
    /** The backing hash set, in iteration order. */
    var elements: seq<E>

    ghost predicate Valid()
      reads this
    {
      Distinct(elements)
    }

    function Size(): nat
      reads this
    {
      |elements|
    }

    /** The empty constructor. */
    constructor Empty()
      ensures Valid() && elements == []
    {
      elements := [];
    }

    /** The singleton constructor: exactly the one element, which may be null. */
    constructor Singleton(pSingleItem: E)
      ensures Valid() && elements == [pSingleItem]
    {
      elements := [];
      new;
      elements := AddAbsent(elements, pSingleItem);
    }

    /**
      The collection constructor: the inherited `add` for each element of the source in turn, so the
      set holds each distinct element of the source once, in the order it first occurs.
    */
    constructor (pCollection: seq<E>)
      ensures Valid() && elements == Dedup(pCollection)
      ensures Elems(elements) == Elems(pCollection) && |elements| <= |pCollection|
    {
      elements := [];
      new;
      var i := 0;
      while i < |pCollection|
        invariant 0 <= i <= |pCollection|
        invariant elements == Dedup(pCollection[..i])
      {
        assert pCollection[..i + 1][..i] == pCollection[..i];
        elements := AddAbsent(elements, pCollection[i]);
        i := i + 1;
      }
      assert pCollection[..i] == pCollection;
      DedupFacts(pCollection);
    }

    /** The collection constructor handed a null collection throws `NullPointerException` from its loop. */
    static method FromCollection(pCollection: Nullable<seq<E>>) returns (r: Result<SerializableUnmodifiableHashSet<E>>)
      ensures pCollection == Null <==> r == Failure(NullPointer)
      ensures r.Failure? ==> r.error == NullPointer
      ensures r.Success? ==> fresh(r.value) && r.value.Valid() && r.value.elements == Dedup(pCollection.value)
    {
      if pCollection == Null {
        r := Failure(NullPointer);
      } else {
        var s := new SerializableUnmodifiableHashSet(pCollection.value);
        r := Success(s);
      }
    }

    /** `iterator`: the backing set's iterator behind an `UnmodifiableIterator`. */
    method Iterator() returns (it: Iterators.UnmodifiableIterator<E>)
      ensures fresh(it) && fresh(it.iter)
      ensures it.iter.Valid() && it.iter.elems == elements && it.iter.cursor == 0
    {
      var superIter := new Iterators.BackingIterator(elements);
      it := new Iterators.UnmodifiableIterator(superIter);
    }

    method Add(pElement: E) returns (r: Result<bool>)
      ensures r == Failure(UnsupportedOperation)
    {
      r := Failure(UnsupportedOperation);
    }

    method Remove(pElement: E) returns (r: Result<bool>)
      ensures r == Failure(UnsupportedOperation)
    {
      r := Failure(UnsupportedOperation);
    }

    method Clear() returns (o: Outcome)
      ensures o == Fail(UnsupportedOperation)
    {
      o := Fail(UnsupportedOperation);
    }

    method RemoveAll(pCollection: seq<E>) returns (r: Result<bool>)
      ensures r == Failure(UnsupportedOperation)
    {
      r := Failure(UnsupportedOperation);
    }

    method AddAll(pCollection: seq<E>) returns (r: Result<bool>)
      ensures r == Failure(UnsupportedOperation)
    {
      r := Failure(UnsupportedOperation);
    }

    method RetainAll(pCollection: seq<E>) returns (r: Result<bool>)
      ensures r == Failure(UnsupportedOperation)
    {
      r := Failure(UnsupportedOperation);
    }

    /** `clone`: a new set of the same class with the same elements in the same order. */
    method Clone() returns (c: SerializableUnmodifiableHashSet<E>)
      requires Valid()
      ensures fresh(c) && c.Valid() && c.elements == elements
    {
      c := new SerializableUnmodifiableHashSet(elements);
      DedupOfDistinct(elements);
    }
  }
}

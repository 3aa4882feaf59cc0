/**
  `impl.SerializableUnmodifiableArrayList`: an array list filled once by its constructor, whose
  overridden mutators all fail with `UnsupportedOperationException`, whose list iterators are
  wrapped in `UnmodifiableListIterator`, and whose `subList` is a new unmodifiable list.
*/
module UnmodifiableArrayList {
  import opened Lang
  import Iterators
  import ArrayList

  class SerializableUnmodifiableArrayList<E> {
    /** The list's elements, in order. */
    var elements: seq<E>

    function Size(): nat
      reads this
    {
      |elements|
    }

    /** The empty constructor. */
    constructor Empty()
      ensures elements == []
    {
      elements := [];
    }

    /** The singleton constructor: exactly the one element, which may be null. */
    constructor Singleton(pSingleItem: E)
      ensures elements == [pSingleItem]
    {
      elements := [];
      new;
      elements := elements + [pSingleItem];
    }

    /** The collection constructor: `ArrayList(Collection)` copies the source's elements in its order. */
    constructor (pCollection: seq<E>)
      ensures elements == pCollection
    {
      elements := pCollection;
    }

    /** The collection constructor handed a null collection throws `NullPointerException`. */
    static method FromCollection(pCollection: Nullable<seq<E>>) returns (r: Result<SerializableUnmodifiableArrayList<E>>)
      ensures pCollection == Null <==> r == Failure(NullPointer)
      ensures r.Failure? ==> r.error == NullPointer
      ensures r.Success? ==> fresh(r.value) && r.value.elements == pCollection.value
    {
      if pCollection == Null {
        r := Failure(NullPointer);
      } else {
        var l := new SerializableUnmodifiableArrayList(pCollection.value);
        r := Success(l);
      }
    }

    method Set(pIndex: int, pElement: E) returns (r: Result<E>)
      ensures r == Failure(UnsupportedOperation)
    {
      r := Failure(UnsupportedOperation);
    }

    method Add(pElement: E) returns (r: Result<bool>)
      ensures r == Failure(UnsupportedOperation)
    {
      r := Failure(UnsupportedOperation);
    }

    method AddAt(pIndex: int, pElement: E) returns (o: Outcome)
      ensures o == Fail(UnsupportedOperation)
    {
      o := Fail(UnsupportedOperation);
    }

    method RemoveAt(pIndex: int) returns (r: Result<E>)
      ensures r == Failure(UnsupportedOperation)
    {
      r := Failure(UnsupportedOperation);
    }

    method Remove(pElement: E) returns (r: Result<bool>)
      ensures r == Failure(UnsupportedOperation)
    {
      r := Failure(UnsupportedOperation);
    }

    method Clear() returns (o: Outcome)
      ensures o == Fail(UnsupportedOperation)
    {
      o := Fail(UnsupportedOperation);
    }

    method AddAll(pCollection: seq<E>) returns (r: Result<bool>)
      ensures r == Failure(UnsupportedOperation)
    {
      r := Failure(UnsupportedOperation);
    }

    method AddAllAt(pIndex: int, pCollection: seq<E>) returns (r: Result<bool>)
      ensures r == Failure(UnsupportedOperation)
    {
      r := Failure(UnsupportedOperation);
    }

    method RemoveRange(pFromIndex: int, pToIndex: int) returns (o: Outcome)
      ensures o == Fail(UnsupportedOperation)
    {
      o := Fail(UnsupportedOperation);
    }

    method RemoveAll(pCollection: seq<E>) returns (r: Result<bool>)
      ensures r == Failure(UnsupportedOperation)
    {
      r := Failure(UnsupportedOperation);
    }

    /** `listIterator()`: the list's own iterator, at the start, behind an `UnmodifiableListIterator`. */
    method ListIterator() returns (it: Iterators.UnmodifiableListIterator<E>)
      ensures fresh(it) && fresh(it.listIter)
      ensures it.listIter.Valid() && it.listIter.elems == elements && it.listIter.cursor == 0
    {
      var made := Iterators.ListCursor.Create(elements, 0);
      var wrapped := Iterators.UnmodifiableListIterator.Create(made.value);
      it := wrapped.value;
    }

    /**
      `listIterator(index)`: the list's own iterator at `index`, behind an `UnmodifiableListIterator`;
      an index outside `0..size` fails with `IndexOutOfBoundsException`.
    */
    method ListIteratorAt(pIndex: int) returns (r: Result<Iterators.UnmodifiableListIterator<E>>)
      ensures (0 <= pIndex <= |elements|) <==> r.Success?
      ensures r.Failure? ==> r.error == IndexOutOfBounds
      ensures r.Success? ==> fresh(r.value) && fresh(r.value.listIter)
      ensures r.Success? ==> r.value.listIter.Valid() && r.value.listIter.elems == elements && r.value.listIter.cursor == pIndex
    {
      var made := Iterators.ListCursor.Create(elements, pIndex);
      if made.Failure? {
        r := Failure(made.error);
      } else {
        var wrapped := Iterators.UnmodifiableListIterator.Create(made.value);
        r := Success(wrapped.value);
      }
    }

    /** `subList`: a new unmodifiable list holding a copy of the range, after the platform's range check. */
    method SubList(pFromIndex: int, pToIndex: int) returns (r: Result<SerializableUnmodifiableArrayList<E>>)
      ensures r.Failure? <==> ArrayList.SubListCheck(|elements|, pFromIndex, pToIndex).Fail?
      ensures r.Failure? ==> r.error == ArrayList.SubListCheck(|elements|, pFromIndex, pToIndex).error
      ensures r.Success? ==> fresh(r.value) && r.value.elements == elements[pFromIndex..pToIndex]
    {
      var check := ArrayList.SubListCheck(|elements|, pFromIndex, pToIndex);
      if check.Fail? {
        r := Failure(check.error);
      } else {
        var l := new SerializableUnmodifiableArrayList(elements[pFromIndex..pToIndex]);
        r := Success(l);
      }
    }

    /** `clone`: a new list of the same class with the same elements. */
    method Clone() returns (c: SerializableUnmodifiableArrayList<E>)
      ensures fresh(c) && c != this && c.elements == elements
    {
      c := new SerializableUnmodifiableArrayList(elements);
    }
  }
}

/**
  `impl.SerializableArrayList`: a mutable array list whose `subList` is a new, detached list rather
  than a live view of a range.
*/
module ArrayList {
  import opened Lang

  /**
    The range check of `ArrayList.subList`: an index outside the list fails with
    `IndexOutOfBoundsException`, bounds in the wrong order with `IllegalArgumentException`.
  */
  function SubListCheck(size: nat, pFromIndex: int, pToIndex: int): (o: Outcome)
    ensures o == Pass <==> 0 <= pFromIndex <= pToIndex <= size
    ensures o == Fail(IllegalArgument) <==> 0 <= pFromIndex && pToIndex <= size && pFromIndex > pToIndex
    ensures o.Fail? ==> o.error in {IndexOutOfBounds, IllegalArgument}
  {
    if pFromIndex < 0 then Fail(IndexOutOfBounds)
    else if pToIndex > size then Fail(IndexOutOfBounds)
    else if pFromIndex > pToIndex then Fail(IllegalArgument)
    else Pass
  }

  class SerializableArrayList<E> {
    /** The list's elements, in order. */
    var elements: seq<E>

    function Size(): nat
      reads this
    {
      |elements|
    }

    /** The default constructor: an empty list. */
    constructor ()
      ensures elements == []
    {
      elements := [];
    }

    /**
      The capacity constructor: an empty list, or `IllegalArgumentException` for a negative
      capacity. Capacity itself is not observable and is not modelled.
    */
    static method WithCapacity(pInitialCapacity: int) returns (r: Result<SerializableArrayList<E>>)
      ensures pInitialCapacity < 0 <==> r == Failure(IllegalArgument)
      ensures r.Success? ==> fresh(r.value) && r.value.elements == []
    {
      if pInitialCapacity < 0 {
        r := Failure(IllegalArgument);
      } else {
        var l := new SerializableArrayList();
        r := Success(l);
      }
    }

    /** The collection constructor: the source's elements in its iteration order. */
    constructor Copy(pCollection: seq<E>)
      ensures elements == pCollection
    {
      elements := pCollection;
    }

    /** The collection constructor handed a null collection throws `NullPointerException`. */
    static method FromCollection(pCollection: Nullable<seq<E>>) returns (r: Result<SerializableArrayList<E>>)
      ensures pCollection == Null <==> r == Failure(NullPointer)
      ensures r.Failure? ==> r.error == NullPointer
      ensures r.Success? ==> fresh(r.value) && r.value.elements == pCollection.value
    {
      if pCollection == Null {
        r := Failure(NullPointer);
      } else {
        var l := new SerializableArrayList.Copy(pCollection.value);
        r := Success(l);
      }
    }

    /** The inherited `add`: appends one element. */
    method Add(pElement: E) returns (changed: bool)
      modifies this
      ensures elements == old(elements) + [pElement] && changed
    {
      elements := elements + [pElement];
      changed := true;
    }

    /** The inherited `set`: replaces one element, or fails for an index outside the list. */
    method Set(pIndex: int, pElement: E) returns (r: Result<E>)
      modifies this
      ensures 0 <= pIndex < |old(elements)| ==>
        r == Success(old(elements)[pIndex]) && elements == old(elements)[pIndex := pElement]
      ensures !(0 <= pIndex < |old(elements)|) ==> r == Failure(IndexOutOfBounds) && elements == old(elements)
    {
      if 0 <= pIndex < |elements| {
        r := Success(elements[pIndex]);
        elements := elements[pIndex := pElement];
      } else {
        r := Failure(IndexOutOfBounds);
      }
    }

    /** `subList`: a new list holding a copy of the range, after the platform's range check. */
    method SubList(pFromIndex: int, pToIndex: int) returns (r: Result<SerializableArrayList<E>>)
      ensures r.Failure? <==> SubListCheck(|elements|, pFromIndex, pToIndex).Fail?
      ensures r.Failure? ==> r.error == SubListCheck(|elements|, pFromIndex, pToIndex).error
      ensures r.Success? ==> fresh(r.value) && r.value.elements == elements[pFromIndex..pToIndex]
    {
      var check := SubListCheck(|elements|, pFromIndex, pToIndex);
      if check.Fail? {
        r := Failure(check.error);
      } else {
        var l := new SerializableArrayList.Copy(elements[pFromIndex..pToIndex]);
        r := Success(l);
      }
    }

    /** `clone`: a new list of the same class with the same elements. */
    method Clone() returns (c: SerializableArrayList<E>)
      ensures fresh(c) && c.elements == elements
    {
      c := new SerializableArrayList.Copy(elements);
    }
  }

  /**
    A sub-list is detached: after `subList`, changing the new list leaves the original as it was,
    and changing the original leaves the sub-list as it was.
  */
  method SubListIsDetached<E>(source: seq<E>, x: E, y: E) returns (original: seq<E>, part: seq<E>)
    requires |source| >= 2
    ensures original == source[0 := y]
    ensures part == source[1..2] + [x]
  {
    var list := new SerializableArrayList.Copy(source);
    var r := list.SubList(1, 2);
    var sub := r.value;
    var added := sub.Add(x);
    var was := list.Set(0, y);
    original := list.elements;
    part := sub.elements;
  }
}

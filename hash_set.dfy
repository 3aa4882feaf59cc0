/**
  `SerializableHashSet`: a mutable hash set. The `impl` package's class of the same name, which the
  factory methods and the maps' `keySet` use, is modelled by this one. A hash set's iteration order
  is modelled as the order in which its elements were first added.
*/
module HashSet {
  import opened Lang

  class SerializableHashSet<E(==)> {
    /** The backing hash set, in iteration order. */
    var elements: seq<E>

    ghost predicate Valid()
      reads this
    {
      Distinct(elements)
    }

    function Size(): nat
      reads this
    {
      |elements|
    }

    /** The default constructor: an empty set. */
    constructor ()
      ensures Valid() && elements == []
    {
      elements := [];
    }

    /**
      The capacity constructors: an empty set, or `IllegalArgumentException` for a negative capacity
      or a load factor that is not positive.
    */
    static method WithCapacity(pInitialCapacity: int, pLoadFactor: real) returns (r: Result<SerializableHashSet<E>>)
      ensures pInitialCapacity < 0 || pLoadFactor <= 0.0 <==> r == Failure(IllegalArgument)
      ensures r.Success? ==> fresh(r.value) && r.value.Valid() && r.value.elements == []
    {
      if pInitialCapacity < 0 || pLoadFactor <= 0.0 {
        r := Failure(IllegalArgument);
      } else {
        var s := new SerializableHashSet();
        r := Success(s);
      }
    }

    /** The collection constructor: `add` of each element of the source in turn. */
    constructor Copy(pCollection: seq<E>)
      ensures Valid() && elements == Dedup(pCollection)
      ensures Elems(elements) == Elems(pCollection)
    {
      elements := [];
      new;
      AddAll(pCollection);
      DedupFacts(pCollection);
    }

    /** The collection constructor handed a null collection throws `NullPointerException`. */
    static method FromCollection(pCollection: Nullable<seq<E>>) returns (r: Result<SerializableHashSet<E>>)
      ensures pCollection == Null <==> r == Failure(NullPointer)
      ensures r.Failure? ==> r.error == NullPointer
      ensures r.Success? ==> fresh(r.value) && r.value.Valid() && r.value.elements == Dedup(pCollection.value)
    {
      if pCollection == Null {
        r := Failure(NullPointer);
      } else {
        var s := new SerializableHashSet.Copy(pCollection.value);
        r := Success(s);
      }
    }

    /** The inherited `add`: the element joins the set unless it is there already. */
    method Add(pElement: E) returns (added: bool)
      requires Valid()
      modifies this
      ensures Valid() && elements == AddAbsent(old(elements), pElement)
      ensures Elems(elements) == Elems(old(elements)) + {pElement}
      ensures added <==> pElement !in old(elements)
    {
      AddAbsentFacts(elements, pElement);
      added := pElement !in elements;
      elements := AddAbsent(elements, pElement);
    }

    /** The inherited `addAll` (and `Collections.addAll`): `add` of each element in turn. */
    method AddAll(pCollection: seq<E>)
      requires Valid()
      modifies this
      ensures Valid() && Elems(elements) == Elems(old(elements)) + Elems(pCollection)
      ensures old(elements) == [] ==> elements == Dedup(pCollection)
    {
      ghost var start := elements;
      var i := 0;
      while i < |pCollection|
        invariant 0 <= i <= |pCollection|
        invariant Valid() && Elems(elements) == Elems(start) + Elems(pCollection[..i])
        invariant start == [] ==> elements == Dedup(pCollection[..i])
      {
        DedupSnoc(pCollection, i);
        ghost var current := Elems(elements);
        var added := Add(pCollection[i]);
        AddAllStep(Elems(start), pCollection, i, current, !(Elems(pCollection[..i]) <= Elems(start)), added);
        i := i + 1;
      }
      assert pCollection[..i] == pCollection;
    }

    /** `clone`: a new set of the same class with the same elements. */
    method Clone() returns (c: SerializableHashSet<E>)
      requires Valid()
      ensures fresh(c) && c.Valid() && c.elements == elements
    {
      c := new SerializableHashSet.Copy(elements);
      DedupOfDistinct(elements);
    }
  }
}

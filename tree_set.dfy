/**
  `SerializableTreeSet`: a mutable tree set. Its range views (`subSet`, `headSet`, `tailSet`) and
  its `descendingSet` are not live views: each is a new set built by the collection constructor,
  and so ordered naturally, whatever the ordering of the set it came from.
*/
module TreeSet {
  import opened Lang
  import opened Ordering

  class SerializableTreeSet<E(==,!new)> {
    /** The natural ordering of the element type (its `compareTo`). */
    const natural: (E, E) -> int
    /** The comparator the tree was created with; null stands for natural ordering. */
    var comparator: Nullable<(E, E) -> int>
    /** The tree, in ascending order. */
    var elements: seq<E>

    function Order(): (E, E) -> int
      reads this
    {
      Active(natural, comparator)
    }

    ghost predicate Valid()
      reads this
    {
      IsComparator(Order()) && Sorted(elements, Order())
    }

    function Size(): nat
      reads this
    {
      |elements|
    }

    /** The empty constructor: natural ordering. */
    constructor Empty(natural: (E, E) -> int)
      requires IsComparator(natural)
      ensures Valid() && this.natural == natural && comparator == Null && elements == []
    {
      this.natural := natural;
      comparator := Null;
      elements := [];
    }

    /** The comparator constructor: an empty set ordered by `pComparator`, or naturally when it is null. */
    constructor WithComparator(natural: (E, E) -> int, pComparator: Nullable<(E, E) -> int>)
      requires IsComparator(Active(natural, pComparator))
      ensures Valid() && this.natural == natural && comparator == pComparator && elements == []
    {
      this.natural := natural;
      comparator := pComparator;
      elements := [];
    }

    /**
      The collection constructor: an empty naturally ordered tree and the inherited `addAll`, so the
      set holds exactly the source's elements, ascending in their natural order.
    */
    constructor (natural: (E, E) -> int, pCollection: seq<E>)
      requires IsComparator(natural)
      ensures Valid() && this.natural == natural && comparator == Null
      ensures Elems(elements) == Elems(pCollection)
    {
      this.natural := natural;
      comparator := Null;
      elements := [];
      new;
      var _ := AddAll(pCollection);
    }

    /** The collection constructor handed a null collection throws `NullPointerException`. */
    static method FromCollection(natural: (E, E) -> int, pCollection: Nullable<seq<E>>) returns (r: Result<SerializableTreeSet<E>>)
      requires IsComparator(natural)
      ensures pCollection == Null <==> r == Failure(NullPointer)
      ensures r.Failure? ==> r.error == NullPointer
      ensures r.Success? ==> fresh(r.value) && r.value.Valid() && r.value.natural == natural && r.value.comparator == Null
      ensures r.Success? ==> Elems(r.value.elements) == Elems(pCollection.value)
    {
      if pCollection == Null {
        r := Failure(NullPointer);
      } else {
        var s := new SerializableTreeSet(natural, pCollection.value);
        r := Success(s);
      }
    }

    /** The sorted-set constructor: the source's comparator and the source's elements, in its order. */
    constructor FromSorted(natural: (E, E) -> int, pSortedSet: SortedSource<E>)
      requires IsComparator(Active(natural, pSortedSet.comparator))
      requires Sorted(pSortedSet.elements, Active(natural, pSortedSet.comparator))
      ensures Valid() && this.natural == natural
      ensures comparator == pSortedSet.comparator && elements == pSortedSet.elements
    {
      this.natural := natural;
      comparator := pSortedSet.comparator;
      elements := pSortedSet.elements;
    }

    /** The sorted-set constructor handed a null set throws `NullPointerException`. */
    static method FromSortedSet(natural: (E, E) -> int, pSortedSet: Nullable<SortedSource<E>>) returns (r: Result<SerializableTreeSet<E>>)
      requires pSortedSet.NonNull? ==> IsComparator(Active(natural, pSortedSet.value.comparator))
      requires pSortedSet.NonNull? ==> Sorted(pSortedSet.value.elements, Active(natural, pSortedSet.value.comparator))
      ensures pSortedSet == Null <==> r == Failure(NullPointer)
      ensures r.Failure? ==> r.error == NullPointer
      ensures r.Success? ==> fresh(r.value) && r.value.Valid() && r.value.natural == natural
      ensures r.Success? ==> r.value.comparator == pSortedSet.value.comparator && r.value.elements == pSortedSet.value.elements
    {
      if pSortedSet == Null {
        r := Failure(NullPointer);
      } else {
        var s := new SerializableTreeSet.FromSorted(natural, pSortedSet.value);
        r := Success(s);
      }
    }

    /** The field-by-field copy `clone` makes. */
    constructor Copy(natural: (E, E) -> int, comparator: Nullable<(E, E) -> int>, elements: seq<E>)
      requires IsComparator(Active(natural, comparator)) && Sorted(elements, Active(natural, comparator))
      ensures Valid() && this.natural == natural && this.comparator == comparator && this.elements == elements
    {
      this.natural := natural;
      this.comparator := comparator;
      this.elements := elements;
    }

    /**
      The inherited `add`: the element is put into the tree unless an equal one is stored already;
      the answer says whether the set changed.
    */
    method Add(pElement: E) returns (added: bool)
      requires Valid()
      modifies this
      ensures Valid() && comparator == old(comparator)
      ensures elements == Insert(old(elements), pElement, Order())
      ensures Elems(elements) == Elems(old(elements)) + {pElement}
      ensures added <==> pElement !in old(elements)
      ensures added ==> |elements| == |old(elements)| + 1
      ensures !added ==> elements == old(elements)
    {
      var cmp := Order();
      InsertSorted(elements, pElement, cmp);
      InsertElems(elements, pElement, cmp);
      InsertSize(elements, pElement, cmp);
      if pElement in elements {
        InsertPresent(elements, pElement, cmp);
      }
      added := pElement !in elements;
      elements := Insert(elements, pElement, cmp);
    }

    /** The inherited `addAll`: `add` of each element of the source in turn. */
    method AddAll(pCollection: seq<E>) returns (changed: bool)
      requires Valid()
      modifies this
      ensures Valid() && comparator == old(comparator)
      ensures Elems(elements) == Elems(old(elements)) + Elems(pCollection)
      ensures changed <==> !(Elems(pCollection) <= Elems(old(elements)))
    {
      ghost var start := Elems(elements);
      changed := false;
      var i := 0;
      while i < |pCollection|
        invariant 0 <= i <= |pCollection|
        invariant Valid() && comparator == old(comparator)
        invariant Elems(elements) == start + Elems(pCollection[..i])
        invariant changed <==> !(Elems(pCollection[..i]) <= start)
      {
        ghost var current := Elems(elements);
        var added := Add(pCollection[i]);
        AddAllStep(start, pCollection, i, current, changed, added);
        changed := changed || added;
        i := i + 1;
      }
      assert pCollection[..i] == pCollection;
    }

    /** `clone`: a new set with the same comparator and the same elements. */
    method Clone() returns (c: SerializableTreeSet<E>)
      requires Valid()
      ensures fresh(c) && c.Valid()
      ensures c.natural == natural && c.comparator == comparator && c.elements == elements
    {
      c := new SerializableTreeSet.Copy(natural, comparator, elements);
    }

    /** `comparator`: the tree's comparator; the set is ordered by it, or naturally when it is null. */
    function Comparator(): (c: Nullable<(E, E) -> int>)
      reads this
      ensures c == Null ==> Order() == natural
      ensures c.NonNull? ==> Order() == c.value
    {
      comparator
    }

    /**
      `descendingSet`: the reversed view copied by the collection constructor, so the result holds
      the same elements in natural order; for a naturally ordered set it is an equal copy.
    */
    method DescendingSet() returns (d: SerializableTreeSet<E>)
      requires Valid() && IsComparator(natural)
      ensures fresh(d) && d.Valid() && d.natural == natural && d.comparator == Null
      ensures Elems(d.elements) == Elems(elements)
      ensures comparator == Null ==> d.elements == elements
    {
      var view := Reverse(elements);
      ReverseElems(elements);
      d := new SerializableTreeSet(natural, view);
      if comparator == Null {
        SortedUnique(d.elements, elements, natural);
      }
    }

    /**
      `subSet(from, fromInclusive, to, toInclusive)`: the platform refuses bounds in the wrong order
      with `IllegalArgumentException`; otherwise the in-range elements are copied into a new
      naturally ordered set.
    */
    method SubSet(pFromElement: E, pFromInclusive: bool, pToElement: E, pToInclusive: bool)
      returns (r: Result<SerializableTreeSet<E>>)
      requires Valid() && IsComparator(natural)
      ensures Order()(pFromElement, pToElement) > 0 <==> r == Failure(IllegalArgument)
      ensures r.Success? ==> fresh(r.value) && r.value.Valid() && r.value.natural == natural && r.value.comparator == Null
      ensures r.Success? ==>
        Elems(r.value.elements) == set x | x in elements && Above(Order(), x, pFromElement, pFromInclusive) && Below(Order(), x, pToElement, pToInclusive)
    {
      var cmp := Order();
      if cmp(pFromElement, pToElement) > 0 {
        r := Failure(IllegalArgument);
      } else {
        var keep := x => Above(cmp, x, pFromElement, pFromInclusive) && Below(cmp, x, pToElement, pToInclusive);
        FilterFacts(elements, keep, cmp);
        var s := new SerializableTreeSet(natural, Filter(elements, keep));
        r := Success(s);
      }
    }

    /** `headSet(to, inclusive)`: the elements below `to` copied into a new naturally ordered set. */
    method HeadSet(pToElement: E, pInclusive: bool) returns (s: SerializableTreeSet<E>)
      requires Valid() && IsComparator(natural)
      ensures fresh(s) && s.Valid() && s.natural == natural && s.comparator == Null
      ensures Elems(s.elements) == set x | x in elements && Below(Order(), x, pToElement, pInclusive)
    {
      var cmp := Order();
      var keep := x => Below(cmp, x, pToElement, pInclusive);
      FilterFacts(elements, keep, cmp);
      s := new SerializableTreeSet(natural, Filter(elements, keep));
    }

    /** `tailSet(from, inclusive)`: the elements above `from` copied into a new naturally ordered set. */
    method TailSet(pFromElement: E, pInclusive: bool) returns (s: SerializableTreeSet<E>)
      requires Valid() && IsComparator(natural)
      ensures fresh(s) && s.Valid() && s.natural == natural && s.comparator == Null
      ensures Elems(s.elements) == set x | x in elements && Above(Order(), x, pFromElement, pInclusive)
    {
      var cmp := Order();
      var keep := x => Above(cmp, x, pFromElement, pInclusive);
      FilterFacts(elements, keep, cmp);
      s := new SerializableTreeSet(natural, Filter(elements, keep));
    }

    /** `subSet(from, to)`: the platform's `subSet(from, true, to, false)`, copied. */
    method SubSetHalfOpen(pFromElement: E, pToElement: E) returns (r: Result<SerializableTreeSet<E>>)
      requires Valid() && IsComparator(natural)
      ensures Order()(pFromElement, pToElement) > 0 <==> r == Failure(IllegalArgument)
      ensures r.Success? ==> fresh(r.value) && r.value.Valid() && r.value.comparator == Null
      ensures r.Success? ==>
        Elems(r.value.elements) == set x | x in elements && Order()(x, pFromElement) >= 0 && Order()(x, pToElement) < 0
    {
      r := SubSet(pFromElement, true, pToElement, false);
    }

    /** `headSet(to)`: the platform's `headSet(to, false)`, copied. */
    method HeadSetExclusive(pToElement: E) returns (s: SerializableTreeSet<E>)
      requires Valid() && IsComparator(natural)
      ensures fresh(s) && s.Valid() && s.comparator == Null
      ensures Elems(s.elements) == set x | x in elements && Order()(x, pToElement) < 0
    {
      s := HeadSet(pToElement, false);
    }

    /** `tailSet(from)`: the platform's `tailSet(from, true)`, copied. */
    method TailSetInclusive(pFromElement: E) returns (s: SerializableTreeSet<E>)
      requires Valid() && IsComparator(natural)
      ensures fresh(s) && s.Valid() && s.comparator == Null
      ensures Elems(s.elements) == set x | x in elements && Order()(x, pFromElement) >= 0
    {
      s := TailSet(pFromElement, true);
    }
  }

  /** Reversing a sequence keeps its elements. */
  lemma ReverseElems<T>(s: seq<T>)
    ensures Elems(Reverse(s)) == Elems(s)
  {
    ReverseFacts(s);
    forall x | x in Elems(s) ensures x in Elems(Reverse(s)) {
      var i :| 0 <= i < |s| && s[i] == x;
      assert Reverse(s)[|s| - 1 - i] == x;
    }
  }

  /** Adding "Frodo" three times leaves exactly one "Frodo". */
  method AddDuplicates() returns (contents: seq<string>)
    ensures contents == ["Frodo"]
  {
    StringOrderIsComparator();
    var testee := new SerializableTreeSet.Empty(CompareStrings);
    var _ := testee.Add("Frodo");
    var _ := testee.Add("Frodo");
    var _ := testee.Add("Frodo");
    contents := testee.elements;
  }

  /** Elements added in any order come out in the natural order of strings. */
  method AddInAnyOrder() returns (contents: seq<string>)
    ensures contents == ["Bilbo", "Frodo", "Pippin", "Samweis"]
  {
    StringOrderIsComparator();
    HobbitInserts();
    var testee := new SerializableTreeSet.Empty(CompareStrings);
    var _ := testee.Add("Frodo");
    var _ := testee.Add("Bilbo");
    var _ := testee.Add("Samweis");
    var _ := testee.Add("Pippin");
    contents := testee.elements;
  }

  /** Where each name lands in the tree as the names are added. */
  lemma HobbitInserts()
    ensures Insert(["Frodo"], "Bilbo", CompareStrings) == ["Bilbo", "Frodo"]
    ensures Insert(["Bilbo", "Frodo"], "Samweis", CompareStrings) == ["Bilbo", "Frodo", "Samweis"]
    ensures Insert(["Bilbo", "Frodo", "Samweis"], "Pippin", CompareStrings) == ["Bilbo", "Frodo", "Pippin", "Samweis"]
  {
  }

  /**
    A tail set is a copy: adding to it leaves the set it came from as it was, and it holds the
    original's elements from the bound on, plus what was added.
  */
  method TailSetIsDetached<E(==,!new)>(natural: (E, E) -> int, source: seq<E>, from: E, x: E)
    returns (original: set<E>, tail: set<E>)
    requires IsComparator(natural)
    ensures original == Elems(source)
    ensures tail == (set y | y in source && natural(y, from) >= 0) + {x}
  {
    var s := new SerializableTreeSet(natural, source);
    var t := s.TailSetInclusive(from);
    assert s.Order() == natural;
    assert Elems(t.elements) == set y | y in source && natural(y, from) >= 0 by {
      forall y ensures y in Elems(t.elements) <==> y in source && natural(y, from) >= 0 {
        assert y in Elems(s.elements) <==> y in Elems(source);
      }
    }
    var _ := t.Add(x);
    original, tail := Elems(s.elements), Elems(t.elements);
  }
}

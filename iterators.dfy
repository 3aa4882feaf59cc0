/**
  The iterator wrappers `UnmodifiableIterator` and `UnmodifiableListIterator`, and the platform
  iterators they wrap. A platform iterator is modelled over the sequence it will pass (its
  collection's elements in iteration order) and a cursor: the number of elements already passed.
*/
module Iterators {
  import opened Lang
  import Ordering

  /** A `java.util.Iterator` of a platform container: `next` passes one element, `remove` is not used here. */
  class BackingIterator<T> {
    const elems: seq<T>
    var cursor: nat

    ghost predicate Valid()
      reads this
    {
      cursor <= |elems|
    }

    constructor (s: seq<T>)
      ensures Valid() && elems == s && cursor == 0
    {
      elems := s;
      cursor := 0;
    }

    /** The elements not yet passed. */
    ghost function Remaining(): seq<T>
      reads this
      requires Valid()
    {
      elems[cursor..]
    }

    function HasNext(): (b: bool)
      reads this
      requires Valid()
      ensures b <==> Remaining() != []
    {
      cursor < |elems|
    }

    /** `next`: the element under the cursor, or `NoSuchElementException` at the end. */
    method Next() returns (r: Result<T>)
      requires Valid()
      modifies this
      ensures Valid()
      ensures old(HasNext()) ==> r == Success(old(Remaining())[0]) && Remaining() == old(Remaining())[1..]
      ensures !old(HasNext()) ==> r == Failure(NoSuchElement) && cursor == old(cursor)
    {
      if cursor < |elems| {
        r := Success(elems[cursor]);
        cursor := cursor + 1;
      } else {
        r := Failure(NoSuchElement);
      }
    }
  }

  /** `UnmodifiableIterator`: answers `hasNext` and `next` from the wrapped iterator and refuses `remove`. */
  class UnmodifiableIterator<T> {
    const iter: BackingIterator<T>

    constructor (pIter: BackingIterator<T>)
      ensures iter == pIter
    {
      iter := pIter;
    }

    function HasNext(): (b: bool)
      reads this, iter
      requires iter.Valid()
      ensures b <==> iter.Remaining() != []
    {
      iter.HasNext()
    }

    method Next() returns (r: Result<T>)
      requires iter.Valid()
      modifies iter
      ensures iter.Valid()
      ensures old(iter.HasNext()) ==> r == Success(old(iter.Remaining())[0]) && iter.Remaining() == old(iter.Remaining())[1..]
      ensures !old(iter.HasNext()) ==> r == Failure(NoSuchElement) && iter.cursor == old(iter.cursor)
    {
      r := iter.Next();
    }

    /** `remove` fails and touches neither the cursor nor the collection. */
    method Remove() returns (o: Outcome)
      ensures o == Fail(UnsupportedOperation)
    {
      o := Fail(UnsupportedOperation);
    }
  }

  /**
    Iterating an unmodifiable iterator over `s` to the end: `hasNext` holds exactly until every
    element has been passed, and the elements come out as `s`, in order.
  */
  method IterateToEnd<T>(s: seq<T>) returns (passed: seq<T>)
    ensures passed == s
  {
    var backing := new BackingIterator(s);
    var it := new UnmodifiableIterator(backing);
    passed := [];
    while it.HasNext()
      invariant backing.Valid() && backing.elems == s
      invariant passed == s[..backing.cursor]
      decreases |s| - backing.cursor
    {
      var r := it.Next();
      passed := passed + [r.value];
    }
  }

  /** A `java.util.ListIterator` of a platform list: a cursor between two elements that moves both ways. */
  class ListCursor<T> {
    const elems: seq<T>
    var cursor: nat

    ghost predicate Valid()
      reads this
    {
      cursor <= |elems|
    }

    /** `listIterator(index)` of the platform list: `IndexOutOfBoundsException` unless `0 <= index <= size`. */
    static method Create(s: seq<T>, index: int) returns (r: Result<ListCursor<T>>)
      ensures (0 <= index <= |s|) == r.Success?
      ensures r.Success? ==> fresh(r.value) && r.value.Valid() && r.value.elems == s && r.value.cursor == index
      ensures r.Failure? ==> r.error == IndexOutOfBounds
    {
      if 0 <= index <= |s| {
        var c := new ListCursor(s);
        c.cursor := index;
        r := Success(c);
      } else {
        r := Failure(IndexOutOfBounds);
      }
    }

    constructor (s: seq<T>)
      ensures Valid() && elems == s && cursor == 0
    {
      elems := s;
      cursor := 0;
    }

    function HasNext(): (b: bool)
      reads this
      requires Valid()
      ensures b <==> elems[cursor..] != []
    {
      cursor < |elems|
    }

    function HasPrevious(): (b: bool)
      reads this
      requires Valid()
      ensures b <==> elems[..cursor] != []
    {
      cursor > 0
    }

    function NextIndex(): (i: int)
      reads this
      requires Valid()
      ensures i == |elems[..cursor]|
    {
      cursor
    }

    function PreviousIndex(): (i: int)
      reads this
      requires Valid()
      ensures i == |elems[..cursor]| - 1
    {
      cursor - 1
    }

    method Next() returns (r: Result<T>)
      requires Valid()
      modifies this
      ensures Valid()
      ensures old(cursor) < |elems| ==> r == Success(elems[old(cursor)]) && cursor == old(cursor) + 1
      ensures old(cursor) == |elems| ==> r == Failure(NoSuchElement) && cursor == old(cursor)
    {
      if cursor < |elems| {
        r := Success(elems[cursor]);
        cursor := cursor + 1;
      } else {
        r := Failure(NoSuchElement);
      }
    }

    method Previous() returns (r: Result<T>)
      requires Valid()
      modifies this
      ensures Valid()
      ensures old(cursor) > 0 ==> r == Success(elems[old(cursor) - 1]) && cursor == old(cursor) - 1
      ensures old(cursor) == 0 ==> r == Failure(NoSuchElement) && cursor == old(cursor)
    {
      if cursor > 0 {
        r := Success(elems[cursor - 1]);
        cursor := cursor - 1;
      } else {
        r := Failure(NoSuchElement);
      }
    }
  }

  /**
    `UnmodifiableListIterator`: every cursor query and move is the wrapped iterator's; `remove`,
    `set` and `add` are refused.
  */
  class UnmodifiableListIterator<T> {
    const listIter: ListCursor<T>

    /** The constructor refuses a null iterator with `IllegalArgumentException`. */
    static method Create(pIter: ListCursor?<T>) returns (r: Result<UnmodifiableListIterator<T>>)
      ensures (pIter == null) == r.Failure?
      ensures r.Failure? ==> r.error == IllegalArgument
      ensures r.Success? ==> fresh(r.value) && r.value.listIter == pIter
    {
      if pIter == null {
        r := Failure(IllegalArgument);
      } else {
        var w := new UnmodifiableListIterator(pIter);
        r := Success(w);
      }
    }

    constructor (pIter: ListCursor<T>)
      ensures listIter == pIter
    {
      listIter := pIter;
    }

    function HasNext(): (b: bool)
      reads this, listIter
      requires listIter.Valid()
      ensures b == (listIter.cursor < |listIter.elems|)
    {
      listIter.HasNext()
    }

    function HasPrevious(): (b: bool)
      reads this, listIter
      requires listIter.Valid()
      ensures b == (listIter.cursor > 0)
    {
      listIter.HasPrevious()
    }

    function NextIndex(): (i: int)
      reads this, listIter
      requires listIter.Valid()
      ensures i == listIter.cursor
    {
      listIter.NextIndex()
    }

    function PreviousIndex(): (i: int)
      reads this, listIter
      requires listIter.Valid()
      ensures i == listIter.cursor - 1
    {
      listIter.PreviousIndex()
    }

    method Next() returns (r: Result<T>)
      requires listIter.Valid()
      modifies listIter
      ensures listIter.Valid()
      ensures old(listIter.cursor) < |listIter.elems| ==>
        r == Success(listIter.elems[old(listIter.cursor)]) && listIter.cursor == old(listIter.cursor) + 1
      ensures old(listIter.cursor) == |listIter.elems| ==>
        r == Failure(NoSuchElement) && listIter.cursor == old(listIter.cursor)
    {
      r := listIter.Next();
    }

    method Previous() returns (r: Result<T>)
      requires listIter.Valid()
      modifies listIter
      ensures listIter.Valid()
      ensures old(listIter.cursor) > 0 ==>
        r == Success(listIter.elems[old(listIter.cursor) - 1]) && listIter.cursor == old(listIter.cursor) - 1
      ensures old(listIter.cursor) == 0 ==>
        r == Failure(NoSuchElement) && listIter.cursor == old(listIter.cursor)
    {
      r := listIter.Previous();
    }

    method Remove() returns (o: Outcome)
      ensures o == Fail(UnsupportedOperation)
    {
      o := Fail(UnsupportedOperation);
    }

    method Set(pElement: T) returns (o: Outcome)
      ensures o == Fail(UnsupportedOperation)
    {
      o := Fail(UnsupportedOperation);
    }

    method Add(pElement: T) returns (o: Outcome)
      ensures o == Fail(UnsupportedOperation)
    {
      o := Fail(UnsupportedOperation);
    }
  }

  /**
    Walking an unmodifiable list iterator from the end of `s` back to its start with `previous`:
    the elements come out last first, and the indices count down to -1.
  */
  method IterateBackward<T>(s: seq<T>) returns (passed: seq<T>, lastIndex: int)
    ensures passed == Ordering.Reverse(s)
    ensures lastIndex == -1
  {
    var start := ListCursor.Create(s, |s|);
    var cursor := start.value;
    var made := UnmodifiableListIterator.Create(cursor);
    var it := made.value;
    passed := [];
    while it.HasPrevious()
      invariant it.listIter == cursor && cursor.Valid() && cursor.elems == s
      invariant passed == Ordering.Reverse(s[cursor.cursor..])
      decreases cursor.cursor
    {
      ghost var c := cursor.cursor;
      var r := it.Previous();
      assert s[c - 1..][1..] == s[c..];
      passed := passed + [r.value];
    }
    lastIndex := it.PreviousIndex();
  }
}

/**
  `SerializableUnmodifiableEntrySet`: the entry set the unmodifiable map hands out. It holds the
  map's entries in a private hash set, rejects every mutation, and hands each entry out as a
  `SerializableUnmodifiableEntry` snapshot, through its iterator and through `toArray`.
*/
module UnmodifiableEntrySet {
  import opened Lang
  import opened UnmodifiableEntry
  import Iterators

  /** A slot of an `Object[]` or `T[]` array seen by `toArray`. */
  datatype Slot<K(==), V(==)> = NullRef | Live(entry: MapEntry<K, V>) | Snapshot(snapshot: SerializableUnmodifiableEntry<K, V>)

  /** The snapshot of every entry, in order. */
  function Snapshots<K(==), V(==)>(s: seq<MapEntry<K, V>>): (r: seq<SerializableUnmodifiableEntry<K, V>>)
    ensures |r| == |s|
    ensures forall i :: 0 <= i < |s| ==> r[i] == FromEntry(s[i])
  {
    if s == [] then [] else [FromEntry(s[0])] + Snapshots(s[1..])
  }

  /** The snapshots as array slots. */
  function SnapshotSlots<K(==), V(==)>(s: seq<MapEntry<K, V>>): (r: seq<Slot<K, V>>)
    ensures |r| == |s|
    ensures forall i :: 0 <= i < |s| ==> r[i] == Snapshot(FromEntry(s[i]))
  {
    if s == [] then [] else [Snapshot(FromEntry(s[0]))] + SnapshotSlots(s[1..])
  }

  /** The stored entries as array slots. */
  function LiveSlots<K(==), V(==)>(s: seq<MapEntry<K, V>>): (r: seq<Slot<K, V>>)
    ensures |r| == |s|
    ensures forall i :: 0 <= i < |s| ==> r[i] == Live(s[i])
  {
    if s == [] then [] else [Live(s[0])] + LiveSlots(s[1..])
  }

  /** The constructor of a snapshot applied to one slot: null has no key to read. */
  function WrapSlot<K(==), V(==)>(s: Slot<K, V>): (r: Result<Slot<K, V>>)
    ensures s == NullRef <==> r == Failure(NullPointer)
    ensures s.Live? ==> r == Success(Snapshot(FromEntry(s.entry)))
    ensures s.Snapshot? ==> r == Success(s)
  {
    match s
    case NullRef => Failure(NullPointer)
    case Live(e) => Success(Snapshot(FromEntry(e)))
    case Snapshot(u) => Success(Snapshot(FromEntry(u.AsEntry())))
  }

  class SerializableUnmodifiableEntrySet<K(==), V(==)> {
    /** The backing hash set, in iteration order. */
    var elements: seq<MapEntry<K, V>>

    ghost predicate Valid()
      reads this
    {
      Distinct(elements)
    }

    function Size(): nat
      reads this
    {
      |elements|
    }

    /** The empty constructor. */
    constructor Empty()
      ensures Valid() && elements == []
    {
      elements := [];
    }

    /**
      The copy constructor: adds the source set's entries one by one with the inherited `add`, so
      the entry set holds exactly the source's entries, each once.
    */
    constructor (pEntrySet: seq<MapEntry<K, V>>)
      requires Distinct(pEntrySet)
      ensures Valid() && elements == pEntrySet
    {
      elements := [];
      new;
      var i := 0;
      while i < |pEntrySet|
        invariant 0 <= i <= |pEntrySet|
        invariant elements == Dedup(pEntrySet[..i])
      {
        assert pEntrySet[..i + 1][..i] == pEntrySet[..i];
        elements := AddAbsent(elements, pEntrySet[i]);
        i := i + 1;
      }
      assert pEntrySet[..i] == pEntrySet;
      DedupOfDistinct(pEntrySet);
    }

    /** The iterator: a fresh snapshot-producing wrapper around the backing set's iterator. */
    method Iterator() returns (it: SnapshotIterator<K, V>)
      ensures fresh(it) && fresh(it.superIter)
      ensures it.superIter.Valid() && it.superIter.elems == elements && it.superIter.cursor == 0
    {
      var superIter := new Iterators.BackingIterator(elements);
      it := new SnapshotIterator(superIter);
    }

    /** `add`, `remove`, `addAll`, `retainAll`, `removeAll` and `clear` fail and change nothing. */
    method Add(pEntry: Nullable<MapEntry<K, V>>) returns (r: Result<bool>)
      ensures r == Failure(UnsupportedOperation)
    {
      r := Failure(UnsupportedOperation);
    }

    method Remove(pObject: Nullable<MapEntry<K, V>>) returns (r: Result<bool>)
      ensures r == Failure(UnsupportedOperation)
    {
      r := Failure(UnsupportedOperation);
    }

    method AddAll(pCollection: seq<MapEntry<K, V>>) returns (r: Result<bool>)
      ensures r == Failure(UnsupportedOperation)
    {
      r := Failure(UnsupportedOperation);
    }

    method RetainAll(pCollection: seq<MapEntry<K, V>>) returns (r: Result<bool>)
      ensures r == Failure(UnsupportedOperation)
    {
      r := Failure(UnsupportedOperation);
    }

    method RemoveAll(pCollection: seq<MapEntry<K, V>>) returns (r: Result<bool>)
      ensures r == Failure(UnsupportedOperation)
    {
      r := Failure(UnsupportedOperation);
    }

    method Clear() returns (o: Outcome)
      ensures o == Fail(UnsupportedOperation)
    {
      o := Fail(UnsupportedOperation);
    }

    /** `clone`: a new entry set holding the same entries (the entries themselves are shared). */
    method Clone() returns (c: SerializableUnmodifiableEntrySet<K, V>)
      requires Valid()
      ensures fresh(c) && c != this && c.Valid() && c.elements == elements
    {
      c := new SerializableUnmodifiableEntrySet(elements);
    }

    /** `toArray()`: the backing set's array, each slot replaced by a snapshot of its entry. */
    method ToArray() returns (result: array<Slot<K, V>>)
      ensures fresh(result)
      ensures result[..] == SnapshotSlots(elements)
    {
      result := new Slot<K, V>[|elements|](i requires 0 <= i < |elements| reads this => Live(elements[i]));
      var i := 0;
      while i < result.Length
        invariant 0 <= i <= result.Length == |elements|
        invariant forall j :: 0 <= j < i ==> result[j] == Snapshot(FromEntry(elements[j]))
        invariant forall j :: i <= j < result.Length ==> result[j] == Live(elements[j])
      {
        var w := WrapSlot(result[i]);
        result[i] := w.value;
        i := i + 1;
      }
    }

    /**
      `AbstractCollection.toArray(T[])`, which `HashSet` inherits: an array at least as long as the
      set receives the entries at its front and, when there is room, a null right after them; a
      shorter one is left alone and a new array of exactly the entries is returned.
      The platform fills the array through `iterator()`, which this class overrides, so its slots
      already hold snapshots where the model puts the live entries. The array `toArray(T[])` ends
      with is the same either way: a snapshot of a snapshot is an equal snapshot
      (`UnmodifiableEntry.SnapshotRoundTrip`).
    */
    method SuperToArray(pArray: array<Slot<K, V>>) returns (result: array<Slot<K, V>>)
      modifies pArray
      ensures result.Length == if pArray.Length < |elements| then |elements| else pArray.Length
      ensures result[..|elements|] == LiveSlots(elements)
      ensures pArray.Length >= |elements| ==> result == pArray
      ensures pArray.Length > |elements| ==> result[|elements|] == NullRef
      ensures pArray.Length > |elements| ==> result[|elements| + 1..] == old(pArray[|elements| + 1..])
      ensures pArray.Length < |elements| ==> fresh(result) && pArray[..] == old(pArray[..])
    {
      if pArray.Length < |elements| {
        result := new Slot<K, V>[|elements|](i requires 0 <= i < |elements| reads this => Live(elements[i]));
      } else {
        var j := 0;
        while j < pArray.Length
          invariant 0 <= j <= pArray.Length
          invariant forall k :: 0 <= k < j && k < |elements| ==> pArray[k] == Live(elements[k])
          invariant j > |elements| ==> pArray[|elements|] == NullRef
          invariant forall k :: j <= k < pArray.Length || |elements| < k < pArray.Length ==> pArray[k] == old(pArray[k])
        {
          if j < |elements| {
            pArray[j] := Live(elements[j]);
          } else if j == |elements| {
            pArray[j] := NullRef;
          }
          j := j + 1;
        }
        result := pArray;
      }
    }

    /**
      `toArray(T[])` as written: after the platform step, every slot of the result is wrapped, up to
      its length. When `pArray` is longer than the set, the loop reaches the null the platform wrote
      after the entries and fails with `NullPointerException`, leaving the slots before it wrapped.
    */
    method ToArrayInto(pArray: array<Slot<K, V>>) returns (r: Result<array<Slot<K, V>>>)
      modifies pArray
      ensures pArray.Length <= |elements| ==> r.Success? && r.value[..] == SnapshotSlots(elements)
      ensures pArray.Length == |elements| ==> r == Success(pArray)
      ensures pArray.Length < |elements| ==> r.Success? && fresh(r.value) && pArray[..] == old(pArray[..])
      ensures pArray.Length > |elements| ==> r == Failure(NullPointer)
      ensures pArray.Length > |elements| ==>
        pArray[..] == SnapshotSlots(elements) + [NullRef] + old(pArray[..])[|elements| + 1..]
    {
      var result := SuperToArray(pArray);
      ghost var start := result[..];
      FirstNullAfterEntries(start, elements);
      assert start[..result.Length] == start;
      var o := WrapSlots(result, result.Length);
      if o.Fail? {
        r := Failure(o.error);
        WrappedUpToNull(start, result[..], elements, old(pArray[..]));
      } else {
        r := Success(result);
        WrappedEntries(start, result[..], elements);
        assert result[..][..|elements|] == result[..];
      }
    }

    /**
      `toArray(T[])` wrapping only the slots that hold entries: the result is that of
      `Collection.toArray(T[])` with every entry replaced by its snapshot, and the null marking the
      end stays where the platform put it.
    */
    method ToArrayIntoCorrected(pArray: array<Slot<K, V>>) returns (result: array<Slot<K, V>>)
      modifies pArray
      ensures result.Length == if pArray.Length < |elements| then |elements| else pArray.Length
      ensures result[..|elements|] == SnapshotSlots(elements)
      ensures pArray.Length >= |elements| ==> result == pArray
      ensures pArray.Length > |elements| ==>
        result[|elements|..] == [NullRef] + old(pArray[..])[|elements| + 1..]
      ensures pArray.Length < |elements| ==> fresh(result) && pArray[..] == old(pArray[..])
    {
      result := SuperToArray(pArray);
      ghost var start := result[..];
      assert start[..|elements|] == LiveSlots(elements);
      assert FirstNull(start[..|elements|]) == |elements|;
      var o := WrapSlots(result, |elements|);
      assert forall k :: 0 <= k < |elements| ==> start[k] == start[..|elements|][k];
      assert pArray.Length > |elements| ==> result[|elements|..] == start[|elements|..];
    }
  }

  /** The index of the first null slot, or the length when there is none. */
  function FirstNull<K(==), V(==)>(s: seq<Slot<K, V>>): (n: nat)
    ensures n <= |s|
    ensures forall k :: 0 <= k < n ==> s[k] != NullRef
    ensures n < |s| ==> s[n] == NullRef
  {
    if s == [] || s[0] == NullRef then 0 else 1 + FirstNull(s[1..])
  }

  /** After the platform step the first null slot is the one right after the entries, if any. */
  lemma FirstNullAfterEntries<K, V>(start: seq<Slot<K, V>>, es: seq<MapEntry<K, V>>)
    requires |es| <= |start| && start[..|es|] == LiveSlots(es)
    requires |es| < |start| ==> start[|es|] == NullRef
    ensures FirstNull(start) == |es|
  {
  }

  /** Wrapping the slots that hold the live entries turns them into the entries' snapshots. */
  lemma WrappedEntries<K, V>(start: seq<Slot<K, V>>, after: seq<Slot<K, V>>, es: seq<MapEntry<K, V>>)
    requires |es| <= |start| == |after| && start[..|es|] == LiveSlots(es)
    requires forall k :: 0 <= k < |es| ==> after[k] == Wrapped(start[k])
    ensures after[..|es|] == SnapshotSlots(es)
  {
    forall k | 0 <= k < |es| ensures after[..|es|][k] == SnapshotSlots(es)[k] {
      assert start[k] == start[..|es|][k];
    }
  }

  /**
    Wrapping the slots of a longer array up to the null after the entries: the entries become
    snapshots and the null and the slots after it are left as they were.
  */
  lemma WrappedUpToNull<K, V>(start: seq<Slot<K, V>>, after: seq<Slot<K, V>>, es: seq<MapEntry<K, V>>,
                              given: seq<Slot<K, V>>)
    requires |start| == |after| == |given| > |es| && start[..|es|] == LiveSlots(es)
    requires start[|es|] == NullRef && start[|es| + 1..] == given[|es| + 1..]
    requires forall k :: 0 <= k < |es| ==> after[k] == Wrapped(start[k])
    requires forall k :: |es| <= k < |after| ==> after[k] == start[k]
    ensures after == SnapshotSlots(es) + [NullRef] + given[|es| + 1..]
  {
    WrappedEntries(start, after, es);
    TailUnchanged(start, after, given, |es|);
    SplitAround(after, |es|);
  }

  /** Slots from index `n` on that were left alone still agree with `given` after `n`. */
  lemma TailUnchanged<T>(start: seq<T>, after: seq<T>, given: seq<T>, n: nat)
    requires |start| == |after| == |given| > n && start[n + 1..] == given[n + 1..]
    requires forall k :: n <= k < |after| ==> after[k] == start[k]
    ensures after[n] == start[n] && after[n + 1..] == given[n + 1..]
  {
    assert after[n + 1..] == start[n + 1..];
  }

  /** A sequence is its part before an index, the slot at the index, and its part after it. */
  lemma SplitAround<T>(s: seq<T>, n: nat)
    requires n < |s|
    ensures s == s[..n] + [s[n]] + s[n + 1..]
  {
  }

  /** A slot after the snapshot constructor has been applied to it. */
  function Wrapped<K(==), V(==)>(x: Slot<K, V>): Slot<K, V> {
    if x.Live? then Snapshot(FromEntry(x.entry)) else x
  }

  /**
    The loop of `toArray` over the first `n` slots of `a`: each slot is replaced by its snapshot in
    turn, until a null slot throws `NullPointerException`; the slots from there on are untouched.
  */
  method WrapSlots<K(==), V(==)>(a: array<Slot<K, V>>, n: nat) returns (o: Outcome)
    requires n <= a.Length
    modifies a
    ensures o == if FirstNull(old(a[..n])) == n then Pass else Fail(NullPointer)
    ensures forall k :: 0 <= k < FirstNull(old(a[..n])) ==> a[k] == Wrapped(old(a[k]))
    ensures forall k :: FirstNull(old(a[..n])) <= k < a.Length ==> a[k] == old(a[k])
  {
    ghost var start := a[..];
    ghost var stop := FirstNull(start[..n]);
    var i := 0;
    while i < n
      invariant 0 <= i <= stop
      invariant forall k :: 0 <= k < i ==> a[k] == Wrapped(start[k])
      invariant forall k :: i <= k < a.Length ==> a[k] == start[k]
    {
      assert start[i] == start[..n][i];
      var w := WrapSlot(a[i]);
      if w.Failure? {
        return Fail(w.error);
      }
      a[i] := w.value;
      i := i + 1;
    }
    o := Pass;
  }

  /** The iterator the entry set hands out: each `next` is a fresh snapshot of the backing entry. */
  class SnapshotIterator<K(==), V(==)> {
    const superIter: Iterators.BackingIterator<MapEntry<K, V>>

    constructor (pIter: Iterators.BackingIterator<MapEntry<K, V>>)
      ensures superIter == pIter
    {
      superIter := pIter;
    }

    function HasNext(): (b: bool)
      reads this, superIter
      requires superIter.Valid()
      ensures b <==> superIter.Remaining() != []
    {
      superIter.HasNext()
    }

    method Next() returns (r: Result<SerializableUnmodifiableEntry<K, V>>)
      requires superIter.Valid()
      modifies superIter
      ensures superIter.Valid()
      ensures old(superIter.HasNext()) ==>
        r == Success(FromEntry(old(superIter.Remaining())[0])) && superIter.Remaining() == old(superIter.Remaining())[1..]
      ensures !old(superIter.HasNext()) ==> r == Failure(NoSuchElement) && superIter.cursor == old(superIter.cursor)
    {
      var e := superIter.Next();
      match e
      case Success(entry) => r := Success(FromEntry(entry));
      case Failure(err) => r := Failure(err);
    }

    method Remove() returns (o: Outcome)
      ensures o == Fail(UnsupportedOperation)
    {
      o := Fail(UnsupportedOperation);
    }
  }

  /** Iterating an entry set to the end hands out one snapshot per stored entry, in order. */
  method IterateSnapshots<K(==), V(==)>(es: SerializableUnmodifiableEntrySet<K, V>) returns (passed: seq<SerializableUnmodifiableEntry<K, V>>)
    ensures passed == Snapshots(es.elements)
  {
    var it := es.Iterator();
    passed := [];
    while it.HasNext()
      invariant it.superIter.Valid() && it.superIter.elems == es.elements
      invariant |passed| == it.superIter.cursor
      invariant forall k :: 0 <= k < |passed| ==> passed[k] == FromEntry(es.elements[k])
      decreases |es.elements| - it.superIter.cursor
    {
      var r := it.Next();
      passed := passed + [r.value];
    }
  }

  /** The entry `1=2` as a platform map reports it (the hash of an `Integer` is its value). */
  function SampleEntry(): MapEntry<int, int> {
    MapEntry(NonNull(1), NonNull(2), 1 ^ 2, "1=2")
  }

  /** `toArray(T[])` as written, handed a two-slot array by a set of one entry, throws. */
  method ToArrayIntoLongerArray() returns (r: Result<array<Slot<int, int>>>)
    ensures r == Failure(NullPointer)
  {
    var es := new SerializableUnmodifiableEntrySet([SampleEntry()]);
    var given := new Slot<int, int>[2](_ => NullRef);
    r := es.ToArrayInto(given);
  }

  /** The corrected `toArray(T[])` on the same input: the snapshot, then the terminating null. */
  method ToArrayIntoLongerArrayCorrected() returns (slots: seq<Slot<int, int>>)
    ensures slots == [Snapshot(FromEntry(SampleEntry())), NullRef]
  {
    var es := new SerializableUnmodifiableEntrySet([SampleEntry()]);
    var given := new Slot<int, int>[2](_ => NullRef);
    var result := es.ToArrayIntoCorrected(given);
    slots := result[..];
    assert slots == result[..1] + result[1..];
  }
}

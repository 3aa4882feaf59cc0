# sercoll in Dafny

A model of the serializable collections library `sercoll`. It covers these containers and their behaviour:

- Mutable containers that delegate to the platform container:
  - the array list, hash set and hash map;
  - the enum map;
  - the tree set and tree map.
- Unmodifiable containers, filled once and then frozen:
  - the unmodifiable array list, hash set and tree set;
  - the unmodifiable hash map, with its lazily cached key set, value list and entry set;
  - the unmodifiable entry set, and the value snapshot of a map entry.
- The iterator wrappers that refuse every mutation.
- The `SerializableCollections` factory methods.

## State and failure

- Each mutable Java class is a Dafny `class`, and the immutable entry snapshot `SerializableUnmodifiableEntry` is a `datatype`. The mutable Java state is in `var` fields:
  - a hash-backed container keeps a duplicate-free `seq`, in iteration order;
  - a tree-backed container keeps a `seq` strictly sorted by the comparator in force;
  - a map keeps a key `seq` beside a `map`.
- A Java exception is a `Failure(e)` of `Result`, or a `Fail(e)` of `Outcome` for a `void` method.
  - A constructor that can throw is a `static method` returning a `Result`.
  - A constructor that cannot throw is a Dafny `constructor`.
- `null` is modelled as `Nullable` where the source checks for it or passes it on. Examples: the source collection of a copy constructor, a map entry's key and value, and the varargs array of `asList`.
- Java's `compareTo` becomes a `natural: (E, E) -> int` dictionary, fixed when the tree container is created.
  - `IsComparator` is the contract of `java.util.Comparator` (total, antisymmetric, transitive), strengthened by consistency with equals. `java.util.Comparator` only recommends that last part; `TreeSet` and `TreeMap` need it to keep the `Set` and `Map` contracts. "## Left out" records that comparators inconsistent with equals are not modelled.
  - `Ordering.StringOrderIsComparator` proves that the model of `String.compareTo` meets that contract.
- `hashCode` and `toString` of the key and value types are `ObjectMethods` dictionaries, held by the unmodifiable hash map.

## Model

| member | source | states |
|---|---|---|
| UnmodifiableEntry.FromEntry | src/main/java/com/thomasjensen/sercoll/SerializableUnmodifiableEntry.java:46-52 | the snapshot reports the key, the value, the hash code and the text of the entry it was taken from |
| UnmodifiableEntry.SnapshotRoundTrip | src/main/java/com/thomasjensen/sercoll/SerializableUnmodifiableEntry.java:36-52 | taking a snapshot and viewing it as a `Map.Entry` lose nothing, in either order |
| UnmodifiableEntry.SnapshotOfEntry | src/main/java/com/thomasjensen/sercoll/SerializableUnmodifiableEntry.java:46-99 | a snapshot equals another entry exactly when that entry has the source's key and value |
| UnmodifiableEntry.SnapshotOfNode | src/main/java/com/thomasjensen/sercoll/SerializableUnmodifiableEntry.java:46-52 | a snapshot of a platform map entry has hash key-hash xor value-hash and text `key=value`; a null key with a null value hashes to 0 |
| UnmodifiableEntry.Eq | src/main/java/com/thomasjensen/sercoll/SerializableUnmodifiableEntry.java:103-106 | null matches only null; anything else matches an equal value |
| UnmodifiableEntry.SerializableUnmodifiableEntry.SetValue | src/main/java/com/thomasjensen/sercoll/SerializableUnmodifiableEntry.java:73-76 | always fails with UnsupportedOperationException |
| UnmodifiableEntry.SerializableUnmodifiableEntry.Equals | src/main/java/com/thomasjensen/sercoll/SerializableUnmodifiableEntry.java:92-99 | true exactly for a `Map.Entry` with an equal key and an equal value; false for any other class |
| UnmodifiableEntry.EqualsSymmetric | src/main/java/com/thomasjensen/sercoll/SerializableUnmodifiableEntry.java:92-99 | equality between two snapshots is symmetric |
| UnmodifiableEntry.SerializableUnmodifiableEntry.Clone | src/main/java/com/thomasjensen/sercoll/SerializableUnmodifiableEntry.java:120-131 | the clone agrees with the original in key, value, hash code and text, and is equal to it |
| UnmodifiableEntry.SerializableUnmodifiableEntry.AsEntry | src/main/java/com/thomasjensen/sercoll/SerializableUnmodifiableEntry.java:57-84 | seen as a `Map.Entry`, the snapshot reports its four stored fields |
| Iterators.UnmodifiableIterator.constructor | src/main/java/com/thomasjensen/sercoll/UnmodifiableIterator.java:41-44 | wraps the given iterator |
| Iterators.UnmodifiableIterator.HasNext | src/main/java/com/thomasjensen/sercoll/UnmodifiableIterator.java:49-52 | true exactly when elements remain in the wrapped iterator |
| Iterators.UnmodifiableIterator.Next | src/main/java/com/thomasjensen/sercoll/UnmodifiableIterator.java:57-60 | passes the next element of the wrapped iterator; at the end it fails with NoSuchElementException and the cursor stays |
| Iterators.UnmodifiableIterator.Remove | src/main/java/com/thomasjensen/sercoll/UnmodifiableIterator.java:65-68 | always fails with UnsupportedOperationException |
| Iterators.IterateToEnd | src/main/java/com/thomasjensen/sercoll/UnmodifiableIterator.java:41-60 | iterating to the end yields the backing sequence, in order |
| Iterators.UnmodifiableListIterator.Create | src/main/java/com/thomasjensen/sercoll/UnmodifiableListIterator.java:44-50 | fails with IllegalArgumentException exactly for a null iterator; otherwise wraps the iterator |
| Iterators.UnmodifiableListIterator.HasNext | src/main/java/com/thomasjensen/sercoll/UnmodifiableListIterator.java:55-58 | true exactly when the cursor is before the end |
| Iterators.UnmodifiableListIterator.Next | src/main/java/com/thomasjensen/sercoll/UnmodifiableListIterator.java:63-66 | returns the element after the cursor and advances; at the end it fails with NoSuchElementException |
| Iterators.UnmodifiableListIterator.HasPrevious | src/main/java/com/thomasjensen/sercoll/UnmodifiableListIterator.java:71-74 | true exactly when the cursor is after the start |
| Iterators.UnmodifiableListIterator.Previous | src/main/java/com/thomasjensen/sercoll/UnmodifiableListIterator.java:79-82 | returns the element before the cursor and steps back; at the start it fails with NoSuchElementException |
| Iterators.UnmodifiableListIterator.NextIndex | src/main/java/com/thomasjensen/sercoll/UnmodifiableListIterator.java:87-90 | the cursor position |
| Iterators.UnmodifiableListIterator.PreviousIndex | src/main/java/com/thomasjensen/sercoll/UnmodifiableListIterator.java:95-98 | one less than the cursor position |
| Iterators.UnmodifiableListIterator.Remove | src/main/java/com/thomasjensen/sercoll/UnmodifiableListIterator.java:103-106 | always fails with UnsupportedOperationException |
| Iterators.UnmodifiableListIterator.Set | src/main/java/com/thomasjensen/sercoll/UnmodifiableListIterator.java:111-114 | always fails with UnsupportedOperationException |
| Iterators.UnmodifiableListIterator.Add | src/main/java/com/thomasjensen/sercoll/UnmodifiableListIterator.java:119-122 | always fails with UnsupportedOperationException |
| Iterators.IterateBackward | src/main/java/com/thomasjensen/sercoll/UnmodifiableListIterator.java:71-98 | walking back from the end yields the list reversed, and ends at previous index -1 |
| ArrayList.SubListCheck | src/main/java/com/thomasjensen/sercoll/impl/SerializableArrayList.java:79-82 | the range check of `subList`: it passes exactly when 0 <= from <= to <= size, and fails with IllegalArgumentException exactly when the bounds are in range but reversed |
| ArrayList.SerializableArrayList.constructor | src/main/java/com/thomasjensen/sercoll/impl/SerializableArrayList.java:43-46 | the new list is empty |
| ArrayList.SerializableArrayList.WithCapacity | src/main/java/com/thomasjensen/sercoll/impl/SerializableArrayList.java:56-59 | fails with IllegalArgumentException exactly for a negative capacity; otherwise the list is empty |
| ArrayList.SerializableArrayList.Copy | src/main/java/com/thomasjensen/sercoll/impl/SerializableArrayList.java:70-73 | the list holds the source's elements in order |
| ArrayList.SerializableArrayList.FromCollection | src/main/java/com/thomasjensen/sercoll/impl/SerializableArrayList.java:70-73 | fails with NullPointerException exactly for a null source; otherwise copies it |
| ArrayList.SerializableArrayList.SubList | src/main/java/com/thomasjensen/sercoll/impl/SerializableArrayList.java:79-82 | fails exactly when the range check fails, with its exception; otherwise a fresh list of the elements in [from, to) |
| ArrayList.SerializableArrayList.Clone | src/main/java/com/thomasjensen/sercoll/impl/SerializableArrayList.java:89-92 | a fresh list with the same elements |
| ArrayList.SerializableArrayList.Add | src/main/java/com/thomasjensen/sercoll/SerializableCollections.java:60-67 | inherited `ArrayList.add`, used through `Collections.addAll` at :64: appends the element and reports a change |
| ArrayList.SerializableArrayList.Set | src/main/java/com/thomasjensen/sercoll/impl/SerializableArrayList.java:79-82 | inherited `ArrayList.set`; used on the list and its sub-list copy in the detachment scenario: replaces the element at an index inside the list and returns the old one, and fails with IndexOutOfBoundsException outside it, leaving the list as it was |
| ArrayList.SubListIsDetached | src/main/java/com/thomasjensen/sercoll/impl/SerializableArrayList.java:79-82 | a sub-list is a copy: changing the original or the sub-list leaves the other unchanged |
| UnmodifiableArrayList.SerializableUnmodifiableArrayList.Empty | src/main/java/com/thomasjensen/sercoll/impl/SerializableUnmodifiableArrayList.java:45-48 | the list is empty |
| UnmodifiableArrayList.SerializableUnmodifiableArrayList.Singleton | src/main/java/com/thomasjensen/sercoll/impl/SerializableUnmodifiableArrayList.java:57-61 | the list holds exactly the one item |
| UnmodifiableArrayList.SerializableUnmodifiableArrayList.constructor | src/main/java/com/thomasjensen/sercoll/impl/SerializableUnmodifiableArrayList.java:72-75 | the list holds the source's elements in order |
| UnmodifiableArrayList.SerializableUnmodifiableArrayList.FromCollection | src/main/java/com/thomasjensen/sercoll/impl/SerializableUnmodifiableArrayList.java:72-75 | fails with NullPointerException exactly for a null source; otherwise copies it |
| UnmodifiableArrayList.SerializableUnmodifiableArrayList.Set | src/main/java/com/thomasjensen/sercoll/impl/SerializableUnmodifiableArrayList.java:90-93 | always fails with UnsupportedOperationException |
| UnmodifiableArrayList.SerializableUnmodifiableArrayList.Add | src/main/java/com/thomasjensen/sercoll/impl/SerializableUnmodifiableArrayList.java:106-109 | always fails with UnsupportedOperationException |
| UnmodifiableArrayList.SerializableUnmodifiableArrayList.AddAt | src/main/java/com/thomasjensen/sercoll/impl/SerializableUnmodifiableArrayList.java:122-125 | always fails with UnsupportedOperationException |
| UnmodifiableArrayList.SerializableUnmodifiableArrayList.RemoveAt | src/main/java/com/thomasjensen/sercoll/impl/SerializableUnmodifiableArrayList.java:139-142 | always fails with UnsupportedOperationException |
| UnmodifiableArrayList.SerializableUnmodifiableArrayList.Remove | src/main/java/com/thomasjensen/sercoll/impl/SerializableUnmodifiableArrayList.java:155-158 | always fails with UnsupportedOperationException |
| UnmodifiableArrayList.SerializableUnmodifiableArrayList.Clear | src/main/java/com/thomasjensen/sercoll/impl/SerializableUnmodifiableArrayList.java:168-171 | always fails with UnsupportedOperationException |
| UnmodifiableArrayList.SerializableUnmodifiableArrayList.AddAll | src/main/java/com/thomasjensen/sercoll/impl/SerializableUnmodifiableArrayList.java:184-187 | always fails with UnsupportedOperationException |
| UnmodifiableArrayList.SerializableUnmodifiableArrayList.AddAllAt | src/main/java/com/thomasjensen/sercoll/impl/SerializableUnmodifiableArrayList.java:201-204 | always fails with UnsupportedOperationException |
| UnmodifiableArrayList.SerializableUnmodifiableArrayList.RemoveRange | src/main/java/com/thomasjensen/sercoll/impl/SerializableUnmodifiableArrayList.java:216-219 | always fails with UnsupportedOperationException |
| UnmodifiableArrayList.SerializableUnmodifiableArrayList.RemoveAll | src/main/java/com/thomasjensen/sercoll/impl/SerializableUnmodifiableArrayList.java:231-234 | always fails with UnsupportedOperationException |
| UnmodifiableArrayList.SerializableUnmodifiableArrayList.ListIterator | src/main/java/com/thomasjensen/sercoll/impl/SerializableUnmodifiableArrayList.java:240-243 | a fresh unmodifiable list iterator over the elements, at position 0 |
| UnmodifiableArrayList.SerializableUnmodifiableArrayList.ListIteratorAt | src/main/java/com/thomasjensen/sercoll/impl/SerializableUnmodifiableArrayList.java:249-252 | fails with IndexOutOfBoundsException exactly when the index is outside 0..size; otherwise an unmodifiable list iterator at that index |
| UnmodifiableArrayList.SerializableUnmodifiableArrayList.SubList | src/main/java/com/thomasjensen/sercoll/impl/SerializableUnmodifiableArrayList.java:258-261 | fails exactly as the platform range check does; otherwise a fresh unmodifiable list of the elements in [from, to) |
| UnmodifiableArrayList.SerializableUnmodifiableArrayList.Clone | src/main/java/com/thomasjensen/sercoll/impl/SerializableUnmodifiableArrayList.java:268-271 | a different, fresh list with the same elements |
| UnmodifiableHashSet.SerializableUnmodifiableHashSet.Empty | src/main/java/com/thomasjensen/sercoll/SerializableUnmodifiableHashSet.java:42-45 | the set is empty |
| UnmodifiableHashSet.SerializableUnmodifiableHashSet.Singleton | src/main/java/com/thomasjensen/sercoll/SerializableUnmodifiableHashSet.java:54-58 | the set holds exactly the one item |
| UnmodifiableHashSet.SerializableUnmodifiableHashSet.constructor | src/main/java/com/thomasjensen/sercoll/SerializableUnmodifiableHashSet.java:67-73 | the set holds every distinct element of the source once, in first-occurrence order, and no other |
| UnmodifiableHashSet.SerializableUnmodifiableHashSet.FromCollection | src/main/java/com/thomasjensen/sercoll/SerializableUnmodifiableHashSet.java:67-73 | fails with NullPointerException exactly for a null source; otherwise the deduplicated copy |
| UnmodifiableHashSet.SerializableUnmodifiableHashSet.Iterator | src/main/java/com/thomasjensen/sercoll/SerializableUnmodifiableHashSet.java:78-81 | a fresh unmodifiable iterator over the elements, from the start |
| UnmodifiableHashSet.SerializableUnmodifiableHashSet.Add | src/main/java/com/thomasjensen/sercoll/SerializableUnmodifiableHashSet.java:86-89 | always fails with UnsupportedOperationException |
| UnmodifiableHashSet.SerializableUnmodifiableHashSet.Remove | src/main/java/com/thomasjensen/sercoll/SerializableUnmodifiableHashSet.java:94-97 | always fails with UnsupportedOperationException |
| UnmodifiableHashSet.SerializableUnmodifiableHashSet.Clear | src/main/java/com/thomasjensen/sercoll/SerializableUnmodifiableHashSet.java:102-105 | always fails with UnsupportedOperationException |
| UnmodifiableHashSet.SerializableUnmodifiableHashSet.RemoveAll | src/main/java/com/thomasjensen/sercoll/SerializableUnmodifiableHashSet.java:110-113 | always fails with UnsupportedOperationException |
| UnmodifiableHashSet.SerializableUnmodifiableHashSet.AddAll | src/main/java/com/thomasjensen/sercoll/SerializableUnmodifiableHashSet.java:118-121 | always fails with UnsupportedOperationException |
| UnmodifiableHashSet.SerializableUnmodifiableHashSet.RetainAll | src/main/java/com/thomasjensen/sercoll/SerializableUnmodifiableHashSet.java:126-129 | always fails with UnsupportedOperationException |
| UnmodifiableHashSet.SerializableUnmodifiableHashSet.Clone | src/main/java/com/thomasjensen/sercoll/SerializableUnmodifiableHashSet.java:135-138 | a fresh set with the same elements in the same order |
| UnmodifiableTreeSet.SerializableUnmodifiableTreeSet.Empty | src/main/java/com/thomasjensen/sercoll/SerializableUnmodifiableTreeSet.java:46-49 | an empty set in natural order |
| UnmodifiableTreeSet.SerializableUnmodifiableTreeSet.Singleton | src/main/java/com/thomasjensen/sercoll/SerializableUnmodifiableTreeSet.java:58-62 | a set in natural order holding exactly the one item |
| UnmodifiableTreeSet.SerializableUnmodifiableTreeSet.FromCollection | src/main/java/com/thomasjensen/sercoll/SerializableUnmodifiableTreeSet.java:72-75 | as written, it always fails with UnsupportedOperationException, because the constructor ends in the overridden `addAll` |
| UnmodifiableTreeSet.SerializableUnmodifiableTreeSet.FromSortedSet | src/main/java/com/thomasjensen/sercoll/SerializableUnmodifiableTreeSet.java:85-89 | as written, it always fails with UnsupportedOperationException, because the constructor ends in the overridden `addAll` |
| UnmodifiableTreeSet.SerializableUnmodifiableTreeSet.FromCollectionCorrected | src/main/java/com/thomasjensen/sercoll/SerializableUnmodifiableTreeSet.java:72-75 | corrected: a naturally ordered, sorted set whose elements are exactly those of the source |
| UnmodifiableTreeSet.SerializableUnmodifiableTreeSet.FromSortedSetCorrected | src/main/java/com/thomasjensen/sercoll/SerializableUnmodifiableTreeSet.java:85-89 | corrected: keeps the source's comparator and its elements in the same order |
| UnmodifiableTreeSet.InsertAtEnd | src/main/java/com/thomasjensen/sercoll/SerializableUnmodifiableTreeSet.java:85-89 | copying a sorted source one element at a time appends each element at the end, so the copy keeps the source's order |
| UnmodifiableTreeSet.SerializableUnmodifiableTreeSet.Iterator | src/main/java/com/thomasjensen/sercoll/SerializableUnmodifiableTreeSet.java:94-97 | a fresh unmodifiable iterator over the elements in ascending order |
| UnmodifiableTreeSet.SerializableUnmodifiableTreeSet.DescendingIterator | src/main/java/com/thomasjensen/sercoll/SerializableUnmodifiableTreeSet.java:204-207 | a fresh unmodifiable iterator over the elements in descending order |
| UnmodifiableTreeSet.SerializableUnmodifiableTreeSet.Add | src/main/java/com/thomasjensen/sercoll/SerializableUnmodifiableTreeSet.java:110-113 | always fails with UnsupportedOperationException |
| UnmodifiableTreeSet.SerializableUnmodifiableTreeSet.Remove | src/main/java/com/thomasjensen/sercoll/SerializableUnmodifiableTreeSet.java:126-129 | always fails with UnsupportedOperationException |
| UnmodifiableTreeSet.SerializableUnmodifiableTreeSet.Clear | src/main/java/com/thomasjensen/sercoll/SerializableUnmodifiableTreeSet.java:139-142 | always fails with UnsupportedOperationException |
| UnmodifiableTreeSet.SerializableUnmodifiableTreeSet.RemoveAll | src/main/java/com/thomasjensen/sercoll/SerializableUnmodifiableTreeSet.java:155-158 | always fails with UnsupportedOperationException |
| UnmodifiableTreeSet.SerializableUnmodifiableTreeSet.AddAll | src/main/java/com/thomasjensen/sercoll/SerializableUnmodifiableTreeSet.java:171-174 | always fails with UnsupportedOperationException |
| UnmodifiableTreeSet.SerializableUnmodifiableTreeSet.RetainAll | src/main/java/com/thomasjensen/sercoll/SerializableUnmodifiableTreeSet.java:187-190 | always fails with UnsupportedOperationException |
| UnmodifiableTreeSet.SerializableUnmodifiableTreeSet.Clone | src/main/java/com/thomasjensen/sercoll/SerializableUnmodifiableTreeSet.java:196-199 | a fresh set with the same comparator and the same elements in the same order |
| UnmodifiableTreeSet.SerializableUnmodifiableTreeSet.DescendingSet | src/main/java/com/thomasjensen/sercoll/SerializableUnmodifiableTreeSet.java:212-215 | fails with UnsupportedOperationException, from the copy constructor it calls |
| UnmodifiableTreeSet.SerializableUnmodifiableTreeSet.SubSet | src/main/java/com/thomasjensen/sercoll/SerializableUnmodifiableTreeSet.java:220-225 | fails with IllegalArgumentException for bounds in the wrong order, and with UnsupportedOperationException from the copy constructor otherwise |
| UnmodifiableTreeSet.SerializableUnmodifiableTreeSet.HeadSet | src/main/java/com/thomasjensen/sercoll/SerializableUnmodifiableTreeSet.java:230-233 | fails with UnsupportedOperationException, from the copy constructor |
| UnmodifiableTreeSet.SerializableUnmodifiableTreeSet.TailSet | src/main/java/com/thomasjensen/sercoll/SerializableUnmodifiableTreeSet.java:238-241 | fails with UnsupportedOperationException, from the copy constructor |
| UnmodifiableTreeSet.SerializableUnmodifiableTreeSet.SubSetHalfOpen | src/main/java/com/thomasjensen/sercoll/SerializableUnmodifiableTreeSet.java:246-249 | as the four-argument `subSet`: IllegalArgumentException for reversed bounds, UnsupportedOperationException otherwise |
| UnmodifiableTreeSet.SerializableUnmodifiableTreeSet.HeadSetExclusive | src/main/java/com/thomasjensen/sercoll/SerializableUnmodifiableTreeSet.java:254-257 | fails with UnsupportedOperationException |
| UnmodifiableTreeSet.SerializableUnmodifiableTreeSet.TailSetInclusive | src/main/java/com/thomasjensen/sercoll/SerializableUnmodifiableTreeSet.java:262-265 | fails with UnsupportedOperationException |
| UnmodifiableTreeSet.SerializableUnmodifiableTreeSet.Comparator | src/main/java/com/thomasjensen/sercoll/SerializableUnmodifiableTreeSet.java:270-273 | null exactly when the set is in natural order; otherwise the comparator that orders the set |
| UnmodifiableEntrySet.WrapSlot | src/main/java/com/thomasjensen/sercoll/SerializableUnmodifiableEntrySet.java:121-128 | wrapping a null slot throws NullPointerException; a live entry becomes its snapshot |
| UnmodifiableEntrySet.SerializableUnmodifiableEntrySet.Empty | src/main/java/com/thomasjensen/sercoll/SerializableUnmodifiableEntrySet.java:46-49 | the entry set is empty |
| UnmodifiableEntrySet.SerializableUnmodifiableEntrySet.constructor | src/main/java/com/thomasjensen/sercoll/SerializableUnmodifiableEntrySet.java:62-68 | the entry set holds the source's entries in their order |
| UnmodifiableEntrySet.SerializableUnmodifiableEntrySet.Iterator | src/main/java/com/thomasjensen/sercoll/SerializableUnmodifiableEntrySet.java:73-100 | a fresh snapshot iterator over the entries, from the start |
| UnmodifiableEntrySet.SnapshotIterator.HasNext | src/main/java/com/thomasjensen/sercoll/SerializableUnmodifiableEntrySet.java:79-82 | true exactly when entries remain |
| UnmodifiableEntrySet.SnapshotIterator.Next | src/main/java/com/thomasjensen/sercoll/SerializableUnmodifiableEntrySet.java:87-90 | returns a snapshot of the next entry and advances; at the end it fails with NoSuchElementException |
| UnmodifiableEntrySet.SnapshotIterator.Remove | src/main/java/com/thomasjensen/sercoll/SerializableUnmodifiableEntrySet.java:95-98 | always fails with UnsupportedOperationException |
| UnmodifiableEntrySet.IterateSnapshots | src/main/java/com/thomasjensen/sercoll/SerializableUnmodifiableEntrySet.java:73-100 | iterating to the end yields a snapshot of every entry, in order |
| UnmodifiableEntrySet.SerializableUnmodifiableEntrySet.ToArray | src/main/java/com/thomasjensen/sercoll/SerializableUnmodifiableEntrySet.java:107-114 | a fresh array holding a snapshot of every entry, in order |
| UnmodifiableEntrySet.SerializableUnmodifiableEntrySet.SuperToArray | src/main/java/com/thomasjensen/sercoll/SerializableUnmodifiableEntrySet.java:121-128 | inherited `AbstractCollection.toArray(T[])`, called at :123: an array at least as long as the set gets the entries at its front and a null at index size when longer, the rest untouched; a shorter one is left alone and a new array of exactly the entries is returned |
| UnmodifiableEntrySet.SerializableUnmodifiableEntrySet.ToArrayInto | src/main/java/com/thomasjensen/sercoll/SerializableUnmodifiableEntrySet.java:121-128 | as written: snapshots of every entry when the array is not longer than the set; NullPointerException at the null terminator when it is longer |
| UnmodifiableEntrySet.SerializableUnmodifiableEntrySet.ToArrayIntoCorrected | src/main/java/com/thomasjensen/sercoll/SerializableUnmodifiableEntrySet.java:121-128 | corrected: snapshots of every entry, then the null terminator, with the rest of a longer array untouched |
| UnmodifiableEntrySet.WrapSlots | src/main/java/com/thomasjensen/sercoll/SerializableUnmodifiableEntrySet.java:123-127 | the wrapping loop rewrites every slot before the first null and throws NullPointerException there if there is one |
| UnmodifiableEntrySet.ToArrayIntoLongerArray | src/main/java/com/thomasjensen/sercoll/SerializableUnmodifiableEntrySet.java:121-128 | a one-entry set copied into a two-slot array fails with NullPointerException |
| UnmodifiableEntrySet.ToArrayIntoLongerArrayCorrected | src/main/java/com/thomasjensen/sercoll/SerializableUnmodifiableEntrySet.java:121-128 | the corrected copy of the same set gives the snapshot followed by null |
| UnmodifiableEntrySet.SerializableUnmodifiableEntrySet.Add | src/main/java/com/thomasjensen/sercoll/SerializableUnmodifiableEntrySet.java:141-144 | always fails with UnsupportedOperationException |
| UnmodifiableEntrySet.SerializableUnmodifiableEntrySet.Remove | src/main/java/com/thomasjensen/sercoll/SerializableUnmodifiableEntrySet.java:157-160 | always fails with UnsupportedOperationException |
| UnmodifiableEntrySet.SerializableUnmodifiableEntrySet.AddAll | src/main/java/com/thomasjensen/sercoll/SerializableUnmodifiableEntrySet.java:173-176 | always fails with UnsupportedOperationException |
| UnmodifiableEntrySet.SerializableUnmodifiableEntrySet.RetainAll | src/main/java/com/thomasjensen/sercoll/SerializableUnmodifiableEntrySet.java:189-192 | always fails with UnsupportedOperationException |
| UnmodifiableEntrySet.SerializableUnmodifiableEntrySet.RemoveAll | src/main/java/com/thomasjensen/sercoll/SerializableUnmodifiableEntrySet.java:205-208 | always fails with UnsupportedOperationException |
| UnmodifiableEntrySet.SerializableUnmodifiableEntrySet.Clear | src/main/java/com/thomasjensen/sercoll/SerializableUnmodifiableEntrySet.java:218-221 | always fails with UnsupportedOperationException |
| UnmodifiableEntrySet.SerializableUnmodifiableEntrySet.Clone | src/main/java/com/thomasjensen/sercoll/SerializableUnmodifiableEntrySet.java:228-231 | a different, fresh entry set with the same entries |
| UnmodifiableHashMap.EntriesDistinct | src/main/java/com/thomasjensen/sercoll/SerializableUnmodifiableHashMap.java:201-211 | the entries of a map with distinct keys are distinct, so they form an entry set |
| UnmodifiableHashMap.SerializableUnmodifiableHashMap.Empty | src/main/java/com/thomasjensen/sercoll/SerializableUnmodifiableHashMap.java:51-57 | an empty map whose three views are already built |
| UnmodifiableHashMap.SerializableUnmodifiableHashMap.Singleton | src/main/java/com/thomasjensen/sercoll/SerializableUnmodifiableHashMap.java:67-74 | a map of exactly the one key and value, with its three views built |
| UnmodifiableHashMap.SerializableUnmodifiableHashMap.constructor | src/main/java/com/thomasjensen/sercoll/SerializableUnmodifiableHashMap.java:83-89 | the source's keys, in order, and its mappings, with the three views built |
| UnmodifiableHashMap.SerializableUnmodifiableHashMap.FromMap | src/main/java/com/thomasjensen/sercoll/SerializableUnmodifiableHashMap.java:83-89 | fails with NullPointerException exactly for a null source; otherwise copies its keys and mappings |
| UnmodifiableHashMap.SerializableUnmodifiableHashMap.Put | src/main/java/com/thomasjensen/sercoll/SerializableUnmodifiableHashMap.java:94-97 | always fails with UnsupportedOperationException |
| UnmodifiableHashMap.SerializableUnmodifiableHashMap.PutAll | src/main/java/com/thomasjensen/sercoll/SerializableUnmodifiableHashMap.java:102-105 | always fails with UnsupportedOperationException |
| UnmodifiableHashMap.SerializableUnmodifiableHashMap.Remove | src/main/java/com/thomasjensen/sercoll/SerializableUnmodifiableHashMap.java:110-113 | always fails with UnsupportedOperationException |
| UnmodifiableHashMap.SerializableUnmodifiableHashMap.Clear | src/main/java/com/thomasjensen/sercoll/SerializableUnmodifiableHashMap.java:118-121 | always fails with UnsupportedOperationException |
| UnmodifiableHashMap.SerializableUnmodifiableHashMap.Clone | src/main/java/com/thomasjensen/sercoll/SerializableUnmodifiableHashMap.java:127-130 | a different, fresh map with the same contents, sharing the cached views of the original |
| UnmodifiableHashMap.SerializableUnmodifiableHashMap.Deserialized | src/main/java/com/thomasjensen/sercoll/SerializableUnmodifiableHashMap.java:40-44 | the map read back from its serialized form has the same contents and no cached views |
| UnmodifiableHashMap.SerializableUnmodifiableHashMap.KeySet | src/main/java/com/thomasjensen/sercoll/SerializableUnmodifiableHashMap.java:135-141 | returns the cached key set if there is one; otherwise builds it, caches it and returns it. Its elements are the keys in order, and nothing else changes |
| UnmodifiableHashMap.SerializableUnmodifiableHashMap.Values | src/main/java/com/thomasjensen/sercoll/SerializableUnmodifiableHashMap.java:146-152 | returns the cached value list if there is one; otherwise builds it. It holds the value of each key, in key order, and nothing else changes |
| UnmodifiableHashMap.SerializableUnmodifiableHashMap.EntrySet | src/main/java/com/thomasjensen/sercoll/SerializableUnmodifiableHashMap.java:163-169 | returns the cached entry set if there is one; otherwise builds it. It holds one platform entry per key, in key order, and nothing else changes |
| UnmodifiableHashMap.SerializableUnmodifiableHashMap.GetSuperKeySet | src/main/java/com/thomasjensen/sercoll/SerializableUnmodifiableHashMap.java:173-183 | a fresh unmodifiable set of the keys in order |
| UnmodifiableHashMap.SerializableUnmodifiableHashMap.GetSuperValues | src/main/java/com/thomasjensen/sercoll/SerializableUnmodifiableHashMap.java:187-197 | a fresh unmodifiable list of the values in key order |
| UnmodifiableHashMap.SerializableUnmodifiableHashMap.GetSuperEntrySet | src/main/java/com/thomasjensen/sercoll/SerializableUnmodifiableHashMap.java:201-211 | a fresh unmodifiable entry set of the map's entries in key order |
| UnmodifiableHashMap.ViewsSurviveSerialization | src/test/java/com/thomasjensen/sercoll/SerializableUnmodifiableHashMapUTest.java:219-245 | the key set, value list and entry set of a map read back from its serialized form equal those of the original |
| UnmodifiableHashMap.ViewsAreCached | src/main/java/com/thomasjensen/sercoll/SerializableUnmodifiableHashMap.java:135-169 | calling each view twice returns the same object |
| UnmodifiableHashMap.ThreeEntryTestMap | src/test/java/com/thomasjensen/sercoll/SerializableUnmodifiableHashMapUTest.java:44-54 | the test map built from A, B and C has size 3, values argh, argh and cool, and three entries |
| TreeSet.SerializableTreeSet.Empty | src/main/java/com/thomasjensen/sercoll/SerializableTreeSet.java:47-50 | an empty set in natural order |
| TreeSet.SerializableTreeSet.WithComparator | src/main/java/com/thomasjensen/sercoll/SerializableTreeSet.java:85-88 | an empty set ordered by the given comparator, or naturally for null |
| TreeSet.SerializableTreeSet.constructor | src/main/java/com/thomasjensen/sercoll/SerializableTreeSet.java:67-70 | a set in natural order whose elements are exactly those of the source |
| TreeSet.SerializableTreeSet.FromCollection | src/main/java/com/thomasjensen/sercoll/SerializableTreeSet.java:67-70 | fails with NullPointerException exactly for a null source; otherwise the sorted copy |
| TreeSet.SerializableTreeSet.FromSorted | src/main/java/com/thomasjensen/sercoll/SerializableTreeSet.java:101-104 | keeps the source's comparator and its elements in the same order |
| TreeSet.SerializableTreeSet.FromSortedSet | src/main/java/com/thomasjensen/sercoll/SerializableTreeSet.java:101-104 | fails with NullPointerException exactly for a null source; otherwise keeps its comparator and order |
| TreeSet.SerializableTreeSet.Add | src/test/java/com/thomasjensen/sercoll/SerializableTreeSetTest.java:28-36 | inserts in order; reports true exactly when the element was new; a duplicate leaves the set unchanged |
| TreeSet.SerializableTreeSet.AddAll | src/main/java/com/thomasjensen/sercoll/SerializableTreeSet.java:67-70 | the elements become the union with the source; reports true exactly when some source element was new |
| TreeSet.SerializableTreeSet.Clone | src/main/java/com/thomasjensen/sercoll/SerializableTreeSet.java:111-114 | a fresh set with the same comparator and elements |
| TreeSet.SerializableTreeSet.Comparator | src/main/java/com/thomasjensen/sercoll/SerializableTreeSet.java:121-124 | null exactly when the set is in natural order; otherwise the comparator that orders it |
| TreeSet.SerializableTreeSet.DescendingSet | src/main/java/com/thomasjensen/sercoll/SerializableTreeSet.java:130-133 | a fresh set of the same elements in natural order; for a naturally ordered set, the same sequence |
| TreeSet.SerializableTreeSet.SubSet | src/main/java/com/thomasjensen/sercoll/SerializableTreeSet.java:139-143 | fails with IllegalArgumentException exactly for bounds in the wrong order; otherwise a fresh set of exactly the elements within the bounds |
| TreeSet.SerializableTreeSet.HeadSet | src/main/java/com/thomasjensen/sercoll/SerializableTreeSet.java:149-152 | a fresh set of exactly the elements below the bound, inclusive or not |
| TreeSet.SerializableTreeSet.TailSet | src/main/java/com/thomasjensen/sercoll/SerializableTreeSet.java:158-161 | a fresh set of exactly the elements above the bound, inclusive or not |
| TreeSet.SerializableTreeSet.SubSetHalfOpen | src/main/java/com/thomasjensen/sercoll/SerializableTreeSet.java:167-170 | IllegalArgumentException exactly for reversed bounds; otherwise exactly the elements in [from, to) |
| TreeSet.SerializableTreeSet.HeadSetExclusive | src/main/java/com/thomasjensen/sercoll/SerializableTreeSet.java:176-179 | exactly the elements strictly below the bound |
| TreeSet.SerializableTreeSet.TailSetInclusive | src/main/java/com/thomasjensen/sercoll/SerializableTreeSet.java:185-188 | exactly the elements at or above the bound |
| TreeSet.ReverseElems | src/main/java/com/thomasjensen/sercoll/SerializableTreeSet.java:130-133 | the reversed view has the same elements |
| TreeSet.AddDuplicates | src/test/java/com/thomasjensen/sercoll/SerializableTreeSetTest.java:28-36 | adding "Frodo" three times leaves exactly ["Frodo"] |
| TreeSet.AddInAnyOrder | src/test/java/com/thomasjensen/sercoll/SerializableTreeSetTest.java:41-50 | adding four names in any order leaves them in ascending order |
| TreeSet.TailSetIsDetached | src/main/java/com/thomasjensen/sercoll/SerializableTreeSet.java:158-161 | a tail set is a copy: adding to it leaves the original unchanged |
| Ordering.InsertSorted | src/test/java/com/thomasjensen/sercoll/SerializableTreeSetTest.java:41-50 | inserting into a sorted sequence keeps it sorted |
| Ordering.InsertPresent | src/test/java/com/thomasjensen/sercoll/SerializableTreeSetTest.java:28-36 | inserting an element already present changes nothing |
| Ordering.InsertElems | src/test/java/com/thomasjensen/sercoll/SerializableTreeSetTest.java:28-50 | inserting adds exactly the one element |
| Ordering.StringOrderIsComparator | src/test/java/com/thomasjensen/sercoll/SerializableTreeSetTest.java:41-50 | the model of `String.compareTo` is a total order consistent with equals |
| TreeMap.SerializableTreeMap.Empty | src/main/java/com/thomasjensen/sercoll/SerializableTreeMap.java:47-50 | an empty map in natural key order |
| TreeMap.SerializableTreeMap.WithComparator | src/main/java/com/thomasjensen/sercoll/SerializableTreeMap.java:64-67 | an empty map ordered by the given comparator, or naturally for null |
| TreeMap.SerializableTreeMap.constructor | src/main/java/com/thomasjensen/sercoll/SerializableTreeMap.java:82-85 | a map in natural key order with exactly the source's mappings |
| TreeMap.SerializableTreeMap.FromMap | src/main/java/com/thomasjensen/sercoll/SerializableTreeMap.java:82-85 | fails with NullPointerException exactly for a null source; otherwise copies its mappings |
| TreeMap.SerializableTreeMap.FromSorted | src/main/java/com/thomasjensen/sercoll/SerializableTreeMap.java:97-100 | keeps the source's comparator, key order and mappings |
| TreeMap.SerializableTreeMap.FromSortedMap | src/main/java/com/thomasjensen/sercoll/SerializableTreeMap.java:97-100 | fails with NullPointerException exactly for a null source; otherwise keeps its comparator and mappings |
| TreeMap.SerializableTreeMap.Put | src/main/java/com/thomasjensen/sercoll/SerializableTreeMap.java:82-85 | inherited `TreeMap.put`; used by the copy constructor at :82-85 through `putAll`: maps the key to the value, keeps the keys sorted, and returns the previous value or null |
| TreeMap.SerializableTreeMap.PutAll | src/main/java/com/thomasjensen/sercoll/SerializableTreeMap.java:82-85 | inherited `TreeMap.putAll`; used by the copy constructor at :82-85: the mappings become the old ones overridden by the source's |
| TreeMap.SerializableTreeMap.Clone | src/main/java/com/thomasjensen/sercoll/SerializableTreeMap.java:107-110 | a fresh map with the same comparator, keys and mappings |
| TreeMap.SerializableTreeMap.KeySet | src/main/java/com/thomasjensen/sercoll/SerializableTreeMap.java:116-119 | a fresh tree set of exactly the keys; for a naturally ordered map, in the same order |
| TreeMap.SerializableTreeMap.Values | src/main/java/com/thomasjensen/sercoll/SerializableTreeMap.java:125-128 | a fresh list of the values in key order, one per key |
| TreeMap.SerializableTreeMap.Comparator | src/main/java/com/thomasjensen/sercoll/SerializableTreeMap.java:133-136 | null exactly when the map is in natural key order; otherwise the comparator that orders it |
| TreeMap.SerializableTreeMap.SubMap | src/main/java/com/thomasjensen/sercoll/SerializableTreeMap.java:141-144 | fails with IllegalArgumentException exactly for keys in the wrong order; otherwise a fresh map of exactly the mappings with keys in [from, to) |
| TreeMap.SerializableTreeMap.HeadMap | src/main/java/com/thomasjensen/sercoll/SerializableTreeMap.java:149-152 | a fresh map of exactly the mappings with keys below the bound |
| TreeMap.SerializableTreeMap.TailMap | src/main/java/com/thomasjensen/sercoll/SerializableTreeMap.java:157-160 | a fresh map of exactly the mappings with keys at or above the bound |
| TreeMap.KeySetIsDetached | src/main/java/com/thomasjensen/sercoll/SerializableTreeMap.java:116-119 | the key set is a copy: adding to it leaves the map's keys unchanged |
| TreeMap.HeadMapIsDetached | src/main/java/com/thomasjensen/sercoll/SerializableTreeMap.java:149-152 | a head map is a copy: putting into it leaves the original unchanged |
| HashSet.SerializableHashSet.constructor | src/main/java/com/thomasjensen/sercoll/SerializableHashSet.java:41-44 | the set is empty |
| HashSet.SerializableHashSet.WithCapacity | src/main/java/com/thomasjensen/sercoll/SerializableHashSet.java:71-74 | fails with IllegalArgumentException exactly for a negative capacity or a non-positive load factor; otherwise the set is empty |
| HashSet.SerializableHashSet.Copy | src/main/java/com/thomasjensen/sercoll/SerializableHashSet.java:56-59 | every distinct element of the source once, in first-occurrence order |
| HashSet.SerializableHashSet.FromCollection | src/main/java/com/thomasjensen/sercoll/SerializableHashSet.java:56-59 | fails with NullPointerException exactly for a null source; otherwise the deduplicated copy |
| HashSet.SerializableHashSet.Add | src/main/java/com/thomasjensen/sercoll/SerializableHashSet.java:56-59 | inherited `HashSet.add`; used by the copy constructor at :56-59 through `addAll`: adds the element if absent and reports true exactly when it was |
| HashSet.SerializableHashSet.AddAll | src/main/java/com/thomasjensen/sercoll/SerializableHashSet.java:56-59 | inherited `AbstractCollection.addAll`; used by the copy constructor at :56-59: the elements become the union with the source; from empty, the deduplicated source |
| HashSet.SerializableHashSet.Clone | src/main/java/com/thomasjensen/sercoll/SerializableHashSet.java:95-98 | a fresh set with the same elements in the same order |
| HashMap.SerializableHashMap.constructor | src/main/java/com/thomasjensen/sercoll/impl/SerializableHashMap.java:46-49 | the map is empty |
| HashMap.SerializableHashMap.WithCapacityAndLoadFactor | src/main/java/com/thomasjensen/sercoll/impl/SerializableHashMap.java:60-63 | fails with IllegalArgumentException exactly for a negative capacity or a non-positive load factor; otherwise the map is empty |
| HashMap.SerializableHashMap.WithCapacity | src/main/java/com/thomasjensen/sercoll/impl/SerializableHashMap.java:74-77 | fails with IllegalArgumentException exactly for a negative capacity; otherwise the map is empty |
| HashMap.SerializableHashMap.Copy | src/main/java/com/thomasjensen/sercoll/impl/SerializableHashMap.java:89-92 | exactly the source's mappings, with its keys in its order |
| HashMap.SerializableHashMap.FromMap | src/main/java/com/thomasjensen/sercoll/impl/SerializableHashMap.java:89-92 | fails with NullPointerException exactly for a null source; otherwise copies its mappings |
| HashMap.SerializableHashMap.Put | src/main/java/com/thomasjensen/sercoll/impl/SerializableHashMap.java:89-92 | inherited `HashMap.put`; the copy constructor at :89-92 inserts each mapping the same way: maps the key to the value, appends a new key, and returns the previous value or null |
| HashMap.SerializableHashMap.PutAll | src/main/java/com/thomasjensen/sercoll/impl/SerializableHashMap.java:89-92 | inherited `HashMap.putAll`; the copy constructor at :89-92 fills the map the same way: the mappings become the old ones overridden by the source's; from empty, the source's keys in its order |
| HashMap.SerializableHashMap.Clone | src/main/java/com/thomasjensen/sercoll/impl/SerializableHashMap.java:98-101 | a fresh map with the same mappings |
| HashMap.SerializableHashMap.KeySet | src/main/java/com/thomasjensen/sercoll/impl/SerializableHashMap.java:106-109 | a fresh hash set of exactly the keys, in order |
| HashMap.SerializableHashMap.Values | src/main/java/com/thomasjensen/sercoll/impl/SerializableHashMap.java:114-117 | a fresh list of the values in key order, one per key |
| HashMap.KeySetIsDetached | src/main/java/com/thomasjensen/sercoll/impl/SerializableHashMap.java:106-109 | the key set is a copy: adding to it leaves the map's keys unchanged |
| HashMap.ValuesAreDetached | src/main/java/com/thomasjensen/sercoll/impl/SerializableHashMap.java:114-117 | the value list is a copy: adding to it leaves the map unchanged |
| EnumMap.KeysFromFacts | src/main/java/com/thomasjensen/sercoll/impl/SerializableEnumMap.java:80-83 | the key sequence holds exactly the mapped ordinals in range, ascending |
| EnumMap.SerializableEnumMap.Keys | src/main/java/com/thomasjensen/sercoll/impl/SerializableEnumMap.java:80-83 | exactly the mapped keys, without repetition and in declaration order |
| EnumMap.SerializableEnumMap.constructor | src/main/java/com/thomasjensen/sercoll/impl/SerializableEnumMap.java:48-51 | an empty map over the given enum type |
| EnumMap.SerializableEnumMap.FromKeyType | src/main/java/com/thomasjensen/sercoll/impl/SerializableEnumMap.java:48-51 | fails with NullPointerException exactly for a null key type; otherwise an empty map over it |
| EnumMap.SerializableEnumMap.Copy | src/main/java/com/thomasjensen/sercoll/impl/SerializableEnumMap.java:62-65 | the source's key type and mappings |
| EnumMap.SerializableEnumMap.FromEnumMap | src/main/java/com/thomasjensen/sercoll/impl/SerializableEnumMap.java:62-65 | fails with NullPointerException exactly for a null source; otherwise copies it |
| EnumMap.SerializableEnumMap.Put | src/test/java/com/thomasjensen/sercoll/SerializableUnmodifiableHashMapUTest.java:281-292 | maps the key to the value and returns the previous value or null |
| EnumMap.SerializableEnumMap.Clone | src/main/java/com/thomasjensen/sercoll/impl/SerializableEnumMap.java:71-74 | a fresh map with the same key type and mappings |
| EnumMap.SerializableEnumMap.KeySet | src/main/java/com/thomasjensen/sercoll/impl/SerializableEnumMap.java:80-83 | a fresh hash set of exactly the mapped constants, filled in declaration order |
| EnumMap.SerializableEnumMap.Values | src/main/java/com/thomasjensen/sercoll/impl/SerializableEnumMap.java:89-92 | a fresh list of the values in declaration order of their keys |
| EnumMap.ValuesInDeclarationOrder | src/main/java/com/thomasjensen/sercoll/impl/SerializableEnumMap.java:80-92 | with keys put out of order, the key set holds exactly the mapped constants and the values come out in declaration order of their keys |
| Collections.SerializableCollections.constructor | src/main/java/com/thomasjensen/sercoll/SerializableCollections.java:40-47 | the shared empty set, list and map are empty |
| Collections.SerializableCollections.EmptySet | src/main/java/com/thomasjensen/sercoll/SerializableCollections.java:103-106 | the shared empty set, which has size 0 |
| Collections.SerializableCollections.EmptyList | src/main/java/com/thomasjensen/sercoll/SerializableCollections.java:122-125 | the shared empty list, which has size 0 |
| Collections.SerializableCollections.EmptyMap | src/main/java/com/thomasjensen/sercoll/SerializableCollections.java:142-145 | the shared empty map, with no mappings |
| Collections.AsList | src/main/java/com/thomasjensen/sercoll/SerializableCollections.java:60-67 | a fresh list of the arguments in order; empty for a null array |
| Collections.AsSet | src/main/java/com/thomasjensen/sercoll/SerializableCollections.java:80-87 | a fresh set of exactly the distinct arguments; empty for a null array |
| Collections.AsListResultsAreIndependent | src/main/java/com/thomasjensen/sercoll/SerializableCollections.java:60-67 | two lists from the same arguments are independent |
| Collections.AsSetResultsAreIndependent | src/main/java/com/thomasjensen/sercoll/SerializableCollections.java:80-87 | two sets from the same arguments are independent |
| Collections.UnmodifiableSet | src/main/java/com/thomasjensen/sercoll/SerializableCollections.java:163-166 | fails with NullPointerException exactly for a null source; otherwise a fresh unmodifiable copy |
| Collections.UnmodifiableSortedSet | src/main/java/com/thomasjensen/sercoll/SerializableCollections.java:184-188 | always fails with UnsupportedOperationException, from the copy constructor |
| Collections.UnmodifiableList | src/main/java/com/thomasjensen/sercoll/SerializableCollections.java:206-209 | fails with NullPointerException exactly for a null source; otherwise a fresh unmodifiable copy |
| Collections.UnmodifiableListIsACopy | src/main/java/com/thomasjensen/sercoll/SerializableCollections.java:206-209 | changing the source after the call leaves the unmodifiable list unchanged |
| Collections.UnmodifiableMap | src/main/java/com/thomasjensen/sercoll/SerializableCollections.java:228-232 | fails with NullPointerException exactly for a null source; otherwise a fresh unmodifiable copy with its views built |
| Collections.Singleton | src/main/java/com/thomasjensen/sercoll/SerializableCollections.java:248-251 | a fresh unmodifiable set of exactly the one item |
| Collections.SingletonList | src/main/java/com/thomasjensen/sercoll/SerializableCollections.java:266-269 | a fresh unmodifiable list of exactly the one item |
| Collections.SingletonMap | src/main/java/com/thomasjensen/sercoll/SerializableCollections.java:286-290 | a fresh unmodifiable map of exactly the one mapping |
| Collections.EmptyListRejectsMutation | src/main/java/com/thomasjensen/sercoll/SerializableCollections.java:122-125 | every mutator of the shared empty list fails with UnsupportedOperationException, and the list stays empty and shared |
| Collections.SingletonListRejectsMutation | src/main/java/com/thomasjensen/sercoll/SerializableCollections.java:266-269 | every mutator of a singleton list fails with UnsupportedOperationException, and the list keeps its one item |

## Left out

- Hash iteration order: the hash containers keep insertion order. The platform's bucket order depends on `hashCode` values and capacities, which the model does not compute. So the model's orders are facts of the model only where a hash container is rebuilt: `HashSet.SerializableHashSet.Clone`, `UnmodifiableHashSet.SerializableUnmodifiableHashSet.Clone` and `HashMap.SerializableHashMap.Clone` keep the order, while a platform clone may re-size the table; `EnumMap.SerializableEnumMap.KeySet` is filled in declaration order, while the platform hashes enum constants by identity.
- Capacities and load factors only matter for the argument checks. A NaN load factor, which the platform refuses, cannot be written with `real`.
- The `int`-only capacity constructor of `SerializableHashSet` (SerializableHashSet.java:85-88) is not modelled on its own. It delegates with the default load factor, so it is `HashSet.SerializableHashSet.WithCapacity` with a load factor of 0.75.
- `ClassCastException` for elements without a natural ordering, and null elements or keys in tree containers, are left out. Every tree container requires `IsComparator` of its order.
- Comparators inconsistent with equals are left out, for the same reason: `IsComparator` demands consistency with equals.
- The model of `String.compareTo` compares `char` values, which stand for UTF-16 code units.
- Java serialization itself, meaning the byte stream and its I/O, is not modelled. `UnmodifiableHashMap.SerializableUnmodifiableHashMap.Deserialized` stands for the object read back: the same contents, with the `transient` caches null. The platform rebuilds the hash table on reading with a capacity of its own, so the view order that `UnmodifiableHashMap.ViewsSurviveSerialization` equates is a fact of the model's insertion order only; the contents agree either way.
- Mutators the unmodifiable classes do not override are not modelled. These are `retainAll` of the unmodifiable list, `pollFirst` and `pollLast` of the unmodifiable tree set, and default methods such as `removeIf` and `replaceAll`. They go to the platform code.
- UnmodifiableEntry.SerializableUnmodifiableEntry.Clone: an entry snapshot is a value with no identity, so the clone being a different object (SerializableUnmodifiableHashMapUTest.java:320) is not modelled; the contract states that every observer agrees.
- `contains` and the other queries the set classes inherit from `HashSet` and `TreeSet` are not modelled as members of their own. The source does not override them, and membership is the element sequence itself.
- Object identity of values and entries: the key and value types compare by `==`. `Equals` compares keys and values, and not the hash code or text a platform entry reports.
- The `impl` classes `SerializableHashSet`, `SerializableUnmodifiableHashSet`, `SerializableUnmodifiableHashMap` and `SerializableUnmodifiableTreeSet` are modelled by the classes of the same names in the root package. Those `impl` files are not part of this model.
- UnmodifiableEntrySet.SerializableUnmodifiableEntrySet.constructor: requires a duplicate-free source. The source's own argument is a `Set`, so this is how a set arrives.
- EnumMap.SerializableEnumMap.Put: requires a key of the map's enum type. A null key (`NullPointerException`) and a key of another type (`ClassCastException`) are not modelled.
- Enum constants are their ordinals `0 .. size-1`.
- `TreeSet.addAll` has a fast path for a sorted source into an empty set. It gives the same contents as adding one element at a time, and the model only uses the latter.
- `TreeMap.SerializableTreeMap.KeySet` and the `SubMap`, `HeadMap` and `TailMap` copies are built with natural ordering, as the collection and map constructors build them. The model does not carry a custom comparator over into them.
- `SerializableUnmodifiableHashMapUTest.testIterators` (SerializableUnmodifiableHashMapUTest.java:58-83) iterates hash-ordered views. The model states the view contents instead, in `UnmodifiableHashMap.ThreeEntryTestMap`.

## Findings

The program's own comments promise things the code does not do:
- the class comment of `SerializableUnmodifiableTreeSet` (SerializableUnmodifiableTreeSet.java:24-28) says the set adds the elements of the original set instead of being a view on it;
- the sorted-set constructor's comment (:80-81) says it retains the given set's ordering;
- the range and descending views (:211-265) are each built with `new SerializableUnmodifiableTreeSet`, so they are meant to be unmodifiable copies.

The model follows the code. Both copy constructors end in the overridden `addAll`, which throws, so every range and descending view that goes through them throws too.

| source | as written | input that shows it | evidently intended | confidence | as-written member | corrected member |
|---|---|---|---|---|---|---|
| src/main/java/com/thomasjensen/sercoll/SerializableUnmodifiableTreeSet.java:72-75 | both copy constructors call `addAll` (through `TreeSet(Collection)` at :74, directly at :88), which dispatches to the class's own override at :171-174, so they throw `UnsupportedOperationException` | `new SerializableUnmodifiableTreeSet(["a"])`; any non-null source, including an empty one | fill the backing tree with the platform `addAll`, keeping a sorted source's comparator | not executed | UnmodifiableTreeSet.SerializableUnmodifiableTreeSet.FromCollection | UnmodifiableTreeSet.SerializableUnmodifiableTreeSet.FromCollectionCorrected |
| src/main/java/com/thomasjensen/sercoll/SerializableUnmodifiableTreeSet.java:85-89 | the sorted-set copy constructor throws for the same reason | any sorted set | keep the source's comparator and its elements | not executed | UnmodifiableTreeSet.SerializableUnmodifiableTreeSet.FromSortedSet | UnmodifiableTreeSet.SerializableUnmodifiableTreeSet.FromSortedSetCorrected |
| src/main/java/com/thomasjensen/sercoll/SerializableUnmodifiableEntrySet.java:121-128 | `toArray(T[])` wraps every slot of the result, including the null the platform writes after the last entry of a longer array, so it throws `NullPointerException` | a one-entry set and an array of length 2 | wrap only the first `size()` slots | not executed | UnmodifiableEntrySet.ToArrayIntoLongerArray | UnmodifiableEntrySet.ToArrayIntoLongerArrayCorrected |

/**
  `SerializableCollections`: factory methods for the serializable containers. The three shared
  empty containers are created once, when the class is initialized; the class below stands for that
  initialization, and its fields for the three constants. The factories that the source calls as
  static methods are the module's methods. The `impl` package's hash set, unmodifiable hash set,
  unmodifiable hash map and unmodifiable tree set are modelled by the classes of the same names.
*/
module Collections {
  import opened Lang
  import opened UnmodifiableEntry
  import Ordering
  import ArrayList
  import HashSet
  import UnmodifiableHashSet
  import UnmodifiableArrayList
  import UnmodifiableHashMap
  import UnmodifiableTreeSet

  /** The shared empty set, list and map, typed at `T` and at `K`, `V` for the map. */
  class SerializableCollections<T(==), K(==), V(==)> {
    const emptySet: UnmodifiableHashSet.SerializableUnmodifiableHashSet<T>
    const emptyList: UnmodifiableArrayList.SerializableUnmodifiableArrayList<T>
    const emptyMap: UnmodifiableHashMap.SerializableUnmodifiableHashMap<K, V>

    /** The three constants are empty. */
    ghost predicate Valid()
      reads this, emptySet, emptyList, emptyMap, emptyMap.ourKeySet, emptyMap.ourValueList, emptyMap.ourEntrySet
    {
      && emptySet.Valid() && emptySet.elements == []
      && emptyList.elements == []
      && emptyMap.Valid() && emptyMap.keys == [] && emptyMap.mappings == map[]
    }

    /** Class initialization: each constant is made by its class's empty constructor. */
    constructor (km: ObjectMethods<K>, vm: ObjectMethods<V>)
      ensures Valid()
    {
      emptySet := new UnmodifiableHashSet.SerializableUnmodifiableHashSet.Empty();
      emptyList := new UnmodifiableArrayList.SerializableUnmodifiableArrayList.Empty();
      emptyMap := new UnmodifiableHashMap.SerializableUnmodifiableHashMap.Empty(km, vm);
    }

    /** `emptySet`: the shared empty set, the same object on every call. */
    method EmptySet() returns (r: UnmodifiableHashSet.SerializableUnmodifiableHashSet<T>)
      requires Valid()
      ensures r == emptySet && r.Valid() && r.Size() == 0
    {
      r := emptySet;
    }

    /** `emptyList`: the shared empty list, the same object on every call. */
    method EmptyList() returns (r: UnmodifiableArrayList.SerializableUnmodifiableArrayList<T>)
      requires Valid()
      ensures r == emptyList && r.Size() == 0
    {
      r := emptyList;
    }

    /** `emptyMap`: the shared empty map, the same object on every call. */
    method EmptyMap() returns (r: UnmodifiableHashMap.SerializableUnmodifiableHashMap<K, V>)
      requires Valid()
      ensures r == emptyMap && r.Valid() && r.Size() == 0 && r.mappings == map[]
    {
      r := emptyMap;
    }
  }

  /**
    `asList`: a new array list; for a null array it stays empty, otherwise `Collections.addAll`
    appends each value in turn, duplicates and nulls kept.
  */
  method AsList<T>(pValues: Nullable<seq<T>>) returns (result: ArrayList.SerializableArrayList<T>)
    ensures fresh(result)
    ensures pValues == Null ==> result.elements == []
    ensures pValues.NonNull? ==> result.elements == pValues.value
  {
    result := new ArrayList.SerializableArrayList();
    if pValues.NonNull? {
      var values := pValues.value;
      var i := 0;
      while i < |values|
        invariant 0 <= i <= |values|
        invariant result.elements == values[..i]
      {
        assert values[..i + 1] == values[..i] + [values[i]];
        var _ := result.Add(values[i]);
        i := i + 1;
      }
      assert values[..i] == values;
    }
  }

  /**
    `asSet`: a new hash set; for a null array it stays empty, otherwise `Collections.addAll` adds
    each value in turn, so the set holds exactly the distinct values.
  */
  method AsSet<T(==)>(pValues: Nullable<seq<T>>) returns (result: HashSet.SerializableHashSet<T>)
    ensures fresh(result) && result.Valid()
    ensures pValues == Null ==> result.elements == []
    ensures pValues.NonNull? ==> result.elements == Dedup(pValues.value) && Elems(result.elements) == Elems(pValues.value)
  {
    result := new HashSet.SerializableHashSet();
    if pValues.NonNull? {
      result.AddAll(pValues.value);
    }
  }

  /** `unmodifiableSet`: a new unmodifiable hash set copied from the source; a null source fails. */
  method UnmodifiableSet<T(==)>(pSet: Nullable<seq<T>>) returns (r: Result<UnmodifiableHashSet.SerializableUnmodifiableHashSet<T>>)
    ensures pSet == Null <==> r == Failure(NullPointer)
    ensures r.Failure? ==> r.error == NullPointer
    ensures r.Success? ==> fresh(r.value) && r.value.Valid() && r.value.elements == Dedup(pSet.value)
  {
    r := UnmodifiableHashSet.SerializableUnmodifiableHashSet.FromCollection(pSet);
  }

  /**
    `unmodifiableSortedSet`: the argument's static type is `SortedSet`, not the library's own sorted
    set, so the call resolves to the unmodifiable tree set's collection constructor, which fails
    with `UnsupportedOperationException` for every source, null included.
  */
  method UnmodifiableSortedSet<T(==,!new)>(natural: (T, T) -> int, pSortedSet: Nullable<Ordering.SortedSource<T>>)
    returns (r: Result<UnmodifiableTreeSet.SerializableUnmodifiableTreeSet<T>>)
    requires Ordering.IsComparator(natural)
    ensures r == Failure(UnsupportedOperation)
  {
    var source := if pSortedSet.Null? then Null else NonNull(pSortedSet.value.elements);
    r := UnmodifiableTreeSet.SerializableUnmodifiableTreeSet.FromCollection(natural, source);
  }

  /** `unmodifiableList`: a new unmodifiable list copied from the source; a null source fails. */
  method UnmodifiableList<T>(pList: Nullable<seq<T>>) returns (r: Result<UnmodifiableArrayList.SerializableUnmodifiableArrayList<T>>)
    ensures pList == Null <==> r == Failure(NullPointer)
    ensures r.Failure? ==> r.error == NullPointer
    ensures r.Success? ==> fresh(r.value) && r.value.elements == pList.value
  {
    r := UnmodifiableArrayList.SerializableUnmodifiableArrayList.FromCollection(pList);
  }

  /** `unmodifiableMap`: a new unmodifiable hash map copied from the source; a null source fails. */
  method UnmodifiableMap<K(==), V(==)>(km: ObjectMethods<K>, vm: ObjectMethods<V>, pMap: Nullable<MapSource<Nullable<K>, Nullable<V>>>)
    returns (r: Result<UnmodifiableHashMap.SerializableUnmodifiableHashMap<K, V>>)
    requires pMap.NonNull? ==> WellFormed(pMap.value)
    ensures pMap == Null <==> r == Failure(NullPointer)
    ensures r.Failure? ==> r.error == NullPointer
    ensures r.Success? ==> fresh(r.value) && r.value.Valid() && r.value.Cached()
    ensures r.Success? ==> r.value.keys == pMap.value.keys && r.value.mappings == pMap.value.mappings
  {
    r := UnmodifiableHashMap.SerializableUnmodifiableHashMap.FromMap(km, vm, pMap);
  }

  /** `singleton`: a new unmodifiable set of exactly the one item, which may be null. */
  method Singleton<T(==)>(pSingleItem: T) returns (r: UnmodifiableHashSet.SerializableUnmodifiableHashSet<T>)
    ensures fresh(r) && r.Valid() && r.elements == [pSingleItem] && r.Size() == 1
  {
    r := new UnmodifiableHashSet.SerializableUnmodifiableHashSet.Singleton(pSingleItem);
  }

  /** `singletonList`: a new unmodifiable list of exactly the one item, which may be null. */
  method SingletonList<T>(pSingleItem: T) returns (r: UnmodifiableArrayList.SerializableUnmodifiableArrayList<T>)
    ensures fresh(r) && r.elements == [pSingleItem] && r.Size() == 1
  {
    r := new UnmodifiableArrayList.SerializableUnmodifiableArrayList.Singleton(pSingleItem);
  }

  /** `singletonMap`: a new unmodifiable map of exactly the one mapping; key and value may be null. */
  method SingletonMap<K(==), V(==)>(km: ObjectMethods<K>, vm: ObjectMethods<V>, pKey: Nullable<K>, pValue: Nullable<V>)
    returns (r: UnmodifiableHashMap.SerializableUnmodifiableHashMap<K, V>)
    ensures fresh(r) && r.Valid() && r.Cached()
    ensures r.keys == [pKey] && r.mappings == map[pKey := pValue] && r.Size() == 1
  {
    r := new UnmodifiableHashMap.SerializableUnmodifiableHashMap.Singleton(km, vm, pKey, pValue);
  }

  /** Each call of `asList` makes its own list: adding to one result leaves another as it was. */
  method AsListResultsAreIndependent<T>(values: seq<T>, x: T) returns (first: seq<T>, second: seq<T>)
    ensures first == values + [x]
    ensures second == values
  {
    var a := AsList(NonNull(values));
    var b := AsList(NonNull(values));
    var _ := a.Add(x);
    first, second := a.elements, b.elements;
  }

  /** Each call of `asSet` makes its own set: adding to one result leaves another as it was. */
  method AsSetResultsAreIndependent<T(==)>(values: seq<T>, x: T) returns (first: set<T>, second: set<T>)
    ensures first == Elems(values) + {x}
    ensures second == Elems(values)
  {
    var a := AsSet(NonNull(values));
    var b := AsSet(NonNull(values));
    var _ := a.Add(x);
    first, second := Elems(a.elements), Elems(b.elements);
  }

  /**
    `unmodifiableList` copies its source when called: a later change to the source does not show
    in the unmodifiable list.
  */
  method UnmodifiableListIsACopy<T>(source: seq<T>, x: T) returns (changed: seq<T>, copy: seq<T>)
    ensures changed == source + [x]
    ensures copy == source
  {
    var list := new ArrayList.SerializableArrayList.Copy(source);
    var u := UnmodifiableList(NonNull(list.elements));
    var _ := list.Add(x);
    changed, copy := list.elements, u.value.elements;
  }

  /**
    Every overridden mutator of the shared empty list fails, and the list is still empty afterwards,
    so the next `emptyList` call hands out the same empty list.
  */
  method EmptyListRejectsMutation<T(==), K(==), V(==)>(c: SerializableCollections<T, K, V>, x: T)
    returns (outcomes: seq<Outcome>, sizeAfter: nat, same: bool)
    requires c.Valid()
    ensures forall o :: o in outcomes ==> o == Fail(UnsupportedOperation)
    ensures |outcomes| == 10 && sizeAfter == 0 && same
  {
    var l := c.EmptyList();
    var r1 := l.Set(0, x);
    var r2 := l.Add(x);
    var o3 := l.AddAt(0, x);
    var r4 := l.RemoveAt(0);
    var r5 := l.Remove(x);
    var o6 := l.Clear();
    var r7 := l.AddAll([x]);
    var r8 := l.AddAllAt(0, [x]);
    var o9 := l.RemoveRange(0, 0);
    var r10 := l.RemoveAll([x]);
    outcomes := [Lower(r1), Lower(r2), o3, Lower(r4), Lower(r5), o6, Lower(r7), Lower(r8), o9, Lower(r10)];
    sizeAfter := l.Size();
    var again := c.EmptyList();
    same := again == l;
  }

  /** Every overridden mutator of a singleton list fails, and the list still holds its one item. */
  method SingletonListRejectsMutation<T>(item: T, x: T) returns (outcomes: seq<Outcome>, contentsAfter: seq<T>)
    ensures forall o :: o in outcomes ==> o == Fail(UnsupportedOperation)
    ensures |outcomes| == 10 && contentsAfter == [item]
  {
    var l := SingletonList(item);
    var r1 := l.Set(0, x);
    var r2 := l.Add(x);
    var o3 := l.AddAt(0, x);
    var r4 := l.RemoveAt(0);
    var r5 := l.Remove(x);
    var o6 := l.Clear();
    var r7 := l.AddAll([x]);
    var r8 := l.AddAllAt(0, [x]);
    var o9 := l.RemoveRange(0, 1);
    var r10 := l.RemoveAll([x]);
    outcomes := [Lower(r1), Lower(r2), o3, Lower(r4), Lower(r5), o6, Lower(r7), Lower(r8), o9, Lower(r10)];
    contentsAfter := l.elements;
  }

  /** The outcome of a call that returns a value: its exception, or success. */
  function Lower<R>(r: Result<R>): (o: Outcome)
    ensures o.Fail? <==> r.Failure?
    ensures o.Fail? ==> o.error == r.error
  {
    match r
    case Success(_) => Pass
    case Failure(e) => Fail(e)
  }
}

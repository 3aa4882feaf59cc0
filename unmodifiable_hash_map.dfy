/**
  `SerializableUnmodifiableHashMap`: a hash map filled once by its constructor, whose overridden
  mutators fail with `UnsupportedOperationException`. Its key set, value list and entry set are
  unmodifiable copies, built by the constructor and kept in three `transient` fields. Such a field
  is null only after the map has been read back from a stream, and the view is then rebuilt on
  first use. The `impl` package's class of the same name is modelled by this one.
*/
module UnmodifiableHashMap {
  import opened Lang
  import opened UnmodifiableEntry
  import UnmodifiableHashSet
  import UnmodifiableArrayList
  import UnmodifiableEntrySet

  /** The entries of a platform hash map, in its iteration order. */
  function EntriesOf<K(==), V(==)>(km: ObjectMethods<K>, vm: ObjectMethods<V>, keys: seq<Nullable<K>>,
                                   mappings: map<Nullable<K>, Nullable<V>>): (r: seq<MapEntry<K, V>>)
    requires Elems(keys) <= mappings.Keys
    ensures |r| == |keys|
    ensures forall i :: 0 <= i < |keys| ==> r[i] == NodeView(km, vm, keys[i], mappings[keys[i]])
  {
    if keys == [] then [] else [NodeView(km, vm, keys[0], mappings[keys[0]])] + EntriesOf(km, vm, keys[1..], mappings)
  }

  /** Distinct keys give distinct entries. */
  lemma EntriesDistinct<K, V>(km: ObjectMethods<K>, vm: ObjectMethods<V>, keys: seq<Nullable<K>>,
                              mappings: map<Nullable<K>, Nullable<V>>)
    requires Distinct(keys) && Elems(keys) <= mappings.Keys
    ensures Distinct(EntriesOf(km, vm, keys, mappings))
  {
    var r := EntriesOf(km, vm, keys, mappings);
    forall i, j | 0 <= i < j < |r| ensures r[i] != r[j] {
      assert r[i].key == keys[i] && r[j].key == keys[j];
    }
  }

  class SerializableUnmodifiableHashMap<K(==), V(==)> {
    /** `hashCode` and `toString` of the key and value types, which the platform's entries report. */
    const keyMethods: ObjectMethods<K>
    const valueMethods: ObjectMethods<V>
    /** The backing hash map: its keys in iteration order, and what each is mapped to. */
    var keys: seq<Nullable<K>>
    var mappings: map<Nullable<K>, Nullable<V>>
    /** The three `transient` caches. */
    var ourKeySet: UnmodifiableHashSet.SerializableUnmodifiableHashSet?<Nullable<K>>
    var ourValueList: UnmodifiableArrayList.SerializableUnmodifiableArrayList?<Nullable<V>>
    var ourEntrySet: UnmodifiableEntrySet.SerializableUnmodifiableEntrySet?<K, V>

    /** The mappings are well formed, and a cache that is set holds exactly what its view shows. */
    ghost predicate Valid()
      reads this, ourKeySet, ourValueList, ourEntrySet
    {
      && Distinct(keys) && Elems(keys) == mappings.Keys
      && (ourKeySet != null ==> ourKeySet.elements == keys)
      && (ourValueList != null ==> ourValueList.elements == ValuesOf(keys, mappings))
      && (ourEntrySet != null ==> ourEntrySet.elements == EntriesOf(keyMethods, valueMethods, keys, mappings))
    }

    ghost predicate Cached()
      reads this
    {
      ourKeySet != null && ourValueList != null && ourEntrySet != null
    }

    function Size(): nat
      reads this
    {
      |keys|
    }

    /** The empty constructor: no mappings, and the three (empty) views built at once. */
    constructor Empty(km: ObjectMethods<K>, vm: ObjectMethods<V>)
      ensures Valid() && Cached() && keyMethods == km && valueMethods == vm
      ensures keys == [] && mappings == map[]
      ensures fresh(ourKeySet) && fresh(ourValueList) && fresh(ourEntrySet)
    {
      keyMethods, valueMethods := km, vm;
      keys, mappings := [], map[];
      ourKeySet, ourValueList, ourEntrySet := null, null, null;
      new;
      ourKeySet := GetSuperKeySet();
      ourValueList := GetSuperValues();
      ourEntrySet := GetSuperEntrySet();
    }

    /** The singleton constructor: exactly `pKey -> pValue`, either of which may be null. */
    constructor Singleton(km: ObjectMethods<K>, vm: ObjectMethods<V>, pKey: Nullable<K>, pValue: Nullable<V>)
      ensures Valid() && Cached() && keyMethods == km && valueMethods == vm
      ensures keys == [pKey] && mappings == map[pKey := pValue]
      ensures fresh(ourKeySet) && fresh(ourValueList) && fresh(ourEntrySet)
    {
      keyMethods, valueMethods := km, vm;
      keys, mappings := [], map[];
      ourKeySet, ourValueList, ourEntrySet := null, null, null;
      new;
      keys, mappings := AddAbsent(keys, pKey), mappings[pKey := pValue];
      ourKeySet := GetSuperKeySet();
      ourValueList := GetSuperValues();
      ourEntrySet := GetSuperEntrySet();
    }

    /** The Map constructor: the source's mappings, and the three views built at once. */
    constructor (km: ObjectMethods<K>, vm: ObjectMethods<V>, pMap: MapSource<Nullable<K>, Nullable<V>>)
      requires WellFormed(pMap)
      ensures Valid() && Cached() && keyMethods == km && valueMethods == vm
      ensures keys == pMap.keys && mappings == pMap.mappings
      ensures fresh(ourKeySet) && fresh(ourValueList) && fresh(ourEntrySet)
    {
      keyMethods, valueMethods := km, vm;
      keys, mappings := pMap.keys, pMap.mappings;
      ourKeySet, ourValueList, ourEntrySet := null, null, null;
      new;
      ourKeySet := GetSuperKeySet();
      ourValueList := GetSuperValues();
      ourEntrySet := GetSuperEntrySet();
    }

    /** The Map constructor handed a null map throws `NullPointerException` from `HashMap(Map)`. */
    static method FromMap(km: ObjectMethods<K>, vm: ObjectMethods<V>, pMap: Nullable<MapSource<Nullable<K>, Nullable<V>>>)
      returns (r: Result<SerializableUnmodifiableHashMap<K, V>>)
      requires pMap.NonNull? ==> WellFormed(pMap.value)
      ensures pMap == Null <==> r == Failure(NullPointer)
      ensures r.Failure? ==> r.error == NullPointer
      ensures r.Success? ==> fresh(r.value) && r.value.Valid() && r.value.Cached()
      ensures r.Success? ==> r.value.keys == pMap.value.keys && r.value.mappings == pMap.value.mappings
    {
      if pMap == Null {
        r := Failure(NullPointer);
      } else {
        var m := new SerializableUnmodifiableHashMap(km, vm, pMap.value);
        r := Success(m);
      }
    }

    /** The field-by-field copy that `clone` and reading from a stream produce. */
    constructor Copy(km: ObjectMethods<K>, vm: ObjectMethods<V>, keys: seq<Nullable<K>>, mappings: map<Nullable<K>, Nullable<V>>,
                     ks: UnmodifiableHashSet.SerializableUnmodifiableHashSet?<Nullable<K>>,
                     vl: UnmodifiableArrayList.SerializableUnmodifiableArrayList?<Nullable<V>>,
                     es: UnmodifiableEntrySet.SerializableUnmodifiableEntrySet?<K, V>)
      ensures keyMethods == km && valueMethods == vm && this.keys == keys && this.mappings == mappings
      ensures ourKeySet == ks && ourValueList == vl && ourEntrySet == es
    {
      keyMethods, valueMethods := km, vm;
      this.keys, this.mappings := keys, mappings;
      ourKeySet, ourValueList, ourEntrySet := ks, vl, es;
    }

    method Put(pKey: Nullable<K>, pValue: Nullable<V>) returns (r: Result<Nullable<V>>)
      ensures r == Failure(UnsupportedOperation)
    {
      r := Failure(UnsupportedOperation);
    }

    method PutAll(pMap: MapSource<Nullable<K>, Nullable<V>>) returns (o: Outcome)
      ensures o == Fail(UnsupportedOperation)
    {
      o := Fail(UnsupportedOperation);
    }

    method Remove(pKey: Nullable<K>) returns (r: Result<Nullable<V>>)
      ensures r == Failure(UnsupportedOperation)
    {
      r := Failure(UnsupportedOperation);
    }

    method Clear() returns (o: Outcome)
      ensures o == Fail(UnsupportedOperation)
    {
      o := Fail(UnsupportedOperation);
    }

    /**
      `clone`: `HashMap.clone` copies the mappings into the new map, and `Object.clone` copies the
      three cache fields, so the clone shares the original's views.
    */
    method Clone() returns (c: SerializableUnmodifiableHashMap<K, V>)
      requires Valid()
      ensures fresh(c) && c != this && c.Valid()
      ensures c.keyMethods == keyMethods && c.valueMethods == valueMethods
      ensures c.keys == keys && c.mappings == mappings
      ensures c.ourKeySet == ourKeySet && c.ourValueList == ourValueList && c.ourEntrySet == ourEntrySet
    {
      c := new SerializableUnmodifiableHashMap.Copy(keyMethods, valueMethods, keys, mappings, ourKeySet, ourValueList, ourEntrySet);
    }

    /**
      The effect of writing the map to a stream and reading it back: `HashMap` restores the mappings,
      and the `transient` caches come back null.
    */
    method Deserialized() returns (d: SerializableUnmodifiableHashMap<K, V>)
      requires Valid()
      ensures fresh(d) && d.Valid()
      ensures d.keyMethods == keyMethods && d.valueMethods == valueMethods
      ensures d.keys == keys && d.mappings == mappings
      ensures d.ourKeySet == null && d.ourValueList == null && d.ourEntrySet == null
    {
      d := new SerializableUnmodifiableHashMap.Copy(keyMethods, valueMethods, keys, mappings, null, null, null);
    }

    /** `keySet`: the cached key set; only a null cache is rebuilt, and then kept. */
    method KeySet() returns (r: UnmodifiableHashSet.SerializableUnmodifiableHashSet<Nullable<K>>)
      requires Valid()
      modifies this
      ensures Valid() && ourKeySet == r && r.elements == keys
      ensures old(ourKeySet) != null ==> r == old(ourKeySet)
      ensures old(ourKeySet) == null ==> fresh(r)
      ensures keys == old(keys) && mappings == old(mappings)
      ensures ourValueList == old(ourValueList) && ourEntrySet == old(ourEntrySet)
    {
      if ourKeySet == null {
        ourKeySet := GetSuperKeySet();
      }
      r := ourKeySet;
    }

    /** `values`: the cached value list; only a null cache is rebuilt, and then kept. */
    method Values() returns (r: UnmodifiableArrayList.SerializableUnmodifiableArrayList<Nullable<V>>)
      requires Valid()
      modifies this
      ensures Valid() && ourValueList == r && r.elements == ValuesOf(keys, mappings)
      ensures old(ourValueList) != null ==> r == old(ourValueList)
      ensures old(ourValueList) == null ==> fresh(r)
      ensures keys == old(keys) && mappings == old(mappings)
      ensures ourKeySet == old(ourKeySet) && ourEntrySet == old(ourEntrySet)
    {
      if ourValueList == null {
        ourValueList := GetSuperValues();
      }
      r := ourValueList;
    }

    /** `entrySet`: the cached entry set; only a null cache is rebuilt, and then kept. */
    method EntrySet() returns (r: UnmodifiableEntrySet.SerializableUnmodifiableEntrySet<K, V>)
      requires Valid()
      modifies this
      ensures Valid() && ourEntrySet == r && r.elements == EntriesOf(keyMethods, valueMethods, keys, mappings)
      ensures old(ourEntrySet) != null ==> r == old(ourEntrySet)
      ensures old(ourEntrySet) == null ==> fresh(r)
      ensures keys == old(keys) && mappings == old(mappings)
      ensures ourKeySet == old(ourKeySet) && ourValueList == old(ourValueList)
    {
      if ourEntrySet == null {
        ourEntrySet := GetSuperEntrySet();
      }
      r := ourEntrySet;
    }

    /** A new unmodifiable set of exactly the keys (the empty constructor for an empty map). */
    method GetSuperKeySet() returns (result: UnmodifiableHashSet.SerializableUnmodifiableHashSet<Nullable<K>>)
      requires Distinct(keys)
      ensures fresh(result) && result.Valid() && result.elements == keys
    {
      if |keys| > 0 {
        result := new UnmodifiableHashSet.SerializableUnmodifiableHashSet(keys);
        DedupOfDistinct(keys);
      } else {
        result := new UnmodifiableHashSet.SerializableUnmodifiableHashSet.Empty();
      }
    }

    /** A new unmodifiable list of every value, one per mapping, duplicates kept. */
    method GetSuperValues() returns (result: UnmodifiableArrayList.SerializableUnmodifiableArrayList<Nullable<V>>)
      requires Elems(keys) <= mappings.Keys
      ensures fresh(result) && result.elements == ValuesOf(keys, mappings)
    {
      if |keys| > 0 {
        result := new UnmodifiableArrayList.SerializableUnmodifiableArrayList(ValuesOf(keys, mappings));
      } else {
        result := new UnmodifiableArrayList.SerializableUnmodifiableArrayList.Empty();
      }
    }

    /** A new unmodifiable entry set of every entry of the backing map. */
    method GetSuperEntrySet() returns (result: UnmodifiableEntrySet.SerializableUnmodifiableEntrySet<K, V>)
      requires Distinct(keys) && Elems(keys) <= mappings.Keys
      ensures fresh(result) && result.Valid() && result.elements == EntriesOf(keyMethods, valueMethods, keys, mappings)
    {
      if |keys| > 0 {
        EntriesDistinct(keyMethods, valueMethods, keys, mappings);
        result := new UnmodifiableEntrySet.SerializableUnmodifiableEntrySet(EntriesOf(keyMethods, valueMethods, keys, mappings));
      } else {
        result := new UnmodifiableEntrySet.SerializableUnmodifiableEntrySet.Empty();
      }
    }
  }

  /**
    Reading a map back from a stream and asking for its views again gives views equal to the
    original's: the same keys, the same values and the same entries, in the same order.
  */
  method ViewsSurviveSerialization<K(==), V(==)>(km: ObjectMethods<K>, vm: ObjectMethods<V>, pMap: MapSource<Nullable<K>, Nullable<V>>)
    returns (keysBefore: seq<Nullable<K>>, keysAfter: seq<Nullable<K>>,
             valuesBefore: seq<Nullable<V>>, valuesAfter: seq<Nullable<V>>,
             entriesBefore: seq<MapEntry<K, V>>, entriesAfter: seq<MapEntry<K, V>>)
    requires WellFormed(pMap)
    ensures keysBefore == keysAfter == pMap.keys
    ensures valuesBefore == valuesAfter && |valuesAfter| == |pMap.keys|
    ensures entriesBefore == entriesAfter && |entriesAfter| == |pMap.keys|
  {
    var m := new SerializableUnmodifiableHashMap(km, vm, pMap);
    var ks := m.KeySet();
    var vs := m.Values();
    var es := m.EntrySet();
    keysBefore, valuesBefore, entriesBefore := ks.elements, vs.elements, es.elements;
    var d := m.Deserialized();
    var ks2 := d.KeySet();
    var vs2 := d.Values();
    var es2 := d.EntrySet();
    keysAfter, valuesAfter, entriesAfter := ks2.elements, vs2.elements, es2.elements;
  }

  /** Asking twice for each view hands back the same object both times. */
  method ViewsAreCached<K(==), V(==)>(m: SerializableUnmodifiableHashMap<K, V>)
    returns (sameKeySet: bool, sameValues: bool, sameEntrySet: bool)
    requires m.Valid()
    modifies m
    ensures sameKeySet && sameValues && sameEntrySet
  {
    var k1 := m.KeySet();
    var k2 := m.KeySet();
    var v1 := m.Values();
    var v2 := m.Values();
    var e1 := m.EntrySet();
    var e2 := m.EntrySet();
    sameKeySet, sameValues, sameEntrySet := k1 == k2, v1 == v2, e1 == e2;
  }

  /**
    The map the unit tests build: "A" and "B" both mapped to the same string "argh", and "C" to
    "cool".
  */
  function TestSource(): MapSource<Nullable<string>, Nullable<string>> {
    MapSource([NonNull("A"), NonNull("B"), NonNull("C")],
              map[NonNull("A") := NonNull("argh"), NonNull("B") := NonNull("argh"), NonNull("C") := NonNull("cool")])
  }

  /** The test map's three keys are different, and its values in key order keep the duplicate. */
  lemma TestSourceFacts()
    ensures WellFormed(TestSource())
    ensures ValuesOf(TestSource().keys, TestSource().mappings) == [NonNull("argh"), NonNull("argh"), NonNull("cool")]
  {
    assert "A"[0] != "B"[0] && "A"[0] != "C"[0] && "B"[0] != "C"[0];
    assert Elems(TestSource().keys) == TestSource().mappings.Keys;
  }

  /**
    The test map has three mappings, its key set three keys, its values three values with the
    duplicate kept, and its entry set three entries.
  */
  method ThreeEntryTestMap() returns (size: nat, keys: seq<Nullable<string>>, values: seq<Nullable<string>>, entryCount: nat)
    ensures size == 3 && entryCount == 3
    ensures keys == [NonNull("A"), NonNull("B"), NonNull("C")]
    ensures values == [NonNull("argh"), NonNull("argh"), NonNull("cool")]
  {
    TestSourceFacts();
    var m := new SerializableUnmodifiableHashMap(StringMethods(), StringMethods(), TestSource());
    size := m.Size();
    var ks := m.KeySet();
    var vs := m.Values();
    var es := m.EntrySet();
    keys, values, entryCount := ks.elements, vs.elements, es.Size();
  }
}

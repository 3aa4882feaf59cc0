/**
  `impl.SerializableHashMap`: a mutable hash map whose `keySet` and `values` are new containers
  filled from the map, not live views. A hash map's iteration order is modelled as the order in
  which its keys were first put.
*/
module HashMap {
  import opened Lang
  import HashSet
  import ArrayList

  class SerializableHashMap<K(==), V> {
    /** The keys in iteration order, and what each is mapped to. */
    var keys: seq<K>
    var mappings: map<K, V>

    ghost predicate Valid()
      reads this
    {
      Distinct(keys) && Elems(keys) == mappings.Keys
    }

    function Size(): nat
      reads this
    {
      |keys|
    }

    /** The default constructor: an empty map. */
    constructor ()
      ensures Valid() && mappings == map[]
    {
      keys, mappings := [], map[];
    }

    /** The capacity constructor: an empty map, or `IllegalArgumentException` for a negative capacity. */
    static method WithCapacity(pInitialCapacity: int) returns (r: Result<SerializableHashMap<K, V>>)
      ensures pInitialCapacity < 0 <==> r == Failure(IllegalArgument)
      ensures r.Success? ==> fresh(r.value) && r.value.Valid() && r.value.mappings == map[]
    {
      r := WithCapacityAndLoadFactor(pInitialCapacity, 0.75);
    }

    /**
      The capacity and load factor constructor: an empty map, or `IllegalArgumentException` for a
      negative capacity or a load factor that is not positive.
    */
    static method WithCapacityAndLoadFactor(pInitialCapacity: int, pLoadFactor: real) returns (r: Result<SerializableHashMap<K, V>>)
      ensures pInitialCapacity < 0 || pLoadFactor <= 0.0 <==> r == Failure(IllegalArgument)
      ensures r.Success? ==> fresh(r.value) && r.value.Valid() && r.value.mappings == map[]
    {
      if pInitialCapacity < 0 || pLoadFactor <= 0.0 {
        r := Failure(IllegalArgument);
      } else {
        var m := new SerializableHashMap();
        r := Success(m);
      }
    }

    /** The Map constructor: `put` of each mapping of the source, so exactly the source's mappings. */
    constructor Copy(pMap: MapSource<K, V>)
      requires WellFormed(pMap)
      ensures Valid() && mappings == pMap.mappings && keys == pMap.keys
    {
      keys, mappings := [], map[];
      new;
      PutAll(pMap);
      assert map[] + pMap.mappings == pMap.mappings;
    }

    /** The Map constructor handed a null map throws `NullPointerException`. */
    static method FromMap(pMap: Nullable<MapSource<K, V>>) returns (r: Result<SerializableHashMap<K, V>>)
      requires pMap.NonNull? ==> WellFormed(pMap.value)
      ensures pMap == Null <==> r == Failure(NullPointer)
      ensures r.Failure? ==> r.error == NullPointer
      ensures r.Success? ==> fresh(r.value) && r.value.Valid() && r.value.mappings == pMap.value.mappings
    {
      if pMap == Null {
        r := Failure(NullPointer);
      } else {
        var m := new SerializableHashMap.Copy(pMap.value);
        r := Success(m);
      }
    }

    /** The inherited `put`: the key is mapped to the value, replacing an earlier mapping of it. */
    method Put(pKey: K, pValue: V) returns (previous: Nullable<V>)
      requires Valid()
      modifies this
      ensures Valid() && mappings == old(mappings)[pKey := pValue]
      ensures keys == AddAbsent(old(keys), pKey)
      ensures previous == if pKey in old(mappings) then NonNull(old(mappings)[pKey]) else Null
    {
      AddAbsentFacts(keys, pKey);
      previous := if pKey in mappings then NonNull(mappings[pKey]) else Null;
      keys := AddAbsent(keys, pKey);
      mappings := mappings[pKey := pValue];
    }

    /** The inherited `putAll`: `put` of each mapping of the source; the source's mappings win. */
    method PutAll(pMap: MapSource<K, V>)
      requires Valid() && WellFormed(pMap)
      modifies this
      ensures Valid() && mappings == old(mappings) + pMap.mappings
      ensures old(keys) == [] ==> keys == pMap.keys
    {
      var i := 0;
      while i < |pMap.keys|
        invariant 0 <= i <= |pMap.keys|
        invariant Valid()
        invariant old(keys) == [] ==> keys == pMap.keys[..i]
        invariant mappings == old(mappings) + Restrict(pMap.mappings, Elems(pMap.keys[..i]))
      {
        var k := pMap.keys[i];
        assert Elems(pMap.keys[..i + 1]) == Elems(pMap.keys[..i]) + {k} by {
          assert pMap.keys[..i + 1] == pMap.keys[..i] + [k];
        }
        RestrictStep(old(mappings), pMap.mappings, Elems(pMap.keys[..i]), k);
        assert k !in pMap.keys[..i];
        var _ := Put(k, pMap.mappings[k]);
        i := i + 1;
      }
      assert pMap.keys[..i] == pMap.keys;
      RestrictAll(pMap.mappings);
    }

    /** `clone`: a new map of the same class with the same mappings. */
    method Clone() returns (c: SerializableHashMap<K, V>)
      requires Valid()
      ensures fresh(c) && c.Valid() && c.mappings == mappings
    {
      c := new SerializableHashMap.Copy(MapSource(keys, mappings));
    }

    /** `keySet`: a new hash set holding exactly the keys. */
    method KeySet() returns (s: HashSet.SerializableHashSet<K>)
      requires Valid()
      ensures fresh(s) && s.Valid() && s.elements == keys && Elems(s.elements) == mappings.Keys
    {
      s := new HashSet.SerializableHashSet.Copy(keys);
      DedupOfDistinct(keys);
    }

    /** `values`: a new list of the value of each mapping, duplicates kept. */
    method Values() returns (l: ArrayList.SerializableArrayList<V>)
      requires Valid()
      ensures fresh(l) && l.elements == ValuesOf(keys, mappings) && |l.elements| == Size()
    {
      l := new ArrayList.SerializableArrayList.Copy(ValuesOf(keys, mappings));
    }
  }

  /**
    A key set is a copy: adding a key to it leaves the map's keys as they were, and it holds the
    map's keys plus what was added.
  */
  method KeySetIsDetached<K(==), V>(source: MapSource<K, V>, x: K) returns (mapKeys: set<K>, setKeys: set<K>)
    requires WellFormed(source)
    ensures mapKeys == source.mappings.Keys
    ensures setKeys == source.mappings.Keys + {x}
  {
    var m := new SerializableHashMap.Copy(source);
    var ks := m.KeySet();
    var _ := ks.Add(x);
    mapKeys, setKeys := m.mappings.Keys, Elems(ks.elements);
  }

  /** A value list is a copy: adding to it leaves the map as it was. */
  method ValuesAreDetached<K(==), V>(source: MapSource<K, V>, x: V) returns (mappings: map<K, V>, values: seq<V>)
    requires WellFormed(source)
    ensures mappings == source.mappings
    ensures values == ValuesOf(source.keys, source.mappings) + [x]
  {
    var m := new SerializableHashMap.Copy(source);
    var vs := m.Values();
    var _ := vs.Add(x);
    mappings, values := m.mappings, vs.elements;
  }
}

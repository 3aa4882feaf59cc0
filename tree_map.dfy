/**
  `SerializableTreeMap`: a mutable tree map. Its `keySet` and `values` are new containers filled
  from the map, and `subMap`, `headMap` and `tailMap` are new maps built by the Map constructor,
  so they are ordered naturally whatever the ordering of the map they came from.
*/
module TreeMap {
  import opened Lang
  import opened Ordering
  import TreeSet
  import ArrayList

  class SerializableTreeMap<K(==,!new), V> {
    /** The natural ordering of the key type (its `compareTo`). */
    const natural: (K, K) -> int
    /** The comparator the tree was created with; null stands for natural ordering. */
    var comparator: Nullable<(K, K) -> int>
    /** The keys of the tree, in ascending order, and what each is mapped to. */
    var keys: seq<K>
    var mappings: map<K, V>

    function Order(): (K, K) -> int
      reads this
    {
      Active(natural, comparator)
    }

    ghost predicate Valid()
      reads this
    {
      IsComparator(Order()) && Sorted(keys, Order()) && Elems(keys) == mappings.Keys
    }

    function Size(): nat
      reads this
    {
      |keys|
    }

    /** The empty constructor: natural ordering. */
    constructor Empty(natural: (K, K) -> int)
      requires IsComparator(natural)
      ensures Valid() && this.natural == natural && comparator == Null && mappings == map[]
    {
      this.natural := natural;
      comparator := Null;
      keys, mappings := [], map[];
    }

    /** The comparator constructor: an empty map ordered by `pComparator`, or naturally when it is null. */
    constructor WithComparator(natural: (K, K) -> int, pComparator: Nullable<(K, K) -> int>)
      requires IsComparator(Active(natural, pComparator))
      ensures Valid() && this.natural == natural && comparator == pComparator && mappings == map[]
    {
      this.natural := natural;
      comparator := pComparator;
      keys, mappings := [], map[];
    }

    /** The Map constructor: an empty naturally ordered tree and `putAll` of the source. */
    constructor (natural: (K, K) -> int, pMap: MapSource<K, V>)
      requires IsComparator(natural) && WellFormed(pMap)
      ensures Valid() && this.natural == natural && comparator == Null
      ensures mappings == pMap.mappings
    {
      this.natural := natural;
      comparator := Null;
      keys, mappings := [], map[];
      new;
      PutAll(pMap);
      assert map[] + pMap.mappings == pMap.mappings;
    }

    /** The Map constructor handed a null map throws `NullPointerException`. */
    static method FromMap(natural: (K, K) -> int, pMap: Nullable<MapSource<K, V>>) returns (r: Result<SerializableTreeMap<K, V>>)
      requires IsComparator(natural) && (pMap.NonNull? ==> WellFormed(pMap.value))
      ensures pMap == Null <==> r == Failure(NullPointer)
      ensures r.Failure? ==> r.error == NullPointer
      ensures r.Success? ==> fresh(r.value) && r.value.Valid() && r.value.natural == natural && r.value.comparator == Null
      ensures r.Success? ==> r.value.mappings == pMap.value.mappings
    {
      if pMap == Null {
        r := Failure(NullPointer);
      } else {
        var m := new SerializableTreeMap(natural, pMap.value);
        r := Success(m);
      }
    }

    /**
      The sorted-map constructor: the source's comparator and mappings, its keys already in the
      source's ascending order.
    */
    constructor FromSorted(natural: (K, K) -> int, pMap: MapSource<K, V>, pComparator: Nullable<(K, K) -> int>)
      requires IsComparator(Active(natural, pComparator)) && WellFormed(pMap)
      requires Sorted(pMap.keys, Active(natural, pComparator))
      ensures Valid() && this.natural == natural && comparator == pComparator
      ensures keys == pMap.keys && mappings == pMap.mappings
    {
      this.natural := natural;
      comparator := pComparator;
      keys, mappings := pMap.keys, pMap.mappings;
    }

    /** The sorted-map constructor handed a null map throws `NullPointerException`. */
    static method FromSortedMap(natural: (K, K) -> int, pMap: Nullable<MapSource<K, V>>, pComparator: Nullable<(K, K) -> int>)
      returns (r: Result<SerializableTreeMap<K, V>>)
      requires pMap.NonNull? ==> IsComparator(Active(natural, pComparator)) && WellFormed(pMap.value)
      requires pMap.NonNull? ==> Sorted(pMap.value.keys, Active(natural, pComparator))
      ensures pMap == Null <==> r == Failure(NullPointer)
      ensures r.Failure? ==> r.error == NullPointer
      ensures r.Success? ==> fresh(r.value) && r.value.Valid() && r.value.natural == natural
      ensures r.Success? ==> r.value.comparator == pComparator && r.value.mappings == pMap.value.mappings
    {
      if pMap == Null {
        r := Failure(NullPointer);
      } else {
        var m := new SerializableTreeMap.FromSorted(natural, pMap.value, pComparator);
        r := Success(m);
      }
    }

    /** The field-by-field copy `clone` makes. */
    constructor Copy(natural: (K, K) -> int, comparator: Nullable<(K, K) -> int>, keys: seq<K>, mappings: map<K, V>)
      requires IsComparator(Active(natural, comparator)) && Sorted(keys, Active(natural, comparator)) && Elems(keys) == mappings.Keys
      ensures Valid() && this.natural == natural && this.comparator == comparator
      ensures this.keys == keys && this.mappings == mappings
    {
      this.natural := natural;
      this.comparator := comparator;
      this.keys, this.mappings := keys, mappings;
    }

    /** The inherited `put`: the key is mapped to the value, replacing an earlier mapping of it. */
    method Put(pKey: K, pValue: V) returns (previous: Nullable<V>)
      requires Valid()
      modifies this
      ensures Valid() && comparator == old(comparator)
      ensures mappings == old(mappings)[pKey := pValue]
      ensures keys == Insert(old(keys), pKey, Order())
      ensures previous == if pKey in old(mappings) then NonNull(old(mappings)[pKey]) else Null
    {
      InsertSorted(keys, pKey, Order());
      InsertElems(keys, pKey, Order());
      previous := if pKey in mappings then NonNull(mappings[pKey]) else Null;
      keys := Insert(keys, pKey, Order());
      mappings := mappings[pKey := pValue];
    }

    /** The inherited `putAll`: `put` of each mapping of the source; the source's mappings win. */
    method PutAll(pMap: MapSource<K, V>)
      requires Valid() && WellFormed(pMap)
      modifies this
      ensures Valid() && comparator == old(comparator)
      ensures mappings == old(mappings) + pMap.mappings
    {
      var i := 0;
      while i < |pMap.keys|
        invariant 0 <= i <= |pMap.keys|
        invariant Valid() && comparator == old(comparator)
        invariant mappings == old(mappings) + Restrict(pMap.mappings, Elems(pMap.keys[..i]))
      {
        var k := pMap.keys[i];
        assert Elems(pMap.keys[..i + 1]) == Elems(pMap.keys[..i]) + {k} by {
          assert pMap.keys[..i + 1] == pMap.keys[..i] + [k];
        }
        RestrictStep(old(mappings), pMap.mappings, Elems(pMap.keys[..i]), k);
        var _ := Put(k, pMap.mappings[k]);
        i := i + 1;
      }
      assert pMap.keys[..i] == pMap.keys;
      RestrictAll(pMap.mappings);
    }

    /** `clone`: a new map with the same comparator and the same mappings. */
    method Clone() returns (c: SerializableTreeMap<K, V>)
      requires Valid()
      ensures fresh(c) && c.Valid() && c.natural == natural && c.comparator == comparator
      ensures c.keys == keys && c.mappings == mappings
    {
      c := new SerializableTreeMap.Copy(natural, comparator, keys, mappings);
    }

    /** `comparator`: the tree's comparator; the map is ordered by it, or naturally when it is null. */
    function Comparator(): (c: Nullable<(K, K) -> int>)
      reads this
      ensures c == Null ==> Order() == natural
      ensures c.NonNull? ==> Order() == c.value
    {
      comparator
    }

    /**
      `keySet`: the keys copied by the tree set's collection constructor, a new naturally ordered set
      holding exactly the map's keys; for a naturally ordered map, in the same order.
    */
    method KeySet() returns (s: TreeSet.SerializableTreeSet<K>)
      requires Valid() && IsComparator(natural)
      ensures fresh(s) && s.Valid() && s.natural == natural && s.comparator == Null
      ensures Elems(s.elements) == mappings.Keys
      ensures comparator == Null ==> s.elements == keys
    {
      s := new TreeSet.SerializableTreeSet(natural, keys);
      if comparator == Null {
        SortedUnique(s.elements, keys, natural);
      }
    }

    /** `values`: a new list of the value of each key, in ascending key order, duplicates kept. */
    method Values() returns (l: ArrayList.SerializableArrayList<V>)
      requires Valid()
      ensures fresh(l) && l.elements == ValuesOf(keys, mappings) && |l.elements| == Size()
    {
      l := new ArrayList.SerializableArrayList.Copy(ValuesOf(keys, mappings));
    }

    /** The mappings whose keys pass `keep`, handed to the Map constructor as the view would present them. */
    method CopyRange(keep: K -> bool) returns (m: SerializableTreeMap<K, V>)
      requires Valid() && IsComparator(natural)
      ensures fresh(m) && m.Valid() && m.natural == natural && m.comparator == Null
      ensures m.mappings == Restrict(mappings, set k | k in keys && keep(k))
    {
      FilterFacts(keys, keep, Order());
      SortedDistinct(Filter(keys, keep), Order());
      var view := MapSource(Filter(keys, keep), Restrict(mappings, set k | k in keys && keep(k)));
      m := new SerializableTreeMap(natural, view);
    }

    /**
      `subMap(from, to)`: the platform refuses bounds in the wrong order with
      `IllegalArgumentException`; otherwise the mappings with keys from `from` (inclusive) to `to`
      (exclusive) are copied into a new naturally ordered map.
    */
    method SubMap(pFromKey: K, pToKey: K) returns (r: Result<SerializableTreeMap<K, V>>)
      requires Valid() && IsComparator(natural)
      ensures Order()(pFromKey, pToKey) > 0 <==> r == Failure(IllegalArgument)
      ensures r.Success? ==> fresh(r.value) && r.value.Valid() && r.value.comparator == Null
      ensures r.Success? ==>
        r.value.mappings == Restrict(mappings, set k | k in keys && Order()(k, pFromKey) >= 0 && Order()(k, pToKey) < 0)
    {
      var cmp := Order();
      if cmp(pFromKey, pToKey) > 0 {
        r := Failure(IllegalArgument);
      } else {
        var m := CopyRange(k => cmp(k, pFromKey) >= 0 && cmp(k, pToKey) < 0);
        r := Success(m);
      }
    }

    /** `headMap(to)`: the mappings with keys below `to`, copied into a new naturally ordered map. */
    method HeadMap(pToKey: K) returns (m: SerializableTreeMap<K, V>)
      requires Valid() && IsComparator(natural)
      ensures fresh(m) && m.Valid() && m.comparator == Null
      ensures m.mappings == Restrict(mappings, set k | k in keys && Order()(k, pToKey) < 0)
    {
      var cmp := Order();
      m := CopyRange(k => cmp(k, pToKey) < 0);
    }

    /** `tailMap(from)`: the mappings with keys at or above `from`, copied into a new naturally ordered map. */
    method TailMap(pFromKey: K) returns (m: SerializableTreeMap<K, V>)
      requires Valid() && IsComparator(natural)
      ensures fresh(m) && m.Valid() && m.comparator == Null
      ensures m.mappings == Restrict(mappings, set k | k in keys && Order()(k, pFromKey) >= 0)
    {
      var cmp := Order();
      m := CopyRange(k => cmp(k, pFromKey) >= 0);
    }
  }

  /**
    A key set is a copy: adding a key to it leaves the map's keys as they were, and it holds the
    map's keys plus what was added.
  */
  method KeySetIsDetached<K(==,!new), V>(natural: (K, K) -> int, source: MapSource<K, V>, x: K)
    returns (mapKeys: set<K>, setKeys: set<K>)
    requires IsComparator(natural) && WellFormed(source)
    ensures mapKeys == source.mappings.Keys
    ensures setKeys == source.mappings.Keys + {x}
  {
    var m := new SerializableTreeMap(natural, source);
    var ks := m.KeySet();
    var _ := ks.Add(x);
    mapKeys, setKeys := m.mappings.Keys, Elems(ks.elements);
  }

  /**
    A head map is a copy: putting into it leaves the map it came from as it was, and it holds the
    mappings below the bound plus the one put.
  */
  method HeadMapIsDetached<K(==,!new), V>(natural: (K, K) -> int, source: MapSource<K, V>, to: K, k: K, v: V)
    returns (original: map<K, V>, head: map<K, V>)
    requires IsComparator(natural) && WellFormed(source)
    ensures original == source.mappings
    ensures head == Restrict(source.mappings, set y | y in source.mappings && natural(y, to) < 0)[k := v]
  {
    var m := new SerializableTreeMap(natural, source);
    var h := m.HeadMap(to);
    assert m.Order() == natural;
    assert (set y | y in m.keys && natural(y, to) < 0) == set y | y in source.mappings && natural(y, to) < 0 by {
      forall y ensures y in m.keys <==> y in source.mappings {
        assert y in Elems(m.keys) <==> y in m.mappings;
      }
    }
    var _ := h.Put(k, v);
    original, head := m.mappings, h.mappings;
  }
}

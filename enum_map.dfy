/**
  `impl.SerializableEnumMap`: a mutable map keyed by the constants of one enum type, iterated in the
  constants' declaration order. Its `keySet` and `values` are new containers filled from the map.
  A constant is modelled by its ordinal.
*/
module EnumMap {
  import opened Lang
  import HashSet
  import ArrayList

  /** The `Class` object of an enum type: its constants are the ordinals `0 .. size - 1`. */
  datatype EnumType = EnumType(size: nat)

  /** The mapped ordinals from `i` up to (not including) `n`, ascending: the order an `EnumMap` iterates. */
  function KeysFrom<V>(m: map<nat, V>, i: nat, n: nat): seq<nat>
    decreases if i <= n then n - i else 0
  {
    if i >= n then [] else (if i in m then [i] else []) + KeysFrom(m, i + 1, n)
  }

  /** The iteration order holds each mapped ordinal in range once, ascending. */
  lemma {:induction false} KeysFromFacts<V>(m: map<nat, V>, i: nat, n: nat)
    ensures Elems(KeysFrom(m, i, n)) == set k | k in m && i <= k < n
    ensures forall a, b :: 0 <= a < b < |KeysFrom(m, i, n)| ==> KeysFrom(m, i, n)[a] < KeysFrom(m, i, n)[b]
    ensures forall a :: 0 <= a < |KeysFrom(m, i, n)| ==> i <= KeysFrom(m, i, n)[a]
    decreases if i <= n then n - i else 0
  {
    if i < n {
      KeysFromFacts(m, i + 1, n);
      var rest := KeysFrom(m, i + 1, n);
      var head: seq<nat> := if i in m then [i] else [];
      assert KeysFrom(m, i, n) == head + rest;
      assert Elems(head + rest) == Elems(head) + Elems(rest);
    }
  }

  class SerializableEnumMap<V> {
    /** The key type the map was created for. */
    const keyType: EnumType
    /** What each mapped constant is mapped to. */
    var mappings: map<nat, V>

    /** Only constants of the key type are mapped. */
    ghost predicate Valid()
      reads this
    {
      forall k :: k in mappings ==> k < keyType.size
    }

    function Size(): nat
      reads this
    {
      |mappings.Keys|
    }

    /** The mapped constants in declaration order. */
    function Keys(): (r: seq<nat>)
      reads this
      requires Valid()
      ensures Elems(r) == mappings.Keys && Distinct(r)
      ensures forall a, b :: 0 <= a < b < |r| ==> r[a] < r[b]
    {
      KeysFromFacts(mappings, 0, keyType.size);
      KeysFrom(mappings, 0, keyType.size)
    }

    /** The key-type constructor: an empty map for the constants of `pKeyType`. */
    constructor (pKeyType: EnumType)
      ensures Valid() && keyType == pKeyType && mappings == map[]
    {
      keyType := pKeyType;
      mappings := map[];
    }

    /** The key-type constructor handed a null type throws `NullPointerException`. */
    static method FromKeyType(pKeyType: Nullable<EnumType>) returns (r: Result<SerializableEnumMap<V>>)
      ensures pKeyType == Null <==> r == Failure(NullPointer)
      ensures r.Failure? ==> r.error == NullPointer
      ensures r.Success? ==> fresh(r.value) && r.value.Valid() && r.value.keyType == pKeyType.value && r.value.mappings == map[]
    {
      if pKeyType == Null {
        r := Failure(NullPointer);
      } else {
        var m := new SerializableEnumMap(pKeyType.value);
        r := Success(m);
      }
    }

    /** The enum map constructor: the same key type and the same mappings as the source. */
    constructor Copy(pMap: SerializableEnumMap<V>)
      requires pMap.Valid()
      ensures Valid() && keyType == pMap.keyType && mappings == pMap.mappings
    {
      keyType := pMap.keyType;
      mappings := pMap.mappings;
    }

    /** The enum map constructor handed a null map throws `NullPointerException`. */
    static method FromEnumMap(pMap: SerializableEnumMap?<V>) returns (r: Result<SerializableEnumMap<V>>)
      requires pMap != null ==> pMap.Valid()
      ensures pMap == null <==> r == Failure(NullPointer)
      ensures r.Failure? ==> r.error == NullPointer
      ensures r.Success? ==> fresh(r.value) && r.value.Valid()
      ensures r.Success? ==> r.value.keyType == pMap.keyType && r.value.mappings == pMap.mappings
    {
      if pMap == null {
        r := Failure(NullPointer);
      } else {
        var m := new SerializableEnumMap.Copy(pMap);
        r := Success(m);
      }
    }

    /** The inherited `put`: the constant is mapped to the value, replacing an earlier mapping of it. */
    method Put(pKey: nat, pValue: V) returns (previous: Nullable<V>)
      requires Valid() && pKey < keyType.size
      modifies this
      ensures Valid() && mappings == old(mappings)[pKey := pValue]
      ensures previous == if pKey in old(mappings) then NonNull(old(mappings)[pKey]) else Null
    {
      previous := if pKey in mappings then NonNull(mappings[pKey]) else Null;
      mappings := mappings[pKey := pValue];
    }

    /** `clone`: a new map with the same key type and the same mappings. */
    method Clone() returns (c: SerializableEnumMap<V>)
      requires Valid()
      ensures fresh(c) && c.Valid() && c.keyType == keyType && c.mappings == mappings
    {
      c := new SerializableEnumMap.Copy(this);
    }

    /** `keySet`: a new hash set of exactly the mapped constants, filled in declaration order. */
    method KeySet() returns (s: HashSet.SerializableHashSet<nat>)
      requires Valid()
      ensures fresh(s) && s.Valid() && s.elements == Keys() && Elems(s.elements) == mappings.Keys
    {
      var ks := Keys();
      s := new HashSet.SerializableHashSet.Copy(ks);
      DedupOfDistinct(ks);
    }

    /** `values`: a new list of the value of each mapped constant, in declaration order. */
    method Values() returns (l: ArrayList.SerializableArrayList<V>)
      requires Valid()
      ensures fresh(l) && l.elements == ValuesOf(Keys(), mappings) && |l.elements| == |Keys()|
    {
      l := new ArrayList.SerializableArrayList.Copy(ValuesOf(Keys(), mappings));
    }
  }

  /** Of three constants, only the first and the last are mapped. */
  lemma FirstAndLastMapped<V>(m: map<nat, V>)
    requires m.Keys == {0, 2}
    ensures KeysFrom(m, 0, 3) == [0, 2]
  {
    assert 1 !in m;
    assert KeysFrom(m, 3, 3) == [];
    assert KeysFrom(m, 2, 3) == [2];
    assert KeysFrom(m, 1, 3) == [2];
  }

  /**
    Putting the last constant of a three-constant enum before the first: the key set holds exactly
    the two mapped constants, and the values still come out in declaration order of their keys.
  */
  method ValuesInDeclarationOrder<V>(first: V, last: V) returns (keys: seq<nat>, values: seq<V>)
    ensures Elems(keys) == {0, 2} && values == [first, last]
  {
    var m := new SerializableEnumMap(EnumType(3));
    var _ := m.Put(2, last);
    var _ := m.Put(0, first);
    FirstAndLastMapped(m.mappings);
    var ks := m.KeySet();
    var vs := m.Values();
    keys, values := ks.elements, vs.elements;
  }
}

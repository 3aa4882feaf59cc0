/**
  `SerializableUnmodifiableEntry`: a value snapshot of a `Map.Entry`, taken when the unmodifiable
  map's entry set hands an entry out. It keeps the key, the value, the hash code and the text the
  source entry reported at that moment.
*/
module UnmodifiableEntry {
  import opened Lang

  /** `Object.hashCode` and `Object.toString` of a Java type, as a dictionary. */
  datatype ObjectMethods<!T> = ObjectMethods(hashCode: T -> bv32, toString: T -> string)

  /** `String.hashCode`: the characters read as the digits of a base-31 number, in 32-bit arithmetic. */
  function StringHashCode(s: string): bv32 {
    StringHashFrom(0, s)
  }

  function StringHashFrom(h: bv32, s: string): bv32
    decreases |s|
  {
    if s == [] then h else StringHashFrom(31 * h + (s[0] as int) as bv32, s[1..])
  }

  /** `hashCode` and `toString` of `java.lang.String`; a string's text is the string itself. */
  function StringMethods(): ObjectMethods<string> {
    ObjectMethods(StringHashCode, s => s)
  }

  /** `Objects.hashCode`: zero for null. */
  function HashOf<T>(m: ObjectMethods<T>, x: Nullable<T>): bv32 {
    match x
    case Null => 0
    case NonNull(v) => m.hashCode(v)
  }

  /** `String.valueOf`: "null" for null. */
  function TextOf<T>(m: ObjectMethods<T>, x: Nullable<T>): string {
    match x
    case Null => "null"
    case NonNull(v) => m.toString(v)
  }

  /** Any `Map.Entry`, as seen through `getKey`, `getValue`, `hashCode` and `toString`. */
  datatype MapEntry<K, V> = MapEntry(key: Nullable<K>, value: Nullable<V>, hash: bv32, text: string)

  /**
    An entry of a platform map (`HashMap.Node`): its hash code is the key's hash xor the value's,
    and its text is the key, "=", and the value, as the `Map.Entry` contract lays down.
  */
  function NodeView<K, V>(km: ObjectMethods<K>, vm: ObjectMethods<V>, k: Nullable<K>, v: Nullable<V>): MapEntry<K, V> {
    MapEntry(k, v, HashOf(km, k) ^ HashOf(vm, v), TextOf(km, k) + "=" + TextOf(vm, v))
  }

  /** What `equals` is handed: another `Map.Entry`, or an object of some other class. */
  datatype Candidate<K, V> = AnEntry(entry: MapEntry<K, V>) | NotAnEntry

  /** The private `eq`: null matches only null, anything else is compared with `equals`. */
  function Eq<T(==)>(a: Nullable<T>, b: Nullable<T>): (r: bool)
    ensures r <==> a == b
  {
    match a
    case Null => b.Null?
    case NonNull(x) => b.NonNull? && x == b.value
  }

  datatype SerializableUnmodifiableEntry<K(==), V(==)> =
    SerializableUnmodifiableEntry(iKey: Nullable<K>, iValue: Nullable<V>, iHashCode: bv32, iString: string)
  {
    function GetKey(): Nullable<K> { iKey }

    function GetValue(): Nullable<V> { iValue }

    function HashCode(): bv32 { iHashCode }

    function ToString(): string { iString }

    /** `setValue` always fails; a snapshot has no value to change. */
    function SetValue(pValue: Nullable<V>): (r: Result<Nullable<V>>)
      ensures r == Failure(UnsupportedOperation)
    {
      Failure(UnsupportedOperation)
    }

    /** `equals`: true exactly for a `Map.Entry` with an equal key and an equal value. */
    function Equals(pObject: Candidate<K, V>): (r: bool)
      ensures r <==> pObject.AnEntry? && pObject.entry.key == iKey && pObject.entry.value == iValue
      ensures pObject == NotAnEntry ==> !r
    {
      match pObject
      case NotAnEntry => false
      case AnEntry(t) => Eq(iKey, t.key) && Eq(iValue, t.value)
    }

    /** `clone`: a field-by-field copy, equal to this entry in every observer. */
    function Clone(): (c: SerializableUnmodifiableEntry<K, V>)
      ensures c.GetKey() == GetKey() && c.GetValue() == GetValue()
      ensures c.HashCode() == HashCode() && c.ToString() == ToString()
      ensures c.Equals(AnEntry(AsEntry()))
    {
      this
    }

    /** This snapshot seen as a `Map.Entry` by other code. */
    function AsEntry(): (e: MapEntry<K, V>)
      ensures e.key == GetKey() && e.value == GetValue() && e.hash == HashCode() && e.text == ToString()
    {
      MapEntry(iKey, iValue, iHashCode, iString)
    }
  }

  /** The constructor: captures the four observers of the source entry once. */
  function FromEntry<K(==), V(==)>(pEntry: MapEntry<K, V>): (e: SerializableUnmodifiableEntry<K, V>)
    ensures e.GetKey() == pEntry.key && e.GetValue() == pEntry.value
    ensures e.HashCode() == pEntry.hash && e.ToString() == pEntry.text
  {
    SerializableUnmodifiableEntry(pEntry.key, pEntry.value, pEntry.hash, pEntry.text)
  }

  /** Taking a snapshot and viewing it as an entry lose nothing, in either order. */
  lemma SnapshotRoundTrip<K, V>(pEntry: MapEntry<K, V>, e: SerializableUnmodifiableEntry<K, V>)
    ensures FromEntry(pEntry).AsEntry() == pEntry
    ensures FromEntry(e.AsEntry()) == e
  {
  }

  /**
    The snapshot reports exactly what the source entry reported when it was taken, and it is equal
    to an entry exactly when that entry has the source's key and value.
  */
  lemma SnapshotOfEntry<K, V>(pEntry: MapEntry<K, V>, other: MapEntry<K, V>)
    ensures FromEntry(pEntry).GetKey() == pEntry.key && FromEntry(pEntry).GetValue() == pEntry.value
    ensures FromEntry(pEntry).HashCode() == pEntry.hash && FromEntry(pEntry).ToString() == pEntry.text
    ensures FromEntry(pEntry).Equals(AnEntry(other)) <==> other.key == pEntry.key && other.value == pEntry.value
  {
  }

  /**
    `equals` is symmetric: the snapshot equals a platform entry exactly when that entry, comparing by
    the `Map.Entry` contract (equal keys and equal values), equals the snapshot.
  */
  lemma EqualsSymmetric<K, V>(s: SerializableUnmodifiableEntry<K, V>, t: SerializableUnmodifiableEntry<K, V>)
    ensures s.Equals(AnEntry(t.AsEntry())) <==> t.Equals(AnEntry(s.AsEntry()))
  {
  }

  /** A snapshot of a platform map's entry has that entry's hash code and text. */
  lemma SnapshotOfNode<K, V>(km: ObjectMethods<K>, vm: ObjectMethods<V>, k: Nullable<K>, v: Nullable<V>)
    ensures FromEntry(NodeView(km, vm, k, v)).HashCode() == HashOf(km, k) ^ HashOf(vm, v)
    ensures FromEntry(NodeView(km, vm, k, v)).ToString() == TextOf(km, k) + "=" + TextOf(vm, v)
    ensures k == Null && v == Null ==> FromEntry(NodeView(km, vm, k, v)).HashCode() == 0
  {
  }
}

/**
  Vocabulary shared by every container of the library: Java's null reference, the exceptions the
  containers raise, the outcome of a call that may throw, and the duplicate-free sequences that
  stand for the contents of a hash-backed store in its iteration order.
*/
module Lang {

  /** A Java reference that may be null, where the code under study tests for or passes on null. */
  datatype Nullable<T> = Null | NonNull(value: T)

  /** The exceptions raised by the containers or passed on from the platform containers beneath them. */
  datatype Exception =
    | UnsupportedOperation  // java.lang.UnsupportedOperationException: every rejected mutation
    | IllegalArgument       // java.lang.IllegalArgumentException
    | NullPointer           // java.lang.NullPointerException
    | IndexOutOfBounds      // java.lang.IndexOutOfBoundsException
    | NoSuchElement         // java.util.NoSuchElementException

  /** The outcome of a Java call that returns a value or throws. */
  datatype Result<T> = Success(value: T) | Failure(error: Exception)

  /** The outcome of a Java call declared `void` that may throw. */
  datatype Outcome = Pass | Fail(error: Exception)

  /** The elements of a sequence, as a set. */
  function Elems<T>(s: seq<T>): set<T> {
    set x | x in s
  }

  /** No element occurs twice: the iteration order of a set. */
  ghost predicate Distinct<T>(s: seq<T>) {
    forall i, j :: 0 <= i < j < |s| ==> s[i] != s[j]
  }

  /**
    `HashSet.add` on a store kept as its iteration order: an element already present leaves the
    store as it is, a new one joins at the end.
  */
  function AddAbsent<T(==)>(s: seq<T>, x: T): seq<T> {
    if x in s then s else s + [x]
  }

  /** The store left by adding the elements of `src` one by one, in order, to an empty hash set. */
  function Dedup<T(==)>(src: seq<T>): seq<T> {
    if src == [] then [] else AddAbsent(Dedup(src[..|src| - 1]), src[|src| - 1])
  }

  lemma AddAbsentFacts<T>(s: seq<T>, x: T)
    requires Distinct(s)
    ensures Distinct(AddAbsent(s, x))
    ensures Elems(AddAbsent(s, x)) == Elems(s) + {x}
    ensures x in s ==> AddAbsent(s, x) == s
    ensures x !in s ==> |AddAbsent(s, x)| == |s| + 1
  {
    if x !in s {
      var r := s + [x];
      forall i, j | 0 <= i < j < |r| ensures r[i] != r[j] {
        if j == |s| { assert r[i] == s[i] && s[i] in s; }
      }
    }
  }

  /** Adding a sequence element by element to an empty hash set keeps each distinct element once. */
  lemma {:induction false} DedupFacts<T>(src: seq<T>)
    ensures Distinct(Dedup(src))
    ensures Elems(Dedup(src)) == Elems(src)
    ensures |Dedup(src)| <= |src|
  {
    if src != [] {
      var init, last := src[..|src| - 1], src[|src| - 1];
      DedupFacts(init);
      AddAbsentFacts(Dedup(init), last);
      assert src == init + [last];
      ElemsSnoc(init, last);
    }
  }

  lemma ElemsSnoc<T>(s: seq<T>, x: T)
    ensures Elems(s + [x]) == Elems(s) + {x}
  {
    assert forall y :: y in s + [x] <==> y in s || y == x;
  }

  /**
    One step of an `addAll` loop over `src`: after `add(src[i])` the store holds the start's
    elements and those of `src[..i + 1]`, and the set has changed exactly when one of those was new.
  */
  lemma AddAllStep<T>(start: set<T>, src: seq<T>, i: nat, current: set<T>, changed: bool, added: bool)
    requires i < |src| && current == start + Elems(src[..i])
    requires changed <==> !(Elems(src[..i]) <= start)
    requires added <==> src[i] !in current
    ensures current + {src[i]} == start + Elems(src[..i + 1])
    ensures (changed || added) <==> !(Elems(src[..i + 1]) <= start)
  {
    assert src[..i + 1] == src[..i] + [src[i]];
    ElemsSnoc(src[..i], src[i]);
  }

  /** Adding one more element of the source extends the deduplicated store by that `add`. */
  lemma DedupSnoc<T>(src: seq<T>, i: nat)
    requires i < |src|
    ensures Dedup(src[..i + 1]) == AddAbsent(Dedup(src[..i]), src[i])
  {
    assert src[..i + 1][..i] == src[..i];
  }

  /** A source that is already duplicate-free (a `java.util.Set`) is copied whole, in its own order. */
  lemma {:induction false} DedupOfDistinct<T>(src: seq<T>)
    requires Distinct(src)
    ensures Dedup(src) == src
  {
    if src != [] {
      var init := src[..|src| - 1];
      assert Distinct(init) by {
        forall i, j | 0 <= i < j < |init| ensures init[i] != init[j] {
          assert init[i] == src[i] && init[j] == src[j];
        }
      }
      DedupOfDistinct(init);
      assert src[|src| - 1] !in init by {
        forall i | 0 <= i < |init| ensures init[i] != src[|src| - 1] {
          assert init[i] == src[i];
        }
      }
      assert src == init + [src[|src| - 1]];
    }
  }

  /** A `java.util.Map` handed to a constructor: its keys in iteration order and its mappings. */
  datatype MapSource<K, V> = MapSource(keys: seq<K>, mappings: map<K, V>)

  /** Each key of the map occurs once in its iteration order, and the order has no other keys. */
  ghost predicate WellFormed<K, V>(m: MapSource<K, V>) {
    Distinct(m.keys) && Elems(m.keys) == m.mappings.Keys
  }

  /** The value of each key in turn: what `values()` of a map iterates. */
  function ValuesOf<K, V>(keys: seq<K>, mappings: map<K, V>): (r: seq<V>)
    requires Elems(keys) <= mappings.Keys
    ensures |r| == |keys|
    ensures forall i :: 0 <= i < |keys| ==> r[i] == mappings[keys[i]]
  {
    if keys == [] then [] else [mappings[keys[0]]] + ValuesOf(keys[1..], mappings)
  }

  /** The mappings of `m` whose keys lie in `ks`: the contents of a range view of a map. */
  function Restrict<K, V>(m: map<K, V>, ks: set<K>): (r: map<K, V>)
    ensures r.Keys == m.Keys * ks
    ensures forall k :: k in r ==> r[k] == m[k]
  {
    map k | k in m && k in ks :: m[k]
  }

  /** Putting one more mapping of `m` extends the restriction of `m` by its key. */
  lemma RestrictStep<K, V>(base: map<K, V>, m: map<K, V>, ks: set<K>, k: K)
    requires k in m
    ensures (base + Restrict(m, ks))[k := m[k]] == base + Restrict(m, ks + {k})
  {
  }

  lemma RestrictAll<K, V>(m: map<K, V>)
    ensures Restrict(m, m.Keys) == m
  {
  }
}

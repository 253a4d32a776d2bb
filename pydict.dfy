/** Python's `dict` with string keys: a finite map that remembers the order in
    which its keys were first inserted. Assigning to a present key keeps its
    place; a new key goes to the end. */
module PyDict {

  datatype RawDict<V> = RawDict(keys: seq<string>, entries: map<string, V>)

  /** The keys are listed once each, and exactly the keys of `entries` are. */
  ghost predicate WellFormed<V>(d: RawDict<V>) {
    && Distinct(d.keys)
    && (forall k :: k in d.entries <==> k in d.keys)
  }

  /** No key is listed twice. */
  predicate Distinct(keys: seq<string>) {
    forall i, j | 0 <= i < j < |keys| :: keys[i] != keys[j]
  }

  /** The value under the `i`-th key. */
  function At<V>(d: Dict<V>, i: nat): V
    requires i < |d.keys|
  {
    d.entries[d.keys[i]]
  }

  type Dict<V> = d: RawDict<V> | WellFormed(d) witness RawDict([], map[])

  /** `{}` */
  function Empty<V>(): Dict<V> {
    RawDict([], map[])
  }

  /** `d[k] = v` */
  function Put<V>(d: Dict<V>, k: string, v: V): Dict<V> {
    if k in d.entries then RawDict(d.keys, d.entries[k := v])
    else
      RawDict(d.keys + [k], d.entries[k := v])
  }

  /** Where `d[k] = v` puts the key, and what every key then maps to. */
  lemma PutSpec<V>(d: Dict<V>, k: string, v: V)
    ensures Put(d, k, v).keys == d.keys + (if k in d.entries then [] else [k])
    ensures Put(d, k, v).entries == d.entries[k := v]
  {
  }

  /** Assigning the same value twice is assigning it once. */
  lemma PutTwice<V>(d: Dict<V>, k: string, v: V)
    ensures Put(Put(d, k, v), k, v) == Put(d, k, v)
  {
  }

  /** `len(d)` */
  function Size<V>(d: Dict<V>): nat {
    |d.keys|
  }

  /** The keys in order, leaving out `k`. */
  function KeysWithout(keys: seq<string>, k: string): (r: seq<string>)
    ensures forall x :: x in r <==> x in keys && x != k
    ensures |r| <= |keys|
  {
    if keys == [] then []
    else KeysWithout(keys[..|keys| - 1], k) + (if keys[|keys| - 1] == k then [] else [keys[|keys| - 1]])
  }
}

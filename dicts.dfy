/** Python's insertion-ordered `dict`, as a sequence of keys beside a map.
    Assigning to an existing key keeps its position; a new key goes last. */
module OrderedDicts {

  /** No key occurs twice. */
  ghost predicate Distinct<K>(keys: seq<K>) {
    forall i, j :: 0 <= i < j < |keys| ==> keys[i] != keys[j]
  }

  /** `xs` is `ys` with some elements left out, the rest in their order. */
  ghost predicate SubsequenceOf<K>(xs: seq<K>, ys: seq<K>)
    decreases |ys|
  {
    if |xs| == 0 then true
    else if |ys| == 0 then false
    else (xs[|xs| - 1] == ys[|ys| - 1] && SubsequenceOf(xs[..|xs| - 1], ys[..|ys| - 1]))
         || SubsequenceOf(xs, ys[..|ys| - 1])
  }

  /** `keys` lists the keys of `m`, each once: the dict's iteration order. */
  ghost predicate Indexes<K(!new), V>(keys: seq<K>, m: map<K, V>) {
    Distinct(keys) && forall k :: k in keys <==> k in m
  }

  /** The key order after `d[k] = v`. */
  function Put<K(==,!new)>(keys: seq<K>, k: K): (r: seq<K>)
    ensures k in r
    ensures forall x :: x in r <==> x in keys || x == k
  {
    if k in keys then keys else keys + [k]
  }

  /** An assignment keeps the key order of every earlier key and keeps the
      keys listing the map. */
  lemma PutIndexes<K(!new), V>(keys: seq<K>, m: map<K, V>, k: K, v: V)
    requires Indexes(keys, m)
    ensures Indexes(Put(keys, k), m[k := v])
    ensures keys <= Put(keys, k)
    ensures k in keys ==> Put(keys, k) == keys
    ensures k !in keys ==> |Put(keys, k)| == |keys| + 1
  {
    var r := Put(keys, k);
    if k !in keys {
      forall i, j | 0 <= i < j < |r|
        ensures r[i] != r[j]
      {
        if j == |keys| {
          assert r[i] == keys[i];
        }
      }
    }
  }
}

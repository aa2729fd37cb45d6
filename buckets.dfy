/** The map from a test key to the records that test produced, as both
    environments keep it (`std::map<Key, std::vector<Record>>`). */
module Buckets {

  /** The records filed under `k`, or none when the map has no entry for it. */
  function Bucket<K, R>(m: map<K, seq<R>>, k: K): seq<R> {
    if k in m then m[k] else []
  }

  /** `_insertRecord`: append `rec` to the bucket of `k`, creating a
      one-element bucket when `k` has none; every other bucket stays as it was. */
  function Insert<K, R>(m: map<K, seq<R>>, k: K, rec: R): (m': map<K, seq<R>>)
    ensures m'.Keys == m.Keys + {k}
    ensures k in m' && m'[k] == Bucket(m, k) + [rec]
    ensures k !in m ==> m'[k] == [rec]
    ensures forall j :: j in m && j != k ==> m'[j] == m[j]
  {
    m[k := Bucket(m, k) + [rec]]
  }

  /** Inserting `rs` one after another under the same key. */
  function FileAll<K, R>(m: map<K, seq<R>>, k: K, rs: seq<R>): (m': map<K, seq<R>>)
    ensures Bucket(m', k) == Bucket(m, k) + rs
    decreases |rs|
  {
    if rs == [] then m
    else
      var m0 := FileAll(m, k, rs[..|rs| - 1]);
      assert rs == rs[..|rs| - 1] + [rs[|rs| - 1]];
      Insert(m0, k, rs[|rs| - 1])
  }

  /** Filing under `k` leaves the bucket of every other key as it was. */
  lemma {:induction false} FileAllElsewhere<K, R>(m: map<K, seq<R>>, k: K, rs: seq<R>, j: K)
    requires j != k
    ensures Bucket(FileAll(m, k, rs), j) == Bucket(m, j)
    decreases |rs|
  {
    if rs != [] {
      FileAllElsewhere(m, k, rs[..|rs| - 1], j);
    }
  }

  /** Filing adds the key to the map exactly when there is something to file. */
  lemma {:induction false} FileAllKeys<K, R>(m: map<K, seq<R>>, k: K, rs: seq<R>)
    ensures FileAll(m, k, rs).Keys == if rs == [] then m.Keys else m.Keys + {k}
    decreases |rs|
  {
    if rs != [] {
      FileAllKeys(m, k, rs[..|rs| - 1]);
    }
  }

  /** Filing one more record extends the fold by one insertion. */
  lemma FileAllSnoc<K, R>(m: map<K, seq<R>>, k: K, rs: seq<R>, rec: R)
    ensures FileAll(m, k, rs + [rec]) == Insert(FileAll(m, k, rs), k, rec)
  {
    assert (rs + [rec])[..|rs|] == rs;
  }
}

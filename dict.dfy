/**
 * A Python dictionary literal with its insertion order, as the sequence of
 * its (key, value) entries, and `dict.get(key, default)` on it.
 */
module Dict {

  /** `key in d` */
  predicate HasKey<K(==), V>(table: seq<(K, V)>, key: K)
  {
    exists i :: 0 <= i < |table| && table[i].0 == key
  }

  /** A dictionary literal that writes every key once. */
  predicate DistinctKeys<K(==), V>(table: seq<(K, V)>)
  {
    forall i, j :: 0 <= i < j < |table| ==> table[i].0 != table[j].0
  }

  /** d.get(key, default): the value of the first entry with that key, else the default. */
  function Get<K(==), V>(table: seq<(K, V)>, key: K, default: V): V
  {
    if table == [] then default
    else if table[0].0 == key then table[0].1
    else Get(table[1..], key, default)
  }

  /** A lookup returns the value of an entry with the key, or the default when there is none. */
  lemma {:induction false} GetSpec<K, V>(table: seq<(K, V)>, key: K, default: V)
    ensures HasKey(table, key) ==> exists i :: 0 <= i < |table| && table[i] == (key, Get(table, key, default))
    ensures !HasKey(table, key) ==> Get(table, key, default) == default
  {
    if table != [] && table[0].0 != key {
      GetSpec(table[1..], key, default);
      var v := Get(table, key, default);
      if HasKey(table, key) {
        var i :| 0 <= i < |table| && table[i].0 == key;
        assert table[1..][i - 1].0 == key;
        var j :| 0 <= j < |table[1..]| && table[1..][j] == (key, v);
        assert table[j + 1] == (key, v);
      }
    }
  }

  /** In a table without repeated keys, every entry is what a lookup of its key returns. */
  lemma {:induction false} GetOfEntry<K, V>(table: seq<(K, V)>, i: nat, default: V)
    requires DistinctKeys(table) && i < |table|
    ensures Get(table, table[i].0, default) == table[i].1
  {
    if i > 0 {
      GetOfEntry(table[1..], i - 1, default);
    }
  }
}

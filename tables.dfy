/**
 * The dictionaries of the proof generator: keys map to values, `Add` refuses a key that is already
 * present, and the values are enumerated in the order their keys were added (the order in which a
 * dictionary that is never shrunk enumerates its values).
 */
module Tables {
  import opened Wrappers

  datatype Table<K(==), V> = Table(keys: seq<K>, entries: map<K, V>)

  /** The keys of a list, as a set. */
  function KeySet<K>(keys: seq<K>): (r: set<K>)
    ensures |r| <= |keys|
  {
    if |keys| == 0 then {} else KeySet(keys[..|keys| - 1]) + {keys[|keys| - 1]}
  }

  lemma {:induction false} KeySetMembers<K>(keys: seq<K>, k: K)
    ensures k in KeySet(keys) <==> k in keys
    decreases |keys|
  {
    if |keys| > 0 {
      var init := keys[..|keys| - 1];
      KeySetMembers(init, k);
      assert keys == init + [keys[|keys| - 1]];
    }
  }

  /** A list with a repeated key has fewer distinct keys than elements. */
  lemma {:induction false} RepeatShrinks<K>(keys: seq<K>, i: nat, j: nat)
    requires i < j < |keys| && keys[i] == keys[j]
    ensures |KeySet(keys)| < |keys|
    decreases |keys|
  {
    var init := keys[..|keys| - 1];
    if j == |keys| - 1 {
      KeySetMembers(init, keys[i]);
      assert keys[i] == init[i];
    } else {
      RepeatShrinks(init, i, j);
    }
  }

  /**
   * The keys are the keys of the entries, each listed once (as many keys as entries; see
   * `ValidKeysDistinct`).
   */
  ghost predicate Valid<K, V>(t: Table<K, V>)
  {
    t.entries.Keys == KeySet(t.keys) && |t.entries| == |t.keys|
  }

  lemma ValidKeysDistinct<K, V>(t: Table<K, V>)
    requires Valid(t)
    ensures forall i, j :: 0 <= i < j < |t.keys| ==> t.keys[i] != t.keys[j]
  {
    forall i, j | 0 <= i < j < |t.keys|
      ensures t.keys[i] != t.keys[j]
    {
      if t.keys[i] == t.keys[j] {
        RepeatShrinks(t.keys, i, j);
      }
    }
  }

  /** A key is in a valid table exactly when it is listed. */
  lemma ValidListed<K, V>(t: Table<K, V>)
    requires Valid(t)
    ensures forall k :: k in t.entries <==> k in t.keys
  {
    forall k
      ensures k in t.entries <==> k in t.keys
    {
      KeySetMembers(t.keys, k);
    }
  }

  function Empty<K, V>(): (t: Table<K, V>)
    ensures Valid(t) && t.keys == [] && t.entries == map[]
  {
    Table([], map[])
  }

  /** The indexer: the value of `k`, or a lookup failure. */
  function Get<K, V>(t: Table<K, V>, k: K): (r: Result<V>)
    ensures r.Ok? <==> k in t.entries
    ensures r.Ok? ==> r.value == t.entries[k]
    ensures r.Err? ==> r.fault == KeyNotFound
  {
    if k in t.entries then Ok(t.entries[k]) else Err(KeyNotFound)
  }

  /** `Add`: a new key is appended with its value; a present key is refused and nothing changes. */
  function Add<K, V>(t: Table<K, V>, k: K, v: V): (r: Result<Table<K, V>>)
    ensures r.Err? <==> k in t.entries
    ensures r.Err? ==> r.fault == DuplicateKey
    ensures r.Ok? ==> r.value.keys == t.keys + [k] && r.value.entries == t.entries[k := v]
  {
    if k in t.entries then Err(DuplicateKey) else Ok(Table(t.keys + [k], t.entries[k := v]))
  }

  /** The values in the order their keys were added. */
  function Values<K, V>(t: Table<K, V>): (r: seq<V>)
    requires Valid(t)
    ensures |r| == |t.keys|
    ensures forall i :: 0 <= i < |t.keys| ==> t.keys[i] in t.entries && r[i] == t.entries[t.keys[i]]
  {
    ValidListed(t);
    seq(|t.keys|, i requires 0 <= i < |t.keys| => t.entries[t.keys[i]])
  }

  /** `Add` keeps a table valid and every earlier entry as it was. */
  lemma AddKeepsEntries<K, V>(t: Table<K, V>, k: K, v: V)
    requires Valid(t) && Add(t, k, v).Ok?
    ensures Valid(Add(t, k, v).value)
    ensures forall k' :: k' in t.entries ==> k' in Add(t, k, v).value.entries && Add(t, k, v).value.entries[k'] == t.entries[k']
  {
    assert (t.keys + [k])[..|t.keys|] == t.keys;
  }

  /** `Add` enumerates the new value last; earlier values keep their order. */
  lemma AddThenValues<K, V>(t: Table<K, V>, k: K, v: V)
    requires Valid(t) && Add(t, k, v).Ok?
    ensures Valid(Add(t, k, v).value)
    ensures Values(Add(t, k, v).value) == Values(t) + [v]
  {
    AddKeepsEntries(t, k, v);
  }

  /** After `Add`, `Get` finds the new value under `k` and the old value under every other key. */
  lemma GetAfterAdd<K, V>(t: Table<K, V>, k: K, v: V, k': K)
    requires Add(t, k, v).Ok?
    ensures Get(Add(t, k, v).value, k') == if k' == k then Ok(v) else Get(t, k')
  {
  }

  /** Every value of a valid table is enumerated, at the position of its key. */
  lemma ValuesComplete<K, V>(t: Table<K, V>, k: K)
    requires Valid(t) && k in t.entries
    ensures exists i :: 0 <= i < |t.keys| && t.keys[i] == k && Values(t)[i] == t.entries[k]
  {
    KeySetMembers(t.keys, k);
  }

  /**
   * `table` is `start` with the first `n` keys of `ks` added in order: earlier entries are kept and
   * the value of the j-th new key satisfies `p(j, _)`.
   */
  ghost predicate ExtendedBy<K, V>(start: Table<K, V>, table: Table<K, V>, ks: seq<K>, n: nat, p: (nat, V) -> bool)
    requires n <= |ks|
  {
    Valid(table) && table.keys == start.keys + ks[..n] &&
    (forall k :: k in start.entries ==> k in table.entries && table.entries[k] == start.entries[k]) &&
    forall j :: 0 <= j < n ==> ks[j] in table.entries && p(j, table.entries[ks[j]])
  }

  lemma ExtendedByNothing<K, V>(start: Table<K, V>, ks: seq<K>, p: (nat, V) -> bool)
    requires Valid(start)
    ensures ExtendedBy(start, start, ks, 0, p)
  {
    assert ks[..0] == [];
  }

  /** Adding the next key with a value that satisfies `p` extends the table by one more key. */
  lemma ExtendedByStep<K, V>(start: Table<K, V>, table: Table<K, V>, ks: seq<K>, n: nat, p: (nat, V) -> bool, v: V)
    requires n < |ks| && ExtendedBy(start, table, ks, n, p)
    requires Add(table, ks[n], v).Ok? && p(n, v)
    ensures ExtendedBy(start, Add(table, ks[n], v).value, ks, n + 1, p)
  {
    AddKeepsEntries(table, ks[n], v);
    assert ks[..n + 1] == ks[..n] + [ks[n]];
  }

  /** A table extended by all of `ks` lists them after the keys it started with. */
  lemma ExtendedByAll<K, V>(start: Table<K, V>, table: Table<K, V>, ks: seq<K>, p: (nat, V) -> bool)
    requires ExtendedBy(start, table, ks, |ks|, p)
    ensures table.keys == start.keys + ks
  {
    assert ks[..|ks|] == ks;
  }
}

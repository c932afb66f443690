/**
 * The two generic collection helpers: adding a value to the list a dictionary keeps under a key,
 * and appending a single-argument equation to an equation list.
 */
module Util {

  /** The list stored under `key`, or the empty list when there is none. */
  function ListAt<K, V>(d: map<K, seq<V>>, key: K): seq<V>
  {
    if key in d then d[key] else []
  }

  /**
   * The dictionary after `Add(key, val, d)` as the helper is written: an existing list is extended
   * in place, but the list created for an absent key is never stored, so the value is lost.
   */
  function AddedAsWritten<K, V>(d: map<K, seq<V>>, key: K, val: V): (r: map<K, seq<V>>)
    ensures r.Keys == d.Keys
    ensures key in d ==> r[key] == d[key] + [val]
    ensures key !in d ==> r == d
    ensures forall k :: k in d && k != key ==> r[k] == d[k]
  {
    if key in d then d[key := d[key] + [val]] else d
  }

  /** The dictionary after the intended `Add`: `val` ends up last in the list of `key`, which is created when absent. */
  function Added<K, V>(d: map<K, seq<V>>, key: K, val: V): (r: map<K, seq<V>>)
    ensures r.Keys == d.Keys + {key}
    ensures r[key] == ListAt(d, key) + [val]
    ensures forall k :: k in d && k != key ==> r[k] == d[k]
  {
    d[key := ListAt(d, key) + [val]]
  }

  /** The values paired with `key` in `pairs`, in order. */
  function ValuesOf<K(==), V>(pairs: seq<(K, V)>, key: K): seq<V>
  {
    if |pairs| == 0 then []
    else ValuesOf(pairs[..|pairs| - 1], key) + (if pairs[|pairs| - 1].0 == key then [pairs[|pairs| - 1].1] else [])
  }

  /** The dictionary obtained by adding every pair of `pairs`, in order, to `d` with the intended `Add`. */
  function AddAll<K, V>(d: map<K, seq<V>>, pairs: seq<(K, V)>): map<K, seq<V>>
  {
    if |pairs| == 0 then d
    else var last := pairs[|pairs| - 1]; Added(AddAll(d, pairs[..|pairs| - 1]), last.0, last.1)
  }

  /** The same, with the helper as written. */
  function AddAllAsWritten<K, V>(d: map<K, seq<V>>, pairs: seq<(K, V)>): map<K, seq<V>>
  {
    if |pairs| == 0 then d
    else var last := pairs[|pairs| - 1]; AddedAsWritten(AddAllAsWritten(d, pairs[..|pairs| - 1]), last.0, last.1)
  }

  /**
   * Adding a run of pairs to an empty dictionary with the intended `Add` groups them by key: a key is
   * present exactly when some pair carries it, and its list holds that key's values in order.
   */
  lemma {:induction false} AddAllGroupsByKey<K, V>(pairs: seq<(K, V)>, key: K)
    ensures key in AddAll(map[], pairs) <==> exists i :: 0 <= i < |pairs| && pairs[i].0 == key
    ensures ListAt(AddAll(map[], pairs), key) == ValuesOf(pairs, key)
  {
    if |pairs| > 0 {
      var init := pairs[..|pairs| - 1];
      AddAllGroupsByKey(init, key);
      if exists i :: 0 <= i < |pairs| && pairs[i].0 == key {
        var i :| 0 <= i < |pairs| && pairs[i].0 == key;
        if i < |pairs| - 1 {
          assert init[i].0 == key;
        }
      } else {
        assert forall i :: 0 <= i < |init| ==> init[i] == pairs[i];
      }
    }
  }

  /** With the helper as written, a dictionary that starts empty stays empty whatever is added. */
  lemma {:induction false} AddAllAsWrittenStaysEmpty<K, V>(pairs: seq<(K, V)>)
    ensures AddAllAsWritten(map[], pairs) == map[]
  {
    if |pairs| > 0 {
      AddAllAsWrittenStaysEmpty(pairs[..|pairs| - 1]);
    }
  }

  /** One concrete input: adding value 1 under the fresh key 0 records nothing, where the intended helper records [1]. */
  lemma AddAsWrittenLosesFirstValue()
    ensures AddedAsWritten(map[], 0, 1) == map[]
    ensures Added(map[], 0, 1) == map[0 := [1]]
  {
    var m: map<int, seq<int>> := map[];
    var r := Added(m, 0, 1);
    assert ListAt(m, 0) == [];
    assert r[0] == [1];
    assert r.Keys == {0};
  }

  /** A dictionary from keys to lists, updated in place by `Add`. */
  class ListDictionary<K(==), V> {
    var entries: map<K, seq<V>>

    constructor ()
      ensures entries == map[]
    {
      entries := map[];
    }

    /** `Add` as written: the value is appended only when the key already has a list. */
    method Add(key: K, val: V)
      modifies this
      ensures entries == AddedAsWritten(old(entries), key, val)
    {
      if key in entries {
        var list := entries[key];
        entries := entries[key := list + [val]];
      }
    }

    /** The intended `Add`: the fresh list is stored under the key before the value is appended. */
    method AddCorrected(key: K, val: V)
      modifies this
      ensures entries == Added(old(entries), key, val)
    {
      var list: seq<V> := [];
      if key in entries {
        list := entries[key];
      }
      entries := entries[key := list + [val]];
    }
  }

  /** An equation list: each equation is a list of argument terms and a right-hand side. */
  class EquationList<T> {
    var equations: seq<(seq<T>, T)>

    constructor ()
      ensures equations == []
    {
      equations := [];
    }

    /** Append the single-argument equation `lhs = rhs`, leaving earlier equations in place. */
    method AddEquation(lhs: T, rhs: T)
      modifies this
      ensures equations == old(equations) + [([lhs], rhs)]
    {
      equations := equations + [([lhs], rhs)];
    }
  }
}

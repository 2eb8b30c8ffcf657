/**
 * Python's `dict` as a value: its entries in insertion order. Assigning to a
 * key that is already present replaces the value in place; assigning to a new
 * key appends it at the end. Every dict that `Assign` builds from the empty one
 * has distinct keys.
 */
module Dicts {
  import opened Wrappers

  type Entries<K, V> = seq<(K, V)>

  /** The elements of a sequence, as a set. */
  function Elems<T>(s: seq<T>): set<T> {
    set x | x in s
  }

  predicate Distinct<T(==)>(s: seq<T>) {
    forall i, j :: 0 <= i < j < |s| ==> s[i] != s[j]
  }

  /** The keys of a dict in iteration order (`list(d)`). */
  function Keys<K, V>(d: Entries<K, V>): (ks: seq<K>)
    ensures |ks| == |d|
    ensures forall i :: 0 <= i < |d| ==> ks[i] == d[i].0
  {
    seq(|d|, i requires 0 <= i < |d| => d[i].0)
  }

  predicate DistinctKeys<K(==), V>(d: Entries<K, V>) {
    Distinct(Keys(d))
  }

  /** `d.get(k)`: the value stored under `k`, if any. */
  function Get<K(==), V>(d: Entries<K, V>, k: K): (r: Option<V>)
    ensures r.Some? <==> k in Keys(d)
  {
    if d == [] then None
    else if d[0].0 == k then Some(d[0].1)
    else
      assert Keys(d) == [d[0].0] + Keys(d[1..]);
      Get(d[1..], k)
  }

  /** The value at a position of a dict with distinct keys is what `Get` returns for its key. */
  lemma {:induction false} GetAt<K, V>(d: Entries<K, V>, i: nat)
    requires DistinctKeys(d) && i < |d|
    ensures Get(d, d[i].0) == Some(d[i].1)
  {
    if i > 0 {
      assert Keys(d[1..]) == Keys(d)[1..];
      assert d[0].0 == Keys(d)[0] != Keys(d)[i] == d[i].0;
      GetAt(d[1..], i - 1);
    }
  }

  /** The position of the first entry for `k`. */
  function IndexOf<K(==), V>(d: Entries<K, V>, k: K): (i: nat)
    requires k in Keys(d)
    ensures i < |d| && d[i].0 == k
    ensures forall j :: 0 <= j < i ==> d[j].0 != k
  {
    if d[0].0 == k then 0
    else
      assert Keys(d) == [d[0].0] + Keys(d[1..]);
      1 + IndexOf(d[1..], k)
  }

  /** `Get` reads the first entry for the key. */
  lemma {:induction false} GetIndexOf<K, V>(d: Entries<K, V>, k: K)
    requires k in Keys(d)
    ensures Get(d, k) == Some(d[IndexOf(d, k)].1)
  {
    if d[0].0 != k {
      assert Keys(d) == [d[0].0] + Keys(d[1..]);
      GetIndexOf(d[1..], k);
    }
  }

  /** `d[k] = v`: the entry for `k` is replaced where it stands, or a new entry goes at the end. */
  function Assign<K(==,!new), V>(d: Entries<K, V>, k: K, v: V): (r: Entries<K, V>)
    ensures Keys(r) == if k in Keys(d) then Keys(d) else Keys(d) + [k]
    ensures Distinct(Keys(d)) ==> Distinct(Keys(r))
  {
    if k in Keys(d) then d[IndexOf(d, k) := (k, v)] else d + [(k, v)]
  }

  /** Dicts with the same keys in the same order have their first entries for a key at the same position. */
  lemma SameKeysIndexOf<K, V>(d: Entries<K, V>, e: Entries<K, V>, k: K)
    requires Keys(d) == Keys(e) && k in Keys(d)
    ensures IndexOf(d, k) == IndexOf(e, k)
  {
    var i, j := IndexOf(d, k), IndexOf(e, k);
    assert Keys(d)[i] == k && Keys(e)[j] == k;
  }

  /** After `d[k] = v`, `d.get(k)` is `v` and every other key reads as before. */
  lemma GetAssign<K(!new), V>(d: Entries<K, V>, k: K, v: V, k': K)
    ensures Get(Assign(d, k, v), k') == if k' == k then Some(v) else Get(d, k')
  {
    var r := Assign(d, k, v);
    if k' in Keys(r) {
      GetIndexOf(r, k');
      if k in Keys(d) {
        SameKeysIndexOf(r, d, k');
        SameKeysIndexOf(r, d, k);
        if k' != k {
          GetIndexOf(d, k');
        }
      } else if k' != k {
        assert k' in Keys(d);
        var i := IndexOf(d, k');
        assert r[i] == d[i];
        assert IndexOf(r, k') == i by {
          var j := IndexOf(r, k');
          assert j <= i;
          assert j < |d| ==> r[j] == d[j];
        }
        GetIndexOf(d, k');
      } else {
        assert IndexOf(r, k) == |d|;
      }
    }
  }

  /** Assigning to a key already present replaces its entry in place. */
  lemma AssignPresent<K(!new), V>(d: Entries<K, V>, j: nat, v: V)
    requires DistinctKeys(d) && j < |d|
    ensures Assign(d, d[j].0, v) == d[j := (d[j].0, v)]
  {
    assert Keys(d)[j] == d[j].0;
    var i := IndexOf(d, d[j].0);
    assert Keys(d)[i] == Keys(d)[j];
  }

  /** Assigning every pair in turn, as a `for` loop of `d[k] = v` does. */
  function AssignAll<K(==,!new), V>(d: Entries<K, V>, pairs: Entries<K, V>): Entries<K, V>
    decreases |pairs|
  {
    if pairs == [] then d
    else
      var last := pairs[|pairs| - 1];
      Assign(AssignAll(d, pairs[..|pairs| - 1]), last.0, last.1)
  }

  /** Assigning to a new key appends the entry. */
  lemma AssignFresh<K(!new), V>(d: Entries<K, V>, k: K, v: V)
    requires k !in Keys(d)
    ensures Assign(d, k, v) == d + [(k, v)]
  {
  }

  lemma KeysConcat<K, V>(a: Entries<K, V>, b: Entries<K, V>)
    ensures Keys(a + b) == Keys(a) + Keys(b)
  {
  }

  lemma DistinctPrefix<T>(s: seq<T>, n: nat)
    requires Distinct(s) && n < |s|
    ensures Distinct(s[..n]) && s[n] !in s[..n]
  {
  }

  /** Assigning pairs whose keys are new and distinct appends them, in order. */
  lemma {:induction false} AssignAllFresh<K(!new), V>(d: Entries<K, V>, pairs: Entries<K, V>)
    requires Distinct(Keys(d) + Keys(pairs))
    ensures AssignAll(d, pairs) == d + pairs
    decreases |pairs|
  {
    if pairs != [] {
      var n := |pairs| - 1;
      var init, last := pairs[..n], pairs[n];
      assert Keys(init) == Keys(pairs)[..n];
      KeysConcat(d, init);
      DistinctPrefix(Keys(d) + Keys(pairs), |d| + n);
      assert Keys(d + init) == (Keys(d) + Keys(pairs))[..|d| + n];
      calc {
        AssignAll(d, pairs);
        Assign(AssignAll(d, init), last.0, last.1);
        { AssignAllFresh(d, init); }
        Assign(d + init, last.0, last.1);
        { AssignFresh(d + init, last.0, last.1); }
        d + init + [last];
        { assert init + [last] == pairs; }
        d + pairs;
      }
    }
  }

  /** Whatever the order and repetitions, a run of assignments leaves exactly the old keys and the assigned ones. */
  lemma {:induction false} AssignAllKeys<K(!new), V>(d: Entries<K, V>, pairs: Entries<K, V>, k: K)
    ensures k in Keys(AssignAll(d, pairs)) <==> k in Keys(d) || k in Keys(pairs)
    decreases |pairs|
  {
    if pairs != [] {
      var n := |pairs| - 1;
      var init, last := pairs[..n], pairs[n];
      AssignAllKeys(d, init, k);
      assert Keys(pairs) == Keys(init) + [last.0];
    }
  }
}

/**
 * Insertion-ordered dictionaries keyed by strings.
 *
 * A JavaScript object with string keys (socket ids here) enumerates its keys
 * in the order they were first set; `Object.keys`, `Object.values` and
 * `for ... in` all follow that order, and the server relies on it when it
 * picks a new host and when it scans the match history. An `OMap` keeps that
 * order next to the map itself.
 */
module OrderedMaps {

  type Key = string

  datatype OMap<V> = OMap(keys: seq<Key>, vals: map<Key, V>)

  ghost predicate Distinct(ks: seq<Key>) {
    forall i, j :: 0 <= i < j < |ks| ==> ks[i] != ks[j]
  }

  /** Every key of the map is listed exactly once, and only those. */
  ghost predicate Valid<V>(m: OMap<V>) {
    Distinct(m.keys) && forall k :: k in m.vals <==> k in m.keys
  }

  function Empty<V>(): (m: OMap<V>)
    ensures Valid(m)
  {
    OMap([], map[])
  }

  /** `obj[k] = v`: an existing key keeps its place, a new key goes last. */
  function Put<V>(m: OMap<V>, k: Key, v: V): (r: OMap<V>)
    requires Valid(m)
    ensures Valid(r)
  {
    if k in m.vals then OMap(m.keys, m.vals[k := v]) else OMap(m.keys + [k], m.vals[k := v])
  }

  /** Assigning keeps every key where it was and appends a new key at the end. */
  lemma PutKeepsKeyOrder<V>(m: OMap<V>, k: Key, v: V)
    requires Valid(m)
    ensures var r := Put(m, k, v);
      && r.vals == m.vals[k := v]
      && r.keys[..|m.keys|] == m.keys
      && |r.keys| == |m.keys| + (if k in m.vals then 0 else 1)
      && (k !in m.vals ==> r.keys[|m.keys|] == k)
  {
  }

  /** The key sequence with every occurrence of `k` taken out. */
  function Without(ks: seq<Key>, k: Key): (r: seq<Key>)
    ensures forall x :: x in r <==> x in ks && x != k
    ensures Distinct(ks) ==> Distinct(r)
  {
    if ks == [] then []
    else if ks[0] == k then Without(ks[1..], k)
    else
      var rest := Without(ks[1..], k);
      assert Distinct(ks) ==> ks[0] !in rest by {
        if Distinct(ks) {
          HeadNotInTail(ks);
        }
      }
      [ks[0]] + rest
  }

  lemma HeadNotInTail(ks: seq<Key>)
    requires Distinct(ks) && ks != []
    ensures ks[0] !in ks[1..]
  {
    assert forall j :: 0 <= j < |ks[1..]| ==> ks[1..][j] == ks[j + 1];
  }

  /** `delete obj[k]`: the other keys keep their order. */
  function Remove<V>(m: OMap<V>, k: Key): (r: OMap<V>)
    requires Valid(m)
    ensures Valid(r) && r.vals == m.vals - {k}
  {
    OMap(Without(m.keys, k), m.vals - {k})
  }

  lemma {:induction false} WithoutAbsent(ks: seq<Key>, k: Key)
    requires k !in ks
    ensures Without(ks, k) == ks
  {
    if ks != [] {
      WithoutAbsent(ks[1..], k);
    }
  }

  /** Deleting a key closes the gap and leaves every other key where it was in order. */
  lemma {:induction false} WithoutAt(ks: seq<Key>, p: nat)
    requires Distinct(ks) && p < |ks|
    ensures Without(ks, ks[p]) == ks[..p] + ks[p + 1..]
  {
    if p == 0 {
      HeadNotInTail(ks);
      WithoutAbsent(ks[1..], ks[0]);
    } else {
      WithoutAt(ks[1..], p - 1);
      assert ks[1..][..p - 1] + ks[1..][p..] == ks[1..p] + ks[p + 1..];
      assert [ks[0]] + ks[1..p] == ks[..p];
    }
  }

  /** `Object.values(obj)`, in key order. */
  function Values<V>(m: OMap<V>): seq<V>
    requires Valid(m)
  {
    seq(|m.keys|, i requires 0 <= i < |m.keys| => m.vals[m.keys[i]])
  }

  // Integer-valued rows: a player's match-history row.

  function SumOver(ks: seq<Key>, vals: map<Key, int>): int
    requires forall k :: k in ks ==> k in vals
  {
    if ks == [] then 0 else SumOver(ks[..|ks| - 1], vals) + vals[ks[|ks| - 1]]
  }

  /** The total of all values in the row. */
  function Sum(m: OMap<int>): int
    requires Valid(m)
  {
    SumOver(m.keys, m.vals)
  }

  /** The value at `k`, reading a missing key as 0. */
  function Get0(m: OMap<int>, k: Key): int {
    if k in m.vals then m.vals[k] else 0
  }

  /** `if (!obj[k]) obj[k] = 0; obj[k] += d;` */
  function AddTo(m: OMap<int>, k: Key, d: int): (r: OMap<int>)
    requires Valid(m)
    ensures Valid(r)
  {
    Put(m, k, Get0(m, k) + d)
  }

  lemma {:induction false} SumOverUpdate(ks: seq<Key>, vals: map<Key, int>, k: Key, v: int)
    requires Distinct(ks) && forall x :: x in ks ==> x in vals
    ensures SumOver(ks, vals[k := v]) == SumOver(ks, vals) + (if k in ks then v - vals[k] else 0)
  {
    if ks != [] {
      var init := ks[..|ks| - 1];
      assert k in ks <==> k in init || k == ks[|ks| - 1];
      assert ks[|ks| - 1] !in init;
      SumOverUpdate(init, vals, k, v);
    }
  }

  /** Adding `d` at one key adds `d` to the row total, whether or not the key was there. */
  lemma SumAddTo(m: OMap<int>, k: Key, d: int)
    requires Valid(m)
    ensures Sum(AddTo(m, k, d)) == Sum(m) + d
  {
    if k in m.vals {
      SumAddToPresent(m, k, d);
    } else {
      SumAddToAbsent(m, k, d);
    }
  }

  lemma SumAddToPresent(m: OMap<int>, k: Key, d: int)
    requires Valid(m) && k in m.vals
    ensures Sum(AddTo(m, k, d)) == Sum(m) + d
  {
    var v := m.vals[k] + d;
    assert AddTo(m, k, d) == OMap(m.keys, m.vals[k := v]);
    SumOverUpdate(m.keys, m.vals, k, v);
  }

  lemma SumAddToAbsent(m: OMap<int>, k: Key, d: int)
    requires Valid(m) && k !in m.vals
    ensures Sum(AddTo(m, k, d)) == Sum(m) + d
  {
    var ks := m.keys + [k];
    var vals := m.vals[k := d];
    assert AddTo(m, k, d) == OMap(ks, vals);
    assert ks[..|ks| - 1] == m.keys;
    SumOverUpdate(m.keys, m.vals, k, d);
    assert SumOver(ks, vals) == SumOver(m.keys, vals) + d;
  }

  lemma {:induction false} SumOverNonNegative(ks: seq<Key>, vals: map<Key, int>)
    requires forall x :: x in ks ==> x in vals && vals[x] >= 0
    ensures SumOver(ks, vals) >= 0
  {
    if ks != [] {
      SumOverNonNegative(ks[..|ks| - 1], vals);
    }
  }
}

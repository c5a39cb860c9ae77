/**
 * A JavaScript object used as a dictionary: string keys that iterate in
 * insertion order (`for ... in`), overwriting a key keeps its position,
 * a new key is appended and `delete` removes the key.
 *
 * JavaScript iterates integer-like keys first, in numeric order; this model
 * assumes plain insertion order for every key.
 */
module OrderedMap {
  import opened Base
  import opened ArrayUtil

  /** The own keys of an object in iteration order, and the value of each. */
  datatype Ordered<V> = Ordered(keys: seq<Vertex>, at: map<Vertex, V>)

  /** The keys of a key sequence, as a set. */
  function KeySet(s: seq<Vertex>): set<Vertex>
    decreases |s|
  {
    if |s| == 0 then {} else {s[0]} + KeySet(s[1..])
  }

  lemma {:induction false} KeySetMembers(s: seq<Vertex>)
    ensures forall x :: x in KeySet(s) <==> x in s
    decreases |s|
  {
    if |s| != 0 {
      KeySetMembers(s[1..]);
      assert forall x :: x in s <==> x == s[0] || x in s[1..];
    }
  }

  /** Objects as they occur: every key once, and exactly the keys that have a value. */
  type OMap<V> = m: Ordered<V> | Distinct(m.keys) && m.at.Keys == KeySet(m.keys)
    witness Ordered([], map[])

  /** The key sequence and the domain of an object name the same keys. */
  lemma Keys<V>(m: OMap<V>)
    ensures forall k :: k in m.at <==> k in m.keys
  {
    KeySetMembers(m.keys);
  }

  /** `{}` */
  function Empty<V>(): (m: OMap<V>)
    ensures m.keys == [] && m.at == map[]
  {
    Ordered([], map[])
  }

  /** `m[k] = v`: the value is overwritten in place, or the key is appended. */
  function Put<V>(m: OMap<V>, k: Vertex, v: V): (r: OMap<V>)
    ensures r.at == m.at[k := v]
    ensures r.keys == Ensured(m.keys, [k])
    ensures k in m.at ==> r.keys == m.keys
    ensures k !in m.at ==> r.keys == m.keys + [k]
  {
    Keys(m);
    if k in m.at then
      assert m.at[k := v].Keys == m.at.Keys;
      Ordered(m.keys, m.at[k := v])
    else
      assert Distinct(m.keys + [k]) by {
        forall i, j | 0 <= i < j < |m.keys + [k]| ensures (m.keys + [k])[i] != (m.keys + [k])[j] {
          if j == |m.keys| { assert (m.keys + [k])[i] in m.keys; }
        }
      }
      assert KeySet(m.keys + [k]) == m.at[k := v].Keys by {
        KeySetMembers(m.keys + [k]);
      }
      Ordered(m.keys + [k], m.at[k := v])
  }

  /** `delete m[k]`: the key disappears and the others keep their order. */
  function Delete<V>(m: OMap<V>, k: Vertex): (r: OMap<V>)
    ensures r.at == m.at - {k}
    ensures r.keys == Without(m.keys, [k])
  {
    WithoutDistinct(m.keys, [k]);
    assert KeySet(Without(m.keys, [k])) == (m.at - {k}).Keys by {
      Keys(m);
      KeySetMembers(Without(m.keys, [k]));
    }
    Ordered(Without(m.keys, [k]), m.at - {k})
  }

  /** Writing a key twice is writing it once, with the second value. */
  lemma PutPut<V>(m: OMap<V>, k: Vertex, v: V, w: V)
    ensures Put(Put(m, k, v), k, w) == Put(m, k, w)
  {
  }

  /** Writing back the value a key already has changes nothing. */
  lemma PutSame<V>(m: OMap<V>, k: Vertex)
    requires k in m.at
    ensures Put(m, k, m.at[k]) == m
  {
    assert m.at[k := m.at[k]] == m.at;
  }

  /** Deleting an absent key changes nothing. */
  lemma DeleteAbsent<V>(m: OMap<V>, k: Vertex)
    requires k !in m.at
    ensures Delete(m, k) == m
  {
    Keys(m);
    WithoutNoop(m.keys, [k]);
    assert m.at - {k} == m.at;
  }

  /** Deleting a key that was just added gives back the object it was added to. */
  lemma DeleteAfterPut<V>(m: OMap<V>, k: Vertex, v: V)
    requires k !in m.at
    ensures Delete(Put(m, k, v), k) == m
  {
    Keys(m);
    assert Put(m, k, v).keys == m.keys + [k];
    WithoutAppend(m.keys, [k], [k]);
    WithoutNoop(m.keys, [k]);
    assert Without([k], [k]) == [];
    assert m.at[k := v] - {k} == m.at;
  }

  /** `m[k]`, with `undefined` for an absent key. */
  function Get<V>(m: OMap<V>, k: Vertex): (r: Option<V>)
    ensures r.Some? <==> k in m.at
    ensures r.Some? ==> r.value == m.at[k]
  {
    if k in m.at then Some(m.at[k]) else None
  }

  /** Two objects with the same keys in the same order and the same value
      at every key are the same object. */
  lemma Extensional<V>(m1: OMap<V>, m2: OMap<V>)
    requires m1.keys == m2.keys
    requires forall k :: k in m1.at ==> m1.at[k] == m2.at[k]
    ensures m1 == m2
  {
    assert m1.at == m2.at;
  }

  /** Deleting a key twice is deleting it once. */
  lemma DeleteTwice<V>(m: OMap<V>, k: Vertex)
    ensures Delete(Delete(m, k), k) == Delete(m, k)
  {
    WithoutNoop(Without(m.keys, [k]), [k]);
    assert m.at - {k} - {k} == m.at - {k};
  }

  /** Every value replaced by its image under `f`; the keys and their order stay. */
  function MapValues<V>(m: OMap<V>, f: V -> V): (r: OMap<V>)
    ensures r.keys == m.keys && r.at.Keys == m.at.Keys
    ensures forall k :: k in m.at ==> r.at[k] == f(m.at[k])
  {
    Ordered(m.keys, map k | k in m.at :: f(m.at[k]))
  }

  /** A loop over the keys of `m0` that replaces each value by its image
      under `f`, after its first `n` passes. */
  ghost predicate MappedUpTo<V>(m0: OMap<V>, cur: OMap<V>, f: V -> V, n: nat)
    requires n <= |m0.keys|
  {
    && cur.keys == m0.keys
    && forall k :: k in m0.at ==>
         k in cur.at && cur.at[k] == if k in m0.keys[..n] then f(m0.at[k]) else m0.at[k]
  }

  lemma MapStart<V>(m0: OMap<V>, f: V -> V)
    ensures MappedUpTo(m0, m0, f, 0)
  {
  }

  /** One pass of the loop: the key it reaches still has its old value, and
      replacing that value moves the loop on by one key. */
  lemma MapStep<V>(m0: OMap<V>, cur: OMap<V>, f: V -> V, n: nat)
    requires n < |m0.keys| && MappedUpTo(m0, cur, f, n)
    ensures m0.keys[n] in cur.at && cur.at[m0.keys[n]] == m0.at[m0.keys[n]]
    ensures MappedUpTo(m0, Put(cur, m0.keys[n], f(cur.at[m0.keys[n]])), f, n + 1)
  {
    Keys(m0);
    assert m0.keys[..n + 1] == m0.keys[..n] + [m0.keys[n]];
    assert m0.keys[n] !in m0.keys[..n];
  }

  /** The loop over all keys computes `MapValues`. */
  lemma MapDone<V>(m0: OMap<V>, cur: OMap<V>, f: V -> V)
    requires MappedUpTo(m0, cur, f, |m0.keys|)
    ensures cur == MapValues(m0, f)
  {
    Keys(m0);
    assert m0.keys[..|m0.keys|] == m0.keys;
    Extensional(cur, MapValues(m0, f));
  }
}

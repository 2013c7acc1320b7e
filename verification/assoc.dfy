/** Insertion-ordered dictionaries. A JavaScript object whose keys are not
    array indices, and a JavaScript `Map`, iterate their entries in the order
    the keys were first inserted; this module models such a dictionary as a
    sequence of key/value pairs. */
module Assoc {
  import opened Wrappers

  type Assoc<K(==), V> = seq<(K, V)>

  /** `Object.keys(m)`. */
  function Keys<K(==), V>(m: Assoc<K, V>): (ks: seq<K>)
    ensures |ks| == |m|
    ensures forall i :: 0 <= i < |m| ==> ks[i] == m[i].0
  {
    seq(|m|, i requires 0 <= i < |m| => m[i].0)
  }

  /** `Object.values(m)`. */
  function Values<K(==), V>(m: Assoc<K, V>): (vs: seq<V>)
    ensures |vs| == |m|
    ensures forall i :: 0 <= i < |m| ==> vs[i] == m[i].1
  {
    seq(|m|, i requires 0 <= i < |m| => m[i].1)
  }

  predicate UniqueKeys<K(==), V>(m: Assoc<K, V>) {
    forall i, j :: 0 <= i < j < |m| ==> m[i].0 != m[j].0
  }

  function FindFrom<K(==), V>(m: Assoc<K, V>, k: K, from: nat): (r: Option<nat>)
    ensures r.Some? ==> from <= r.value < |m| && m[r.value].0 == k
    ensures r.Some? ==> forall i :: from <= i < r.value ==> m[i].0 != k
    ensures r.None? ==> forall i :: from <= i < |m| ==> m[i].0 != k
    decreases |m| - from
  {
    if from >= |m| then None
    else if m[from].0 == k then Some(from)
    else FindFrom(m, k, from + 1)
  }

  /** The position of key `k`, if present. */
  function Find<K(==), V>(m: Assoc<K, V>, k: K): (r: Option<nat>)
    ensures r.Some? ==> r.value < |m| && m[r.value].0 == k
    ensures r.Some? ==> forall i :: 0 <= i < r.value ==> m[i].0 != k
    ensures r.None? <==> forall i :: 0 <= i < |m| ==> m[i].0 != k
  {
    FindFrom(m, k, 0)
  }

  predicate HasKey<K(==), V>(m: Assoc<K, V>, k: K) {
    Find(m, k).Some?
  }

  /** `m[k]`, with `None` for `undefined`. */
  function Get<K(==), V>(m: Assoc<K, V>, k: K): Option<V> {
    match Find(m, k)
    case Some(i) => Some(m[i].1)
    case None => None
  }

  /** `m[k] = v`: an existing key keeps its position, a new key goes last. */
  function Put<K(==), V>(m: Assoc<K, V>, k: K, v: V): (r: Assoc<K, V>)
    ensures UniqueKeys(m) ==> UniqueKeys(r)
    ensures HasKey(m, k) ==> |r| == |m| && Keys(r) == Keys(m)
    ensures !HasKey(m, k) ==> r == m + [(k, v)]
  {
    match Find(m, k)
    case Some(i) =>
      var r := m[i := (k, v)];
      assert Keys(r) == Keys(m);
      r
    case None => m + [(k, v)]
  }

  lemma GetPut<K, V>(m: Assoc<K, V>, k: K, v: V, k': K)
    ensures Get(Put(m, k, v), k') == if k' == k then Some(v) else Get(m, k')
  {
    var r := Put(m, k, v);
    match Find(m, k)
    case Some(i) =>
      assert r == m[i := (k, v)];
      assert forall j :: 0 <= j < |m| && j != i ==> r[j] == m[j];
      if k' == k {
        assert Find(r, k') == Some(i);
      } else {
        assert forall j :: 0 <= j < |m| ==> (r[j].0 == k' <==> m[j].0 == k');
        assert Find(r, k') == Find(m, k');
      }
    case None =>
      assert r == m + [(k, v)];
      assert forall j :: 0 <= j < |m| ==> r[j] == m[j];
      if k' == k {
        assert r[|m|].0 == k;
        assert Find(r, k').Some? && Find(r, k').value == |m|;
      } else {
        assert Find(r, k') == Find(m, k');
      }
  }

  lemma HasKeyPut<K, V>(m: Assoc<K, V>, k: K, v: V, k': K)
    ensures HasKey(Put(m, k, v), k') <==> k' == k || HasKey(m, k')
  {
    GetPut(m, k, v, k');
  }

  /** Appending an entry never hides an earlier one. */
  lemma GetAppend<K, V>(m: Assoc<K, V>, k: K, v: V, k': K)
    ensures Get(m + [(k, v)], k') ==
      if HasKey(m, k') then Get(m, k') else if k == k' then Some(v) else None
  {
    var r := m + [(k, v)];
    assert forall j :: 0 <= j < |m| ==> r[j] == m[j];
    if HasKey(m, k') {
      assert Find(r, k') == Find(m, k');
    } else if k == k' {
      assert r[|m|].0 == k;
      assert Find(r, k').Some? && Find(r, k').value == |m|;
    } else {
      assert Find(r, k').None?;
    }
  }

  lemma GetCons<K, V>(e: (K, V), t: Assoc<K, V>, k: K)
    ensures Get([e] + t, k) == if e.0 == k then Some(e.1) else Get(t, k)
  {
    var m := [e] + t;
    assert forall i :: 0 <= i < |t| ==> m[i + 1] == t[i];
    if e.0 != k {
      match Find(t, k)
      case Some(i) =>
        assert Find(m, k) == Some(i + 1);
      case None =>
        assert Find(m, k).None?;
    }
  }

  /** A property every entry has holds for what `Get` returns. */
  lemma GetHolds<K, V>(m: Assoc<K, V>, k: K, p: (K, V) -> bool)
    requires forall i :: 0 <= i < |m| ==> p(m[i].0, m[i].1)
    ensures Get(m, k).Some? ==> p(k, Get(m, k).value)
  {
  }

  /** `Put` keeps a property of every entry when the new entry has it. */
  lemma PutHolds<K, V>(m: Assoc<K, V>, k: K, v: V, p: (K, V) -> bool)
    requires forall i :: 0 <= i < |m| ==> p(m[i].0, m[i].1)
    requires p(k, v)
    ensures var r := Put(m, k, v); forall i :: 0 <= i < |r| ==> p(r[i].0, r[i].1)
  {
  }

  /** A key is present exactly when it is among the keys. */
  lemma HasKeyKeys<K, V>(m: Assoc<K, V>, k: K)
    ensures HasKey(m, k) <==> k in Keys(m)
  {
    if k in Keys(m) {
      var i :| 0 <= i < |m| && Keys(m)[i] == k;
      assert m[i].0 == k;
    }
  }

  /** `Put` keeps the key order and appends a new key at the end. */
  lemma KeysPut<K, V>(m: Assoc<K, V>, k: K, v: V)
    ensures Keys(Put(m, k, v)) == if k in Keys(m) then Keys(m) else Keys(m) + [k]
  {
    HasKeyKeys(m, k);
    if k !in Keys(m) {
      assert Keys(m + [(k, v)]) == Keys(m) + [k];
    }
  }

  /** `delete m[k]`: every entry with key `k` dropped, the others kept in
      order. */
  function Delete<K(==), V>(m: Assoc<K, V>, k: K): (r: Assoc<K, V>)
    ensures |r| <= |m|
    ensures forall i :: 0 <= i < |r| ==> r[i].0 != k && r[i] in m
    decreases |m|
  {
    if |m| == 0 then []
    else if m[0].0 == k then Delete(m[1..], k)
    else [m[0]] + Delete(m[1..], k)
  }

  /** After `delete m[k]`, `k` is absent and every other key reads as
      before. */
  lemma {:induction false} GetDelete<K, V>(m: Assoc<K, V>, k: K, k': K)
    ensures Get(Delete(m, k), k') == if k' == k then None else Get(m, k')
    decreases |m|
  {
    if |m| > 0 {
      var t := m[1..];
      assert m == [m[0]] + t;
      GetDelete(t, k, k');
      GetCons(m[0], t, k');
      if m[0].0 != k {
        GetCons(m[0], Delete(t, k), k');
      }
    }
  }

  lemma GetPutAll<K, V>(m: Assoc<K, V>, k: K, v: V)
    ensures forall k' :: Get(Put(m, k, v), k') == (if k' == k then Some(v) else Get(m, k'))
  {
    forall k' ensures Get(Put(m, k, v), k') == (if k' == k then Some(v) else Get(m, k')) {
      GetPut(m, k, v, k');
    }
  }

  lemma GetDeleteAll<K, V>(m: Assoc<K, V>, k: K)
    ensures forall k' :: Get(Delete(m, k), k') == (if k' == k then None else Get(m, k'))
  {
    forall k' ensures Get(Delete(m, k), k') == (if k' == k then None else Get(m, k')) {
      GetDelete(m, k, k');
    }
  }
}

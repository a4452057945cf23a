/** Python's insertion-ordered `dict`, as an association list: lookup finds the
    first entry with the key, and assignment overwrites that entry in place or
    appends a new one at the end. */
module Dicts {
  import opened Wrappers

  function Keys<K, V>(m: seq<(K, V)>): (ks: seq<K>)
    ensures |ks| == |m|
    ensures forall i :: 0 <= i < |m| ==> ks[i] == m[i].0
  {
    if |m| == 0 then [] else [m[0].0] + Keys(m[1..])
  }

  function Values<K, V>(m: seq<(K, V)>): (vs: seq<V>)
    ensures |vs| == |m|
    ensures forall i :: 0 <= i < |m| ==> vs[i] == m[i].1
  {
    if |m| == 0 then [] else [m[0].1] + Values(m[1..])
  }

  /** No key occurs twice, which holds of every `dict`. */
  predicate DistinctKeys<K(==, !new), V>(m: seq<(K, V)>) {
    forall i, j :: 0 <= i < j < |m| ==> m[i].0 != m[j].0
  }

  predicate HasKey<K(==, !new), V>(m: seq<(K, V)>, k: K) {
    exists i :: 0 <= i < |m| && m[i].0 == k
  }

  /** `m.get(k)`: the value of the first entry whose key is `k`. */
  function Get<K(==, !new), V>(m: seq<(K, V)>, k: K): (r: Option<V>)
    ensures r.None? <==> !HasKey(m, k)
    ensures r.Some? ==> exists i :: 0 <= i < |m| && m[i] == (k, r.value)
  {
    if |m| == 0 then None
    else if m[0].0 == k then Some(m[0].1)
    else
      var r := Get(m[1..], k);
      if r.None? then
        assert !HasKey(m, k) by {
          forall i | 0 <= i < |m| ensures m[i].0 != k {
            if i > 0 { assert m[1..][i - 1] == m[i]; }
          }
        }
        r
      else
        ghost var i :| 0 <= i < |m[1..]| && m[1..][i] == (k, r.value);
        assert m[i + 1] == (k, r.value);
        r
  }

  /** `m.get(k, d)`. */
  function GetOr<K(==, !new), V>(m: seq<(K, V)>, k: K, d: V): (v: V)
    ensures HasKey(m, k) ==> Some(v) == Get(m, k)
    ensures !HasKey(m, k) ==> v == d
  {
    match Get(m, k)
    case None => d
    case Some(v) => v
  }

  /** The keys of a list with one more entry in front. */
  lemma HasKeyCons<K(!new), V>(e: (K, V), m: seq<(K, V)>, j: K)
    ensures HasKey([e] + m, j) <==> j == e.0 || HasKey(m, j)
  {
    var r := [e] + m;
    if HasKey(r, j) && j != e.0 {
      var i :| 0 <= i < |r| && r[i].0 == j;
      assert m[i - 1] == r[i];
    }
    if HasKey(m, j) {
      var i :| 0 <= i < |m| && m[i].0 == j;
      assert r[i + 1].0 == j;
    }
    assert r[0].0 == e.0;
  }

  /** Lookup in a list with one more entry at the end. */
  lemma GetSnoc<K(!new), V>(m: seq<(K, V)>, e: (K, V), k: K)
    ensures Get(m + [e], k) == if HasKey(m, k) then Get(m, k) else if e.0 == k then Some(e.1) else None
    decreases |m|
  {
    if |m| > 0 {
      assert (m + [e])[1..] == m[1..] + [e];
      GetSnoc(m[1..], e, k);
      HasKeyCons(m[0], m[1..], k);
      assert m == [m[0]] + m[1..];
    }
  }

  /** With distinct keys, the key of entry `i` is looked up to entry `i`'s value. */
  lemma {:induction false} GetDistinct<K(!new), V>(m: seq<(K, V)>, i: nat)
    requires DistinctKeys(m) && i < |m|
    ensures Get(m, m[i].0) == Some(m[i].1)
  {
    if i > 0 {
      assert m[0].0 != m[i].0;
      assert DistinctKeys(m[1..]) by {
        forall a, b | 0 <= a < b < |m[1..]| ensures m[1..][a].0 != m[1..][b].0 {
          assert m[1..][a] == m[a + 1] && m[1..][b] == m[b + 1];
        }
      }
      GetDistinct(m[1..], i - 1);
      assert m[1..][i - 1] == m[i];
    }
  }

  lemma KeysSnoc<K, V>(m: seq<(K, V)>, e: (K, V))
    ensures Keys(m + [e]) == Keys(m) + [e.0]
  {
  }

  /** `m[k] = v`: overwrite the first entry with key `k`, or append. Its
      meaning is stated by `PutGet`, `PutKeys`, `PutAbsent` and `PutInPlace`. */
  function Put<K(==), V>(m: seq<(K, V)>, k: K, v: V): seq<(K, V)> {
    if |m| == 0 then [(k, v)]
    else if m[0].0 == k then [(k, v)] + m[1..]
    else [m[0]] + Put(m[1..], k, v)
  }

  /** Assigning a key the list does not have appends a new entry. */
  lemma {:induction false} PutAbsent<K(!new), V>(m: seq<(K, V)>, k: K, v: V)
    requires !HasKey(m, k)
    ensures Put(m, k, v) == m + [(k, v)]
  {
    if |m| > 0 {
      assert m[0].0 != k;
      HasKeyCons(m[0], m[1..], k);
      assert m == [m[0]] + m[1..];
      PutAbsent(m[1..], k, v);
    }
  }

  /** After `m[k] = v`, looking up `k` gives `v` and every other key is
      looked up as before. */
  lemma {:induction false} PutGet<K(!new), V>(m: seq<(K, V)>, k: K, v: V, j: K)
    ensures Get(Put(m, k, v), j) == if j == k then Some(v) else Get(m, j)
  {
    if |m| > 0 && m[0].0 != k {
      PutGet(m[1..], k, v, j);
      assert Put(m, k, v)[1..] == Put(m[1..], k, v);
    }
  }

  /** `m[k] = v` leaves the keys of `m` distinct, and adds `k` to them. */
  lemma {:induction false} PutKeys<K(!new), V>(m: seq<(K, V)>, k: K, v: V)
    ensures forall j :: HasKey(Put(m, k, v), j) <==> (j == k || HasKey(m, j))
    ensures DistinctKeys(m) ==> DistinctKeys(Put(m, k, v))
  {
    forall j ensures HasKey(Put(m, k, v), j) <==> (j == k || HasKey(m, j)) {
      PutGet(m, k, v, j);
    }
    if DistinctKeys(m) {
      var r := Put(m, k, v);
      if HasKey(m, k) {
        PutInPlace(m, k, v);
        forall a, b | 0 <= a < b < |r| ensures r[a].0 != r[b].0 {
          assert r[a].0 == m[a].0 && r[b].0 == m[b].0;
        }
      } else {
        PutAbsent(m, k, v);
        forall a, b | 0 <= a < b < |r| ensures r[a].0 != r[b].0 {
          if b == |m| {
            assert r[a] == m[a];
          } else {
            assert r[a] == m[a] && r[b] == m[b];
          }
        }
      }
    }
  }

  /** Overwriting keeps every entry's key where it was. */
  lemma {:induction false} PutInPlace<K(!new), V>(m: seq<(K, V)>, k: K, v: V)
    requires HasKey(m, k)
    ensures |Put(m, k, v)| == |m|
    ensures forall i :: 0 <= i < |m| ==> Put(m, k, v)[i].0 == m[i].0
  {
    assert |m| > 0;
    if m[0].0 != k {
      HasKeyCons(m[0], m[1..], k);
      assert m == [m[0]] + m[1..];
      PutInPlace(m[1..], k, v);
      var r := Put(m, k, v);
      forall i | 0 <= i < |m| ensures r[i].0 == m[i].0 {
        if i > 0 {
          assert r[i] == Put(m[1..], k, v)[i - 1];
          assert m[i] == m[1..][i - 1];
        }
      }
    }
  }
}

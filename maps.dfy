/**
 * A run of Go map assignments `m[k] = v`, applied in order: a later assignment to the same key
 * overwrites an earlier one.
 */
module Maps {
  import opened Wrappers

  function PutAll<V>(m: map<string, V>, kvs: seq<(string, V)>): map<string, V>
    decreases |kvs|
  {
    if |kvs| == 0 then m
    else PutAll(m, kvs[..|kvs| - 1])[kvs[|kvs| - 1].0 := kvs[|kvs| - 1].1]
  }

  /** One more assignment after a run extends the run. */
  lemma PutAllSnoc<V>(m: map<string, V>, kvs: seq<(string, V)>, k: string, v: V)
    ensures PutAll(m, kvs + [(k, v)]) == PutAll(m, kvs)[k := v]
  {
    assert (kvs + [(k, v)])[..|kvs|] == kvs;
  }

  /** Two runs in sequence are one run over the concatenation. */
  lemma {:induction false} PutAllAppend<V>(m: map<string, V>, a: seq<(string, V)>, b: seq<(string, V)>)
    ensures PutAll(m, a + b) == PutAll(PutAll(m, a), b)
    decreases |b|
  {
    if |b| > 0 {
      var b' := b[..|b| - 1];
      assert (a + b)[..|a + b| - 1] == a + b';
      PutAllAppend(m, a, b');
    } else {
      assert a + b == a;
    }
  }

  /** After the run, a key is present exactly when it was before or some assignment used it. */
  lemma {:induction false} PutAllKeys<V>(m: map<string, V>, kvs: seq<(string, V)>, k: string)
    ensures k in PutAll(m, kvs) <==> k in m || exists i :: 0 <= i < |kvs| && kvs[i].0 == k
    decreases |kvs|
  {
    if |kvs| > 0 {
      var init := kvs[..|kvs| - 1];
      PutAllKeys(m, init, k);
      if k in m || exists i :: 0 <= i < |kvs| && kvs[i].0 == k {
        if k !in m && kvs[|kvs| - 1].0 != k {
          var i :| 0 <= i < |kvs| && kvs[i].0 == k;
          assert init[i].0 == k;
        }
      }
    }
  }

  /** The value of a key is the one written by the last assignment to it. */
  lemma {:induction false} PutAllLast<V>(m: map<string, V>, kvs: seq<(string, V)>, i: nat)
    requires i < |kvs|
    requires forall j :: i < j < |kvs| ==> kvs[j].0 != kvs[i].0
    ensures kvs[i].0 in PutAll(m, kvs) && PutAll(m, kvs)[kvs[i].0] == kvs[i].1
    decreases |kvs|
  {
    if i < |kvs| - 1 {
      var init := kvs[..|kvs| - 1];
      PutAllLast(m, init, i);
    }
  }

  /** A key no assignment uses keeps its old value. */
  lemma {:induction false} PutAllUntouched<V>(m: map<string, V>, kvs: seq<(string, V)>, k: string)
    requires k in m
    requires forall j :: 0 <= j < |kvs| ==> kvs[j].0 != k
    ensures k in PutAll(m, kvs) && PutAll(m, kvs)[k] == m[k]
    decreases |kvs|
  {
    if |kvs| > 0 {
      PutAllUntouched(m, kvs[..|kvs| - 1], k);
    }
  }

  /** When every assignment to a key writes the same value, the key ends with that value. */
  lemma {:induction false} PutAllAgreed<V>(m: map<string, V>, kvs: seq<(string, V)>, k: string, v: V)
    requires exists i :: 0 <= i < |kvs| && kvs[i] == (k, v)
    requires forall i :: 0 <= i < |kvs| && kvs[i].0 == k ==> kvs[i].1 == v
    ensures k in PutAll(m, kvs) && PutAll(m, kvs)[k] == v
    decreases |kvs|
  {
    var n := |kvs| - 1;
    if kvs[n].0 != k {
      var i :| 0 <= i < |kvs| && kvs[i] == (k, v);
      assert kvs[..n][i] == (k, v);
      PutAllAgreed(m, kvs[..n], k, v);
    }
  }

  // ---------------------------------------------------------------- maps kept in insertion order

  /*
   * A Go map whose later `range` order matters is kept as an association list in insertion
   * order (one of the orders `range` may take): assigning to an existing key keeps its place.
   */

  /** The index of the first entry with key `k`, or -1: the `ok` result of `m[k]`. */
  function KeyIndex<V>(m: seq<(string, V)>, k: string): (r: int)
    ensures -1 <= r < |m|
    ensures r >= 0 ==> m[r].0 == k && forall i :: 0 <= i < r ==> m[i].0 != k
    ensures r < 0 ==> forall i :: 0 <= i < |m| ==> m[i].0 != k
    decreases |m|
  {
    if |m| == 0 then -1
    else if m[0].0 == k then 0
    else
      var r := KeyIndex(m[1..], k);
      if r < 0 then -1 else r + 1
  }

  /** `m[k] = v`. */
  function Put<V>(m: seq<(string, V)>, k: string, v: V): seq<(string, V)> {
    var idx := KeyIndex(m, k);
    if idx >= 0 then m[idx := (k, v)] else m + [(k, v)]
  }

  /** `v, ok := m[k]`. */
  function Lookup<V>(m: seq<(string, V)>, k: string): Option<V> {
    var idx := KeyIndex(m, k);
    if idx >= 0 then Some(m[idx].1) else None
  }

  /** What makes an association list a map: no key twice. */
  ghost predicate KeysDistinct<V>(m: seq<(string, V)>) {
    forall a, b :: 0 <= a < b < |m| ==> m[a].0 != m[b].0
  }

  /** In a map, the entry at position i is the one a lookup of its key finds. */
  lemma LookupAt<V>(m: seq<(string, V)>, i: nat)
    requires KeysDistinct(m) && i < |m|
    ensures KeyIndex(m, m[i].0) == i && Lookup(m, m[i].0) == Some(m[i].1)
  {
  }

  /** An assignment binds its key and leaves every other key as it was. */
  lemma PutLookup<V>(m: seq<(string, V)>, k: string, v: V)
    ensures Lookup(Put(m, k, v), k) == Some(v)
    ensures forall k' :: k' != k ==> Lookup(Put(m, k, v), k') == Lookup(m, k')
    ensures forall k' :: KeyIndex(Put(m, k, v), k') >= 0 <==> k' == k || KeyIndex(m, k') >= 0
  {
    var r := Put(m, k, v);
    var idx := KeyIndex(m, k);
    var at := if idx >= 0 then idx else |m|;
    assert r[at] == (k, v);
    assert forall i :: 0 <= i < |r| && i != at ==> r[i] == m[i];
    assert KeyIndex(r, k) == at;
    forall k' | k' != k
      ensures Lookup(r, k') == Lookup(m, k') && KeyIndex(r, k') == KeyIndex(m, k')
    {
      var j, j' := KeyIndex(m, k'), KeyIndex(r, k');
      if j >= 0 {
        assert r[j] == m[j];
      }
    }
  }

  /** An assignment keeps the keys distinct, and adds an entry only for a new key. */
  lemma PutSpec<V>(m: seq<(string, V)>, k: string, v: V)
    requires KeysDistinct(m)
    ensures KeysDistinct(Put(m, k, v))
    ensures Lookup(Put(m, k, v), k) == Some(v)
    ensures forall k' :: k' != k ==> Lookup(Put(m, k, v), k') == Lookup(m, k')
    ensures |Put(m, k, v)| == if Lookup(m, k).Some? then |m| else |m| + 1
  {
    var r := Put(m, k, v);
    var idx := KeyIndex(m, k);
    forall a, b | 0 <= a < b < |r|
      ensures r[a].0 != r[b].0
    {
      if idx >= 0 {
        if a != idx && b != idx {
          assert r[a] == m[a] && r[b] == m[b];
        }
      } else if b == |m| {
        assert r[a] == m[a];
      }
    }
    PutLookup(m, k, v);
  }
}

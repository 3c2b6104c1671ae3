/**
 * A Python `dict` as the fetcher uses it: a list of (key, value) entries that
 * remembers insertion order. Lookup finds the entry for a key; assignment
 * `d[k] = v` replaces the value in place when the key is present and adds a
 * new entry at the end otherwise.
 */
module OrderedMaps {

  import opened Wrappers

  type Entries<V> = seq<(string, V)>

  /** The keys in insertion order: `list(d.keys())`. */
  function Keys<V>(m: Entries<V>): (ks: seq<string>)
    ensures |ks| == |m|
    ensures forall i :: 0 <= i < |m| ==> ks[i] == m[i].0
  {
    if m == [] then [] else [m[0].0] + Keys(m[1..])
  }

  /** Every key appears once, as in every Python dict. */
  predicate UniqueKeys<V>(m: Entries<V>)
  {
    forall i, j :: 0 <= i < j < |m| ==> m[i].0 != m[j].0
  }

  /** `d.get(k)`: the value of the first entry for `k`, or `None`. */
  function Get<V>(m: Entries<V>, k: string): (r: Option<V>)
    ensures r.None? <==> k !in Keys(m)
    ensures r.Some? ==> exists i :: 0 <= i < |m| && m[i] == (k, r.value)
  {
    if m == [] then None
    else if m[0].0 == k then Some(m[0].1)
    else
      var r := Get(m[1..], k);
      assert Keys(m) == [m[0].0] + Keys(m[1..]);
      assert r.Some? ==> exists i :: 0 <= i < |m[1..]| && m[1..][i] == (k, r.value);
      assert r.Some? ==> exists i :: 0 <= i < |m| && m[i] == (k, r.value) by {
        if r.Some? {
          var i :| 0 <= i < |m[1..]| && m[1..][i] == (k, r.value);
          assert m[i + 1] == (k, r.value);
        }
      }
      r
  }

  /** In a dict every entry is what lookup finds for its key. */
  lemma GetEntry<V>(m: Entries<V>, i: nat)
    requires UniqueKeys(m) && i < |m|
    ensures Get(m, m[i].0) == Some(m[i].1)
  {
    if i > 0 {
      assert m[0].0 != m[i].0;
      assert UniqueKeys(m[1..]) by {
        forall a, b | 0 <= a < b < |m[1..]| ensures m[1..][a].0 != m[1..][b].0 {
          assert m[a + 1].0 != m[b + 1].0;
        }
      }
      GetEntry(m[1..], i - 1);
    }
  }

  lemma TailUnique<V>(m: Entries<V>)
    requires m != [] && UniqueKeys(m)
    ensures UniqueKeys(m[1..])
    ensures m[0].0 !in Keys(m[1..])
  {
    forall a, b | 0 <= a < b < |m[1..]| ensures m[1..][a].0 != m[1..][b].0 {
      assert m[a + 1].0 != m[b + 1].0;
    }
    forall a | 0 <= a < |m[1..]| ensures Keys(m[1..])[a] != m[0].0 {
      assert m[a + 1].0 != m[0].0;
    }
  }

  /**
   * `d[k] = v`: replace the value of the entry for `k` where it stands, or
   * add `(k, v)` at the end.
   */
  function Put<V>(m: Entries<V>, k: string, v: V): Entries<V>
  {
    if m == [] then [(k, v)]
    else if m[0].0 == k then [(k, v)] + m[1..]
    else [m[0]] + Put(m[1..], k, v)
  }

  /** After `d[k] = v`, `k` maps to `v` and every other key keeps its value. */
  lemma {:induction false} PutGet<V>(m: Entries<V>, k: string, v: V, k': string)
    ensures Get(Put(m, k, v), k') == if k' == k then Some(v) else Get(m, k')
  {
    if m != [] && m[0].0 != k {
      assert Put(m, k, v)[1..] == Put(m[1..], k, v);
      PutGet(m[1..], k, v, k');
    }
  }

  lemma PutGetSame<V>(m: Entries<V>, k: string, v: V)
    ensures Get(Put(m, k, v), k) == Some(v)
  {
    PutGet(m, k, v, k);
  }

  lemma PutGetOther<V>(m: Entries<V>, k: string, v: V, k': string)
    requires k' != k
    ensures Get(Put(m, k, v), k') == Get(m, k')
  {
    PutGet(m, k, v, k');
  }

  /** A present key keeps its position; a new key is added at the end. */
  lemma {:induction false} PutKeys<V>(m: Entries<V>, k: string, v: V)
    ensures Keys(Put(m, k, v)) == if k in Keys(m) then Keys(m) else Keys(m) + [k]
  {
    if m != [] {
      assert Keys(m) == [m[0].0] + Keys(m[1..]);
      if m[0].0 == k {
        assert Keys(Put(m, k, v)) == [k] + Keys(m[1..]);
      } else {
        var t := Put(m[1..], k, v);
        assert Put(m, k, v) == [m[0]] + t;
        assert Keys([m[0]] + t) == [m[0].0] + Keys(t);
        PutKeys(m[1..], k, v);
      }
    }
  }

  lemma PutKeysOld<V>(m: Entries<V>, k: string, v: V)
    requires k in Keys(m)
    ensures Keys(Put(m, k, v)) == Keys(m)
  {
    PutKeys(m, k, v);
  }

  lemma PutKeysNew<V>(m: Entries<V>, k: string, v: V)
    requires k !in Keys(m)
    ensures Keys(Put(m, k, v)) == Keys(m) + [k]
  {
    PutKeys(m, k, v);
  }

  /** `d[k] = v` keeps a dict a dict: no key appears twice. */
  lemma PutUnique<V>(m: Entries<V>, k: string, v: V)
    requires UniqueKeys(m)
    ensures UniqueKeys(Put(m, k, v))
  {
    var r := Put(m, k, v);
    PutKeys(m, k, v);
    var ks := Keys(r);
    forall a, b | 0 <= a < b < |r| ensures r[a].0 != r[b].0 {
      assert ks[a] == r[a].0 && ks[b] == r[b].0;
      if k !in Keys(m) && b == |m| {
        assert ks[a] == Keys(m)[a];
      } else {
        assert ks[a] == Keys(m)[a] && ks[b] == Keys(m)[b];
        assert m[a].0 != m[b].0;
      }
    }
  }

  /** Assigning a new key adds its entry at the end. */
  lemma {:induction false} PutNew<V>(m: Entries<V>, k: string, v: V)
    requires k !in Keys(m)
    ensures Put(m, k, v) == m + [(k, v)]
  {
    if m != [] {
      assert Keys(m) == [m[0].0] + Keys(m[1..]);
      PutNew(m[1..], k, v);
      assert [m[0]] + (m[1..] + [(k, v)]) == m + [(k, v)];
    }
  }

  /** Assignment moves no entry: the old keys stay at their positions. */
  lemma {:induction false} PutPrefix<V>(m: Entries<V>, k: string, v: V)
    ensures |m| <= |Put(m, k, v)|
    ensures forall i :: 0 <= i < |m| ==> Put(m, k, v)[i].0 == m[i].0
  {
    if m != [] && m[0].0 != k {
      PutPrefix(m[1..], k, v);
      assert forall i :: 1 <= i < |m| ==> Put(m, k, v)[i] == Put(m[1..], k, v)[i - 1];
    }
  }
}

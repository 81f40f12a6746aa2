/**
 * PHP's string-keyed arrays as the schema generator uses them: an ordered list of entries
 * with distinct keys, where assigning to a present key replaces its value in place and
 * assigning to a new key appends it at the end.
 */
module OrderedMaps {
  import opened Results

  type OrderedMap<V> = seq<(string, V)>

  /** The keys in insertion order. */
  function Keys<V>(m: OrderedMap<V>): seq<string>
  {
    seq(|m|, i requires 0 <= i < |m| => m[i].0)
  }

  /** The values in insertion order. */
  function Values<V>(m: OrderedMap<V>): seq<V>
  {
    seq(|m|, i requires 0 <= i < |m| => m[i].1)
  }

  /** No key occurs twice, as in every PHP array. */
  predicate DistinctKeys<V>(m: OrderedMap<V>)
  {
    forall i, j :: 0 <= i < j < |m| ==> m[i].0 != m[j].0
  }

  /** `$m[$k]`: the value stored under `k`, if any. */
  function Get<V>(m: OrderedMap<V>, k: string): (r: Option<V>)
    ensures r.Some? <==> k in Keys(m)
    ensures r.Some? ==> (k, r.value) in m
  {
    if |m| == 0 then None
    else if m[0].0 == k then
      assert Keys(m)[0] == k;
      Some(m[0].1)
    else
      assert Keys(m) == [m[0].0] + Keys(m[1..]);
      Get(m[1..], k)
  }

  /** `$m[$k] = $v`: replace the value of a present key where it stands, or append a new entry. */
  function Put<V>(m: OrderedMap<V>, k: string, v: V): (r: OrderedMap<V>)
  {
    if |m| == 0 then [(k, v)]
    else if m[0].0 == k then [(k, v)] + m[1..]
    else [m[0]] + Put(m[1..], k, v)
  }

  // ---------------------------------------------------------------- lemmas

  lemma KeysCons<V>(e: (string, V), m: OrderedMap<V>)
    ensures Keys([e] + m) == [e.0] + Keys(m)
  {
  }

  /** Reading back a key just written gives the written value. */
  lemma {:induction false} GetPutSame<V>(m: OrderedMap<V>, k: string, v: V)
    ensures Get(Put(m, k, v), k) == Some(v)
  {
    if |m| > 0 && m[0].0 != k {
      GetPutSame(m[1..], k, v);
      assert Put(m, k, v)[1..] == Put(m[1..], k, v);
    }
  }

  /** Writing one key leaves every other key's value as it was. */
  lemma {:induction false} GetPutOther<V>(m: OrderedMap<V>, k: string, v: V, other: string)
    requires other != k
    ensures Get(Put(m, k, v), other) == Get(m, other)
  {
    if |m| == 0 {
    } else if m[0].0 == k {
      assert Put(m, k, v)[1..] == m[1..];
    } else if m[0].0 != other {
      GetPutOther(m[1..], k, v, other);
      assert Put(m, k, v)[1..] == Put(m[1..], k, v);
    }
  }

  /**
   * The key order after a write: unchanged when the key was present (the entry keeps its
   * position), the old keys followed by the new key otherwise.
   */
  lemma {:induction false} PutKeys<V>(m: OrderedMap<V>, k: string, v: V)
    ensures Keys(Put(m, k, v)) == if k in Keys(m) then Keys(m) else Keys(m) + [k]
  {
    if |m| == 0 {
    } else {
      KeysCons(m[0], m[1..]);
      assert m == [m[0]] + m[1..];
      if m[0].0 == k {
        KeysCons((k, v), m[1..]);
      } else {
        PutKeys(m[1..], k, v);
        KeysCons(m[0], Put(m[1..], k, v));
      }
    }
  }

  /** A write replaces exactly the entry of its key when the key is present, and nothing else. */
  lemma {:induction false} PutReplaces<V>(m: OrderedMap<V>, k: string, v: V, i: nat)
    requires DistinctKeys(m) && i < |m| && m[i].0 == k
    ensures Put(m, k, v) == m[i := (k, v)]
  {
    if i > 0 {
      PutReplaces(m[1..], k, v, i - 1);
    }
  }

  /** Writes keep the keys distinct. */
  lemma {:induction false} PutDistinct<V>(m: OrderedMap<V>, k: string, v: V)
    requires DistinctKeys(m)
    ensures DistinctKeys(Put(m, k, v))
  {
    PutKeys(m, k, v);
    var r := Put(m, k, v);
    forall i, j | 0 <= i < j < |r|
      ensures r[i].0 != r[j].0
    {
      assert Keys(r)[i] == r[i].0 && Keys(r)[j] == r[j].0;
      if k !in Keys(m) && j == |m| {
        assert Keys(m)[i] == m[i].0;
      } else {
        assert Keys(m)[i] == m[i].0 && Keys(m)[j] == m[j].0;
      }
    }
  }
}

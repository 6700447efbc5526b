/**
 * Python dictionaries whose iteration order matters: a sequence of
 * (key, value) pairs in insertion order. Assigning to an existing key keeps
 * its position and replaces its value; a new key goes at the end.
 */
module OrderedMap {
  import opened Wrappers

  type Dict<V> = seq<(string, V)>

  function Keys<V>(d: Dict<V>): (ks: set<string>)
    ensures forall k :: k in ks <==> exists i :: 0 <= i < |d| && d[i].0 == k
  {
    if d == [] then {} else {d[0].0} + Keys(d[1..])
  }

  predicate DistinctKeys<V>(d: Dict<V>) {
    forall i, j :: 0 <= i < j < |d| ==> d[i].0 != d[j].0
  }

  /** `d.get(k)`: the value of the first pair with that key. */
  function Get<V>(d: Dict<V>, k: string): (r: Option<V>)
    ensures r.None? <==> k !in Keys(d)
    ensures r.Some? ==> exists i :: 0 <= i < |d| && d[i] == (k, r.value)
  {
    if d == [] then None
    else if d[0].0 == k then Some(d[0].1)
    else Get(d[1..], k)
  }

  /** `d[k] = v`. */
  function Put<V>(d: Dict<V>, k: string, v: V): (r: Dict<V>)
    ensures Keys(r) == Keys(d) + {k}
    ensures Get(r, k) == Some(v)
    ensures forall k' :: k' != k ==> Get(r, k') == Get(d, k')
  {
    if d == [] then [(k, v)]
    else if d[0].0 == k then [(k, v)] + d[1..]
    else
      var rest := Put(d[1..], k, v);
      assert ([d[0]] + rest)[1..] == rest;
      [d[0]] + rest
  }

  /** A new key goes at the end. */
  lemma {:induction false} PutNewAppends<V>(d: Dict<V>, k: string, v: V)
    requires k !in Keys(d)
    ensures Put(d, k, v) == d + [(k, v)]
  {
    if d != [] {
      assert d[0].0 != k && k !in Keys(d[1..]);
      PutNewAppends(d[1..], k, v);
      assert Put(d, k, v) == [d[0]] + Put(d[1..], k, v);
      assert [d[0]] + (d[1..] + [(k, v)]) == d + [(k, v)];
    }
  }

  /** An existing key keeps its place: the length does not change. */
  lemma {:induction false} PutExistingKeepsLength<V>(d: Dict<V>, k: string, v: V)
    requires k in Keys(d)
    ensures |Put(d, k, v)| == |d|
  {
    if d[0].0 != k {
      assert k in Keys(d[1..]);
      PutExistingKeepsLength(d[1..], k, v);
    }
  }

  /** Keys are distinct in a pair followed by the rest when the rest's are and its key is new. */
  lemma DistinctCons<V>(x: (string, V), rest: Dict<V>)
    ensures DistinctKeys([x] + rest) <==> x.0 !in Keys(rest) && DistinctKeys(rest)
  {
    var r := [x] + rest;
    if x.0 !in Keys(rest) && DistinctKeys(rest) {
      forall i, j | 0 <= i < j < |r| ensures r[i].0 != r[j].0 {
        assert r[j] == rest[j - 1];
        if i > 0 {
          assert r[i] == rest[i - 1];
        }
      }
    }
    if DistinctKeys(r) {
      forall i, j | 0 <= i < j < |rest| ensures rest[i].0 != rest[j].0 {
        assert rest[i] == r[i + 1] && rest[j] == r[j + 1];
      }
      forall j | 0 <= j < |rest| ensures rest[j].0 != x.0 {
        assert r[0] == x && r[j + 1] == rest[j];
      }
    }
  }

  /** Assignment keeps keys distinct. */
  lemma {:induction false} PutKeepsDistinct<V>(d: Dict<V>, k: string, v: V)
    requires DistinctKeys(d)
    ensures DistinctKeys(Put(d, k, v))
  {
    if d != [] {
      assert d == [d[0]] + d[1..];
      DistinctCons(d[0], d[1..]);
      if d[0].0 == k {
        DistinctCons((k, v), d[1..]);
      } else {
        PutKeepsDistinct(d[1..], k, v);
        DistinctCons(d[0], Put(d[1..], k, v));
      }
    }
  }
}

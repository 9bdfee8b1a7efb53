/**
 * Insertion-ordered dictionaries with string keys: a JavaScript plain object used as a map,
 * or a Python dict / defaultdict. A dictionary is the sequence of its entries in the order
 * their keys were first stored; lookup finds the first entry with the key, and storing under
 * a present key replaces that entry's value where it stands.
 */
module Assoc {
  import opened Wrappers

  type AList<V> = seq<(string, V)>

  function Keys<V>(m: AList<V>): (ks: seq<string>)
    ensures |ks| == |m|
    ensures forall i :: 0 <= i < |m| ==> ks[i] == m[i].0
  {
    if m == [] then [] else [m[0].0] + Keys(m[1..])
  }

  predicate NoDupKeys<V>(m: AList<V>) {
    forall i, j :: 0 <= i < j < |m| ==> m[i].0 != m[j].0
  }

  /** `obj[k]` / `d.get(k)`: the value of the first entry with key `k`. */
  function Get<V>(m: AList<V>, k: string): (r: Option<V>)
    ensures r.Some? <==> k in Keys(m)
  {
    if m == [] then None else if m[0].0 == k then Some(m[0].1) else Get(m[1..], k)
  }

  function GetOr<V>(m: AList<V>, k: string, default: V): V {
    match Get(m, k)
    case Some(v) => v
    case None => default
  }

  /**
   * `obj[k] = v` / `d[k] = v`: a present key keeps its position and takes the new value,
   * an absent key is added last.
   */
  function Put<V>(m: AList<V>, k: string, v: V): (r: AList<V>)
    ensures forall k' :: Get(r, k') == if k' == k then Some(v) else Get(m, k')
    ensures Keys(r) == if k in Keys(m) then Keys(m) else Keys(m) + [k]
    ensures forall p :: p in r ==> p == (k, v) || p in m
  {
    if m == [] then [(k, v)]
    else if m[0].0 == k then
      var r := [(k, v)] + m[1..];
      assert r[1..] == m[1..];
      r
    else
      var rest := Put(m[1..], k, v);
      var r := [m[0]] + rest;
      assert r[1..] == rest;
      assert Keys(r) == [m[0].0] + Keys(rest);
      assert k in Keys(m) <==> k in Keys(m[1..]);
      r
  }

  /** In a dictionary without repeated keys every entry is what lookup finds. */
  lemma {:induction false} GetEntry<V>(m: AList<V>, i: nat)
    requires NoDupKeys(m) && i < |m|
    ensures Get(m, m[i].0) == Some(m[i].1)
  {
    if i > 0 {
      GetEntry(m[1..], i - 1);
    }
  }

  /** Storing keeps keys unique. */
  lemma PutNoDup<V>(m: AList<V>, k: string, v: V)
    requires NoDupKeys(m)
    ensures NoDupKeys(Put(m, k, v))
  {
    var r := Put(m, k, v);
    assert Keys(r) == if k in Keys(m) then Keys(m) else Keys(m) + [k];
    forall i, j | 0 <= i < j < |r| ensures r[i].0 != r[j].0 {
      assert Keys(r)[i] == r[i].0 && Keys(r)[j] == r[j].0;
      if j < |m| {
        assert Keys(m)[i] == m[i].0 && Keys(m)[j] == m[j].0;
      }
    }
  }

  /** The first-seen order of the keys in `ks`: each key once, where it first occurs. */
  function FirstSeen(ks: seq<string>): (r: seq<string>)
    ensures forall k :: k in r <==> k in ks
    ensures forall i, j :: 0 <= i < j < |r| ==> r[i] != r[j]
  {
    if ks == [] then []
    else
      var r := FirstSeen(ks[..|ks| - 1]);
      assert forall k :: k in ks <==> k in ks[..|ks| - 1] || k == ks[|ks| - 1];
      if ks[|ks| - 1] in r then r else r + [ks[|ks| - 1]]
  }

  lemma {:induction false} GetIn<V>(m: AList<V>, k: string)
    requires Get(m, k).Some?
    ensures (k, Get(m, k).value) in m
  {
    if m[0].0 != k {
      GetIn(m[1..], k);
    }
  }

  /** The total of `size` over the values. */
  function SumBy<V>(m: AList<V>, size: V -> nat): nat {
    if m == [] then 0 else size(m[0].1) + SumBy(m[1..], size)
  }

  /** Storing `v` under `k` trades the size of the value it replaces (if any) for the size of `v`. */
  lemma {:induction false} SumByPut<V>(m: AList<V>, k: string, v: V, size: V -> nat)
    ensures SumBy(Put(m, k, v), size) + (match Get(m, k) case Some(w) => size(w) case None => 0)
            == SumBy(m, size) + size(v)
  {
    if m != [] && m[0].0 != k {
      SumByPut(m[1..], k, v, size);
      assert Put(m, k, v)[1..] == Put(m[1..], k, v);
    } else if m != [] {
      assert Put(m, k, v)[1..] == m[1..];
    }
  }

  /** In a dictionary without repeated keys every entry is what lookup finds for its key. */
  lemma MemberIsGet<V>(m: AList<V>, p: (string, V))
    requires NoDupKeys(m) && p in m
    ensures Get(m, p.0) == Some(p.1)
  {
    var i :| 0 <= i < |m| && m[i] == p;
    GetEntry(m, i);
  }

  /** Lookup with a default after storing: the stored value for its key, the old value otherwise. */
  lemma GetOrPut<V>(m: AList<V>, k: string, v: V, k': string, default: V)
    ensures GetOr(Put(m, k, v), k', default) == if k' == k then v else GetOr(m, k', default)
  {
  }

  /** Lookup in a dictionary with one more entry at the end. */
  lemma {:induction false} GetSnoc<V>(m: AList<V>, k: string, v: V, x: string)
    ensures Get(m + [(k, v)], x) == if x in Keys(m) then Get(m, x) else if x == k then Some(v) else None
  {
    if m != [] {
      assert (m + [(k, v)])[1..] == m[1..] + [(k, v)];
      GetSnoc(m[1..], k, v, x);
      assert Keys(m) == [m[0].0] + Keys(m[1..]);
    }
  }

  /** Without repeated keys, the last key does not occur before it. */
  lemma NoDupSnoc<V>(m: AList<V>)
    requires m != [] && NoDupKeys(m)
    ensures NoDupKeys(m[..|m| - 1]) && m[|m| - 1].0 !in Keys(m[..|m| - 1])
  {
    var init := m[..|m| - 1];
    forall i | 0 <= i < |init| ensures Keys(init)[i] != m[|m| - 1].0 {
      assert Keys(init)[i] == m[i].0;
    }
  }
}

/**
 * A plain JavaScript object used as a dictionary, as an insertion-ordered list
 * of string-keyed pairs. Assigning `o[k] = v` replaces the value in place when `k`
 * is already a key and appends the pair otherwise; `for (k in o)` and
 * `Object.values(o)` visit the pairs in insertion order.
 */
module AssocList {
  import opened Wrappers
  import opened Seqs

  /** The keys in iteration order. */
  function Keys<V>(al: seq<(string, V)>): (ks: seq<string>)
    ensures |ks| == |al|
    ensures forall i :: 0 <= i < |al| ==> ks[i] == al[i].0
  {
    seq(|al|, i requires 0 <= i < |al| => al[i].0)
  }

  /** `Object.values`: the values in iteration order. */
  function Values<V>(al: seq<(string, V)>): (vs: seq<V>)
    ensures |vs| == |al|
    ensures forall i :: 0 <= i < |al| ==> vs[i] == al[i].1
  {
    seq(|al|, i requires 0 <= i < |al| => al[i].1)
  }

  /** Position of key `k`. */
  function KeyIndex<V>(al: seq<(string, V)>, k: string): (i: nat)
    requires k in Keys(al)
    ensures i < |al| && al[i].0 == k
  {
    FirstIndex(Keys(al), k)
  }

  /** `o[k]`: the value stored under `k`, or None when `k` is not a key. */
  function Lookup<V>(al: seq<(string, V)>, k: string): (r: Option<V>)
    ensures r.Some? <==> k in Keys(al)
  {
    if k in Keys(al) then Some(al[KeyIndex(al, k)].1) else None
  }

  /** `o[k] = v`. */
  function Put<V>(al: seq<(string, V)>, k: string, v: V): seq<(string, V)> {
    if k in Keys(al) then al[KeyIndex(al, k) := (k, v)] else al + [(k, v)]
  }

  /** `o[k] = v` keeps the keys and their order, appending `k` when it is new. */
  lemma PutKeys<V>(al: seq<(string, V)>, k: string, v: V)
    ensures Keys(Put(al, k, v)) == if k in Keys(al) then Keys(al) else Keys(al) + [k]
  {
    var r := Put(al, k, v);
    if k in Keys(al) {
      assert Keys(r) == Keys(al);
    } else {
      assert Keys(r) == Keys(al) + [k];
    }
  }

  /** After `o[k] = v`, `o[k]` is `v` and every other key reads as before. */
  lemma PutLookup<V>(al: seq<(string, V)>, k: string, v: V, k': string)
    ensures Lookup(Put(al, k, v), k') == if k' == k then Some(v) else Lookup(al, k')
  {
    PutKeys(al, k, v);
    if k !in Keys(al) && k' in Keys(al) + [k] {
      FirstIndexSnoc(Keys(al), k, k');
    }
  }

  /** With distinct keys, each pair is what a lookup of its key returns. */
  lemma LookupAt<V>(al: seq<(string, V)>, i: nat)
    requires Distinct(Keys(al)) && i < |al|
    ensures Lookup(al, al[i].0) == Some(al[i].1)
  {
    var j := KeyIndex(al, al[i].0);
    assert Keys(al)[j] == Keys(al)[i];
  }

}

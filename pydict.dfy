/**
 * A Python `dict` with string keys: a list of entries in insertion order.
 * Iterating over `keys()`, `values()` or `items()` follows that order;
 * assigning to an existing key replaces its value where it stands, and
 * assigning to a new key appends an entry.
 */
module PyDict {
  import opened Wrappers
  import opened Sequences

  datatype Entry<V> = Entry(key: string, value: V)

  type Dict<V> = seq<Entry<V>>

  /** `list(d.keys())` */
  function Keys<V>(d: Dict<V>): (ks: seq<string>)
    ensures |ks| == |d| && forall i :: 0 <= i < |d| ==> ks[i] == d[i].key
  {
    seq(|d|, i requires 0 <= i < |d| => d[i].key)
  }

  /** `list(d.values())` */
  function Values<V>(d: Dict<V>): (vs: seq<V>)
    ensures |vs| == |d| && forall i :: 0 <= i < |d| ==> vs[i] == d[i].value
  {
    seq(|d|, i requires 0 <= i < |d| => d[i].value)
  }

  /** Every key occurs once, as in any real dict. */
  predicate WellFormed<V>(d: Dict<V>) {
    Distinct(Keys(d))
  }

  /** The lookup `d[k]`, with None for a missing key. */
  function Get<V>(d: Dict<V>, k: string): (r: Option<V>)
    ensures r.Some? <==> k in Keys(d)
    ensures r.Some? ==> Entry(k, r.value) in d
  {
    if d == [] then None
    else if d[0].key == k then Some(d[0].value)
    else
      assert Keys(d) == [d[0].key] + Keys(d[1..]);
      Get(d[1..], k)
  }

  /** In a well-formed dict, the entry of a key is the one `Get` finds. */
  lemma {:induction false} GetFindsEntry<V>(d: Dict<V>, i: nat)
    requires WellFormed(d) && i < |d|
    ensures Get(d, d[i].key) == Some(d[i].value)
  {
    if i > 0 {
      assert d[0].key == Keys(d)[0] != Keys(d)[i] == d[i].key;
      assert Keys(d[1..]) == Keys(d)[1..];
      GetFindsEntry(d[1..], i - 1);
    }
  }

  /** `d[k] = v` */
  function Put<V>(d: Dict<V>, k: string, v: V): (r: Dict<V>)
    ensures forall e :: e in r ==> e in d || e == Entry(k, v)
    ensures Entry(k, v) in r
  {
    if d == [] then [Entry(k, v)]
    else if d[0].key == k then [Entry(k, v)] + d[1..]
    else [d[0]] + Put(d[1..], k, v)
  }

  lemma KeysCons<V>(e: Entry<V>, d: Dict<V>)
    ensures Keys([e] + d) == [e.key] + Keys(d)
  {
    assert forall i :: 0 <= i < |d| + 1 ==> Keys([e] + d)[i] == ([e.key] + Keys(d))[i];
  }

  /** Assignment keeps the keys and their order, appending the key when it is new. */
  lemma {:induction false} PutKeys<V>(d: Dict<V>, k: string, v: V)
    ensures Keys(Put(d, k, v)) == if k in Keys(d) then Keys(d) else Keys(d) + [k]
  {
    if d == [] {
      KeysCons(Entry(k, v), d);
    } else {
      var rest := d[1..];
      assert d == [d[0]] + rest;
      KeysCons(d[0], rest);
      if d[0].key == k {
        KeysCons(Entry(k, v), rest);
      } else {
        PutKeys(rest, k, v);
        KeysCons(d[0], Put(rest, k, v));
        assert k in Keys(d) <==> k in Keys(rest);
      }
    }
  }

  /** Assignment keeps every key occurring once. */
  lemma PutKeepsWellFormed<V>(d: Dict<V>, k: string, v: V)
    requires WellFormed(d)
    ensures WellFormed(Put(d, k, v))
  {
    PutKeys(d, k, v);
    var ks := Keys(d);
    if k !in ks {
      var ks' := ks + [k];
      forall i, j | 0 <= i < j < |ks'| ensures ks'[i] != ks'[j] {
        if j == |ks| {
          assert ks'[i] == ks[i] && ks[i] in ks;
        }
      }
    }
  }

  /** After `d[k] = v`, looking up `k` gives `v` and every other key reads as before. */
  lemma {:induction false} PutThenGet<V>(d: Dict<V>, k: string, v: V, other: string)
    ensures Get(Put(d, k, v), k) == Some(v)
    ensures other != k ==> Get(Put(d, k, v), other) == Get(d, other)
  {
    if d != [] && d[0].key != k {
      PutThenGet(d[1..], k, v, other);
    }
  }
}

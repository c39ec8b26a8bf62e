/** Python dictionaries with string keys, as association lists in insertion order
    (both serialisers of the toolkit emit entries in that order). */
module Dicts {
  import opened Results

  /** A dict's entries, oldest first. */
  type Dict<V> = seq<(string, V)>

  /** `list(d.keys())`. */
  function Keys<V>(d: Dict<V>): (ks: seq<string>)
    ensures |ks| == |d| && forall i :: 0 <= i < |d| ==> ks[i] == d[i].0
  {
    if |d| == 0 then [] else [d[0].0] + Keys(d[1..])
  }

  /** No key is stored twice, as in every real Python dict. */
  predicate IsDict<V>(d: Dict<V>) {
    forall i, j :: 0 <= i < j < |d| ==> d[i].0 != d[j].0
  }

  predicate Distinct(ks: seq<string>) {
    forall i, j :: 0 <= i < j < |ks| ==> ks[i] != ks[j]
  }

  /** `d.get(k)`: the value stored under `k`, or `None`. */
  function Get<V>(d: Dict<V>, k: string): (r: Option<V>)
    ensures r.None? <==> k !in Keys(d)
    ensures r.Some? ==> exists i :: 0 <= i < |d| && d[i] == (k, r.value)
  {
    if |d| == 0 then None
    else if d[0].0 == k then Some(d[0].1)
    else
      var r := Get(d[1..], k);
      assert k in Keys(d) <==> k in Keys(d[1..]) by {
        assert Keys(d) == [d[0].0] + Keys(d[1..]);
      }
      r
  }

  /** `d[k] = v`: an existing key keeps its place and gets the new value; a new key goes last. */
  function Put<V>(d: Dict<V>, k: string, v: V): (r: Dict<V>)
    ensures k in Keys(d) ==> Keys(r) == Keys(d)
    ensures k !in Keys(d) ==> r == d + [(k, v)]
  {
    if |d| == 0 then [(k, v)]
    else if d[0].0 == k then [(k, v)] + d[1..]
    else
      assert Keys(d) == [d[0].0] + Keys(d[1..]);
      [d[0]] + Put(d[1..], k, v)
  }

  /** After `d[k] = v`, looking `k` up gives `v`. */
  lemma {:induction false} PutThenGet<V>(d: Dict<V>, k: string, v: V)
    ensures Get(Put(d, k, v), k) == Some(v)
  {
    if |d| > 0 && d[0].0 != k {
      PutThenGet(d[1..], k, v);
      assert Put(d, k, v)[1..] == Put(d[1..], k, v);
    }
  }

  /** `d[k] = v` leaves every other key's value alone. */
  lemma {:induction false} PutKeepsOthers<V>(d: Dict<V>, k: string, v: V, other: string)
    requires other != k
    ensures Get(Put(d, k, v), other) == Get(d, other)
  {
    if |d| > 0 && d[0].0 != k {
      PutKeepsOthers(d[1..], k, v, other);
      assert Put(d, k, v)[1..] == Put(d[1..], k, v);
    }
  }

  /** `d[k] = v` never stores a key twice. */
  lemma PutKeepsDict<V>(d: Dict<V>, k: string, v: V)
    requires IsDict(d)
    ensures IsDict(Put(d, k, v))
  {
    var r := Put(d, k, v);
    if k in Keys(d) {
      assert forall i :: 0 <= i < |r| ==> r[i].0 == Keys(r)[i];
    }
  }

  /** Storing the value a key already holds changes nothing. */
  lemma {:induction false} PutExisting<V>(d: Dict<V>, k: string, v: V)
    requires Get(d, k) == Some(v)
    ensures Put(d, k, v) == d
  {
    if d[0].0 != k {
      PutExisting(d[1..], k, v);
      assert d == [d[0]] + d[1..];
    } else {
      assert d == [(k, v)] + d[1..];
    }
  }

  /** After `d[k] = v` every entry is either the new one or an entry of `d`. */
  lemma {:induction false} PutEntries<V>(d: Dict<V>, k: string, v: V)
    ensures forall e :: e in Put(d, k, v) ==> e == (k, v) || e in d
  {
    if |d| > 0 && d[0].0 != k {
      PutEntries(d[1..], k, v);
      assert Put(d, k, v) == [d[0]] + Put(d[1..], k, v);
    }
  }

  /** The key list of `d + [(k, v)]`. */
  lemma KeysAppend<V>(d: Dict<V>, k: string, v: V)
    ensures Keys(d + [(k, v)]) == Keys(d) + [k]
  {
  }

  /** The elements of `ks` not already in `seen`, appended to `seen` in order of first occurrence. */
  function AddNew(seen: seq<string>, ks: seq<string>): (r: seq<string>)
    ensures Distinct(seen) ==> Distinct(r)
    ensures forall x :: x in r <==> x in seen || x in ks
    ensures seen <= r
    decreases |ks|
  {
    if |ks| == 0 then seen
    else AddNew(if ks[0] in seen then seen else seen + [ks[0]], ks[1..])
  }

  /** The distinct elements of `ks`, each where it first occurs. */
  function Dedup(ks: seq<string>): (r: seq<string>)
    ensures Distinct(r)
    ensures forall x :: x in r <==> x in ks
  {
    AddNew([], ks)
  }

  /** On a list whose elements are new and pairwise distinct, `AddNew` appends them all. */
  lemma {:induction false} AddNewOfDistinct(seen: seq<string>, ks: seq<string>)
    requires Distinct(seen + ks)
    ensures AddNew(seen, ks) == seen + ks
    decreases |ks|
  {
    if |ks| > 0 {
      assert (seen + ks)[|seen|] == ks[0];
      forall j | 0 <= j < |seen|
        ensures seen[j] != ks[0]
      {
        assert (seen + ks)[j] == seen[j];
      }
      assert seen + ks == (seen + [ks[0]]) + ks[1..];
      AddNewOfDistinct(seen + [ks[0]], ks[1..]);
    } else {
      assert seen + ks == seen;
    }
  }

  /** A dict's key list has no repetitions. */
  lemma DictKeysDistinct<V>(d: Dict<V>)
    requires IsDict(d)
    ensures Distinct(Keys(d))
  {
  }
}

/** Python dictionaries as sequences of (key, value) pairs in insertion
    order, with the assignment `d[k] = v` and `d.update(pairs)` and the
    lookup `d.get(k)`.  Both the parameter flattening and the metadata merge
    of the corrections use them.
 */
module Dicts {
  import opened Results

  /** The dictionary assignment `d[k] = v`: an existing key keeps
      its place and takes the new value, a new key is appended. */
  function Put<V>(m: seq<(string, V)>, k: string, v: V): (r: seq<(string, V)>)
  {
    if |m| == 0 then [(k, v)]
    else if m[0].0 == k then [(k, v)] + m[1..]
    else [m[0]] + Put(m[1..], k, v)
  }

  /** All assignments in order. */
  function PutAll<V>(m: seq<(string, V)>, pairs: seq<(string, V)>): seq<(string, V)>
    decreases |pairs|
  {
    if |pairs| == 0 then m else PutAll(Put(m, pairs[0].0, pairs[0].1), pairs[1..])
  }

  function Keys<V>(m: seq<(string, V)>): (ks: seq<string>)
    ensures |ks| == |m|
    ensures forall i :: 0 <= i < |m| ==> ks[i] == m[i].0
  {
    if |m| == 0 then [] else [m[0].0] + Keys(m[1..])
  }

  /** No element occurs twice. */
  predicate Distinct<T(==)>(ks: seq<T>)
  {
    forall i, j :: 0 <= i < j < |ks| ==> ks[i] != ks[j]
  }

  /** `d.get(k)`: the value of the first entry with key k. */
  function Lookup<V>(m: seq<(string, V)>, k: string): (r: Option<V>)
    ensures r.None? <==> k !in Keys(m)
  {
    if |m| == 0 then None else if m[0].0 == k then Some(m[0].1) else Lookup(m[1..], k)
  }

  /** The value of the last pair with key k, if any. */
  function LastValue<V>(pairs: seq<(string, V)>, k: string): (r: Option<V>)
    ensures r.None? <==> k !in Keys(pairs)
  {
    if |pairs| == 0 then None
    else
      var rest := LastValue(pairs[1..], k);
      if rest.Some? then rest
      else if pairs[0].0 == k then Some(pairs[0].1)
      else None
  }

  /** LastValue finds a pair with key k after which no pair has key k. */
  lemma {:induction false} LastValueIsLast<V>(pairs: seq<(string, V)>, k: string)
    requires k in Keys(pairs)
    ensures exists i :: 0 <= i < |pairs| && pairs[i] == (k, LastValue(pairs, k).value) &&
                        forall i' :: i < i' < |pairs| ==> pairs[i'].0 != k
  {
    if LastValue(pairs[1..], k).Some? {
      LastValueIsLast(pairs[1..], k);
      LastInTail(pairs, k);
    } else {
      LastAtHead(pairs, k);
    }
  }

  lemma LastInTail<V>(pairs: seq<(string, V)>, k: string)
    requires |pairs| > 0 && LastValue(pairs[1..], k).Some?
    requires exists i :: 0 <= i < |pairs[1..]| && pairs[1..][i] == (k, LastValue(pairs[1..], k).value) &&
                         forall i' :: i < i' < |pairs[1..]| ==> pairs[1..][i'].0 != k
    ensures exists i :: 0 <= i < |pairs| && pairs[i] == (k, LastValue(pairs, k).value) &&
                        forall i' :: i < i' < |pairs| ==> pairs[i'].0 != k
  {
    var tail := pairs[1..];
    var v := LastValue(tail, k).value;
    var i :| 0 <= i < |tail| && tail[i] == (k, v) && forall i' :: i < i' < |tail| ==> tail[i'].0 != k;
    assert pairs[i + 1] == (k, v);
    forall i' | i + 1 < i' < |pairs|
      ensures pairs[i'].0 != k
    {
      assert tail[i' - 1] == pairs[i'];
    }
  }

  lemma LastAtHead<V>(pairs: seq<(string, V)>, k: string)
    requires k in Keys(pairs) && LastValue(pairs[1..], k).None?
    ensures exists i :: 0 <= i < |pairs| && pairs[i] == (k, LastValue(pairs, k).value) &&
                        forall i' :: i < i' < |pairs| ==> pairs[i'].0 != k
  {
    assert pairs[0].0 == k by {
      assert Keys(pairs) == [pairs[0].0] + Keys(pairs[1..]);
    }
    forall i' | 0 < i' < |pairs|
      ensures pairs[i'].0 != k
    {
      assert Keys(pairs[1..])[i' - 1] == pairs[i'].0;
    }
    assert pairs[0] == (k, LastValue(pairs, k).value);
  }

  lemma PutLookup<V>(m: seq<(string, V)>, k: string, v: V, j: string)
    ensures Lookup(Put(m, k, v), j) == if j == k then Some(v) else Lookup(m, j)
  {
  }

  lemma PutKeys<V>(m: seq<(string, V)>, k: string, v: V)
    ensures forall j :: j in Keys(Put(m, k, v)) <==> j in Keys(m) || j == k
    ensures Distinct(Keys(m)) ==> Distinct(Keys(Put(m, k, v)))
  {
    if |m| > 0 && m[0].0 != k {
      PutKeys(m[1..], k, v);
      var tail := Keys(Put(m[1..], k, v));
      assert Keys(Put(m, k, v)) == [m[0].0] + tail;
      if Distinct(Keys(m)) {
        assert Keys(m) == [m[0].0] + Keys(m[1..]);
        assert m[0].0 !in Keys(m[1..]);
        assert m[0].0 !in tail;
      }
    }
  }

  /** After all assignments a key holds the value of its last assignment, or
      its old value if it was never assigned. */
  lemma {:induction false} PutAllLookup<V>(m: seq<(string, V)>, pairs: seq<(string, V)>, j: string)
    ensures Lookup(PutAll(m, pairs), j) == if j in Keys(pairs) then LastValue(pairs, j) else Lookup(m, j)
    decreases |pairs|
  {
    if |pairs| > 0 {
      var m' := Put(m, pairs[0].0, pairs[0].1);
      PutAllLookup(m', pairs[1..], j);
      PutLookup(m, pairs[0].0, pairs[0].1, j);
      assert Keys(pairs) == [pairs[0].0] + Keys(pairs[1..]);
    }
  }

  /** The keys after all assignments are the old keys and the assigned ones,
      each once. */
  lemma {:induction false} PutAllKeys<V>(m: seq<(string, V)>, pairs: seq<(string, V)>)
    ensures forall j :: j in Keys(PutAll(m, pairs)) <==> j in Keys(m) || j in Keys(pairs)
    ensures Distinct(Keys(m)) ==> Distinct(Keys(PutAll(m, pairs)))
    decreases |pairs|
  {
    if |pairs| > 0 {
      var m' := Put(m, pairs[0].0, pairs[0].1);
      PutKeys(m, pairs[0].0, pairs[0].1);
      PutAllKeys(m', pairs[1..]);
      assert Keys(pairs) == [pairs[0].0] + Keys(pairs[1..]);
    }
  }
}

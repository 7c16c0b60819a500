/// A Python dict with string keys, as an insertion-ordered sequence of
/// key/value pairs. `json.dumps` writes the members in this order.
module PyDict {
  import opened Results

  type Dict<V> = seq<(string, V)>

  function Keys<V>(d: Dict<V>): (ks: seq<string>)
    ensures |ks| == |d|
  {
    if d == [] then [] else [d[0].0] + Keys(d[1..])
  }

  predicate DistinctKeys<V>(d: Dict<V>)
  {
    forall i, j :: 0 <= i < j < |d| ==> d[i].0 != d[j].0
  }

  /// `d[k]` if `k in d`, else None.
  function Get<V>(d: Dict<V>, k: string): (r: Option<V>)
    ensures r.Some? <==> k in Keys(d)
  {
    if d == [] then None else if d[0].0 == k then Some(d[0].1) else Get(d[1..], k)
  }

  /// The position of key k in d.
  function IndexOf<V>(d: Dict<V>, k: string): (i: nat)
    requires k in Keys(d)
    ensures i < |d| && d[i].0 == k
    ensures forall j :: 0 <= j < i ==> d[j].0 != k
  {
    if d[0].0 == k then 0 else 1 + IndexOf(d[1..], k)
  }

  /// `d[k] = v`: an existing key keeps its position and takes the new value,
  /// a new key is appended at the end.
  function Set<V>(d: Dict<V>, k: string, v: V): Dict<V>
  {
    if k in Keys(d) then d[IndexOf(d, k) := (k, v)] else d + [(k, v)]
  }

  lemma {:induction false} KeysIndex<V>(d: Dict<V>, i: int)
    requires 0 <= i < |d|
    ensures Keys(d)[i] == d[i].0
  {
    if i > 0 { KeysIndex(d[1..], i - 1); }
  }

  /// After `d[k] = v`, `d[k]` is v and every other key reads as before;
  /// an existing key keeps its place, so the key order only changes by
  /// appending a new key; distinct keys stay distinct.
  lemma SetGet<V>(d: Dict<V>, k: string, v: V)
    ensures Get(Set(d, k, v), k) == Some(v)
    ensures forall k' :: k' != k ==> Get(Set(d, k, v), k') == Get(d, k')
    ensures Keys(Set(d, k, v)) == if k in Keys(d) then Keys(d) else Keys(d) + [k]
    ensures DistinctKeys(d) ==> DistinctKeys(Set(d, k, v))
  {
    if k in Keys(d) {
      ReplaceAt(d, IndexOf(d, k), v);
    } else {
      KeysAppend(d, [(k, v)]);
      forall k' ensures Get(d + [(k, v)], k') == if k' == k then Some(v) else Get(d, k') {
        GetAppend(d, [(k, v)], k');
      }
      if DistinctKeys(d) {
        forall j | 0 <= j < |d| ensures d[j].0 != k {
          KeysIndex(d, j);
        }
      }
    }
  }

  /// Replacing the value at the first position of a key.
  lemma {:induction false} ReplaceAt<V>(d: Dict<V>, i: nat, v: V)
    requires i < |d| && forall j :: 0 <= j < i ==> d[j].0 != d[i].0
    ensures Get(d[i := (d[i].0, v)], d[i].0) == Some(v)
    ensures forall k' :: k' != d[i].0 ==> Get(d[i := (d[i].0, v)], k') == Get(d, k')
    ensures Keys(d[i := (d[i].0, v)]) == Keys(d)
  {
    var r := d[i := (d[i].0, v)];
    if i > 0 {
      assert r[1..] == d[1..][i - 1 := (d[i].0, v)];
      ReplaceAt(d[1..], i - 1, v);
    } else {
      assert r[1..] == d[1..];
    }
  }

  lemma {:induction false} KeysAppend<V>(a: Dict<V>, b: Dict<V>)
    ensures Keys(a + b) == Keys(a) + Keys(b)
  {
    if a != [] {
      assert (a + b)[1..] == a[1..] + b;
      KeysAppend(a[1..], b);
      calc {
        Keys(a + b);
        [a[0].0] + Keys(a[1..] + b);
        [a[0].0] + (Keys(a[1..]) + Keys(b));
        ([a[0].0] + Keys(a[1..])) + Keys(b);
      }
    } else {
      assert a + b == b;
    }
  }

  /// Lookup in a concatenation finds the first dict's entry if there is one.
  lemma {:induction false} GetAppend<V>(a: Dict<V>, b: Dict<V>, k: string)
    ensures Get(a + b, k) == if k in Keys(a) then Get(a, k) else Get(b, k)
  {
    if a != [] {
      assert (a + b)[1..] == a[1..] + b;
      GetAppend(a[1..], b, k);
    } else {
      assert a + b == b;
    }
  }

  /// No string occurs twice in s.
  predicate Distinct(s: seq<string>)
  {
    forall i, j :: 0 <= i < j < |s| ==> s[i] != s[j]
  }

  /// A dict has no repeated key when its key sequence has no repeat.
  lemma DistinctKeysFromKeys<V>(d: Dict<V>)
    requires Distinct(Keys(d))
    ensures DistinctKeys(d)
  {
    forall i, j | 0 <= i < j < |d| ensures d[i].0 != d[j].0 {
      KeysIndex(d, i);
      KeysIndex(d, j);
    }
  }

  /// Two sequences without repeats and without common elements concatenate
  /// to one without repeats.
  lemma DistinctConcat(a: seq<string>, b: seq<string>)
    requires Distinct(a) && Distinct(b)
    requires forall j :: 0 <= j < |b| ==> b[j] !in a
    ensures Distinct(a + b)
  {
    forall i, j | 0 <= i < j < |a + b| ensures (a + b)[i] != (a + b)[j] {
      if j >= |a| {
        assert (a + b)[j] == b[j - |a|];
        if i < |a| {
          assert (a + b)[i] == a[i];
        } else {
          assert (a + b)[i] == b[i - |a|];
        }
      }
    }
  }
}

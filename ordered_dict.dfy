/**
 * A Python `dict` with string keys as the model sees it: a sequence of (key, value) pairs in
 * insertion order. Assigning to a key that is present replaces its value where
 * it stands; assigning to a new key appends it. So a key keeps the position of
 * its first insertion even after later writes overwrite the value.
 */
module OrderedDict {
  import opened Wrappers

  type Dict<V> = seq<(string, V)>

  /** `list(d.keys())`. */
  function Keys<V>(d: Dict<V>): (ks: seq<string>)
    ensures |ks| == |d|
    decreases |d|
  {
    if |d| == 0 then [] else [d[0].0] + Keys(d[1..])
  }

  /** The i-th key is the key of the i-th pair. */
  lemma {:induction false} KeysAt<V>(d: Dict<V>, i: nat)
    requires i < |d|
    ensures Keys(d)[i] == d[i].0
    decreases |d|
  {
    if i > 0 {
      KeysAt(d[1..], i - 1);
    }
  }

  /** No key occurs twice: every dict built by `Put` has this shape. */
  predicate DistinctKeys<V>(d: Dict<V>) {
    forall i, j :: 0 <= i < j < |d| ==> d[i].0 != d[j].0
  }

  /** `d.get(k)`: the value stored under `k`, if `k` is a key. */
  function Get<V>(d: Dict<V>, k: string): (r: Option<V>)
    ensures r.Some? <==> k in Keys(d)
    decreases |d|
  {
    if |d| == 0 then None
    else if d[0].0 == k then Some(d[0].1)
    else Get(d[1..], k)
  }

  /** In a dict with distinct keys, every stored pair is what `Get` finds. */
  lemma {:induction false} GetAt<V>(d: Dict<V>, i: nat)
    requires DistinctKeys(d) && i < |d|
    ensures Get(d, d[i].0) == Some(d[i].1)
    decreases |d|
  {
    KeysAt(d, i);
    if i > 0 {
      assert d[0].0 != d[i].0;
      assert d[1..][i - 1] == d[i];
      GetAt(d[1..], i - 1);
    }
  }

  /**
   * `d[k] = v`: a present key keeps its place (its value is replaced where it
   * stands) and a new key goes to the end.
   */
  function Put<V>(d: Dict<V>, k: string, v: V): (r: Dict<V>)
    ensures Keys(r) == if k in Keys(d) then Keys(d) else Keys(d) + [k]
    decreases |d|
  {
    if |d| == 0 then [(k, v)]
    else if d[0].0 == k then [(k, v)] + d[1..]
    else [d[0]] + Put(d[1..], k, v)
  }

  /** After `d[k] = v`, `k` maps to `v`. */
  lemma {:induction false} PutGetSame<V>(d: Dict<V>, k: string, v: V)
    ensures Get(Put(d, k, v), k) == Some(v)
    decreases |d|
  {
    if |d| > 0 && d[0].0 != k {
      PutGetSame(d[1..], k, v);
    }
  }

  /** After `d[k] = v`, every other key maps to what it mapped to before. */
  lemma {:induction false} PutGetOther<V>(d: Dict<V>, k: string, v: V, j: string)
    requires j != k
    ensures Get(Put(d, k, v), j) == Get(d, j)
    decreases |d|
  {
    if |d| > 0 && d[0].0 != k {
      PutGetOther(d[1..], k, v, j);
    }
  }

  /** Assigning to a new key appends the pair and changes nothing else. */
  lemma {:induction false} PutNewKey<V>(d: Dict<V>, k: string, v: V)
    requires k !in Keys(d)
    ensures Put(d, k, v) == d + [(k, v)]
    decreases |d|
  {
    if |d| > 0 {
      assert Keys(d) == [d[0].0] + Keys(d[1..]);
      PutNewKey(d[1..], k, v);
      assert [d[0]] + (d[1..] + [(k, v)]) == d + [(k, v)];
    }
  }

  /** Assignment keeps the keys distinct. */
  lemma PutDistinct<V>(d: Dict<V>, k: string, v: V)
    requires DistinctKeys(d)
    ensures DistinctKeys(Put(d, k, v))
  {
    var r := Put(d, k, v);
    forall i, j | 0 <= i < j < |r| ensures r[i].0 != r[j].0 {
      KeysAt(r, i);
      KeysAt(r, j);
      if j < |d| {
        KeysAt(d, i);
        KeysAt(d, j);
      } else {
        assert Keys(r)[i] == Keys(d)[i];
      }
    }
  }

  /**
   * The dict a sequence of assignments `d[k] = v` builds from `{}`, in order:
   * Python's `{k: v for (k, v) in pairs}`.
   */
  function FromPairs<V>(pairs: seq<(string, V)>): (d: Dict<V>)
    ensures DistinctKeys(d)
    decreases |pairs|
  {
    if |pairs| == 0 then []
    else
      var last := pairs[|pairs| - 1];
      PutDistinct(FromPairs(pairs[..|pairs| - 1]), last.0, last.1);
      Put(FromPairs(pairs[..|pairs| - 1]), last.0, last.1)
  }

  /** One more assignment on top of a built dict. */
  lemma FromPairsSnoc<V>(pairs: seq<(string, V)>, k: string, v: V)
    ensures FromPairs(pairs + [(k, v)]) == Put(FromPairs(pairs), k, v)
  {
    assert (pairs + [(k, v)])[..|pairs|] == pairs;
  }

  /**
   * Reference definition of a lookup after a run of assignments: the value of
   * the LAST pair with key `k`, searching from the right.
   */
  function LastValue<V>(pairs: seq<(string, V)>, k: string): Option<V>
    decreases |pairs|
  {
    if |pairs| == 0 then None
    else if pairs[|pairs| - 1].0 == k then Some(pairs[|pairs| - 1].1)
    else LastValue(pairs[..|pairs| - 1], k)
  }

  /** A pair that no later pair overrides is the last value of its key. */
  lemma {:induction false} LastValueAt<V>(pairs: seq<(string, V)>, i: nat)
    requires i < |pairs|
    requires forall j :: i < j < |pairs| ==> pairs[j].0 != pairs[i].0
    ensures LastValue(pairs, pairs[i].0) == Some(pairs[i].1)
    decreases |pairs|
  {
    if i < |pairs| - 1 {
      LastValueAt(pairs[..|pairs| - 1], i);
    }
  }

  /** A key no pair carries has no last value, and conversely. */
  lemma {:induction false} LastValueNone<V>(pairs: seq<(string, V)>, k: string)
    ensures LastValue(pairs, k).None? <==> forall i :: 0 <= i < |pairs| ==> pairs[i].0 != k
    decreases |pairs|
  {
    if |pairs| > 0 {
      var prefix := pairs[..|pairs| - 1];
      LastValueNone(prefix, k);
      assert forall i :: 0 <= i < |prefix| ==> prefix[i] == pairs[i];
    }
  }

  /** A last value is the value of a pair that carries the key. */
  lemma {:induction false} LastValueMember<V>(pairs: seq<(string, V)>, k: string)
    ensures LastValue(pairs, k).Some? ==> (k, LastValue(pairs, k).value) in pairs
    decreases |pairs|
  {
    if |pairs| > 0 && pairs[|pairs| - 1].0 != k {
      var prefix := pairs[..|pairs| - 1];
      LastValueMember(prefix, k);
      if LastValue(prefix, k).Some? {
        var i :| 0 <= i < |prefix| && prefix[i] == (k, LastValue(prefix, k).value);
        assert pairs[i] == prefix[i];
      }
    }
  }

  /** Pair `i` carries key `k` and no later pair does. */
  predicate LastPairAt<V>(pairs: seq<(string, V)>, k: string, i: int) {
    0 <= i < |pairs| && pairs[i].0 == k && forall j :: i < j < |pairs| ==> pairs[j].0 != k
  }

  /** A last value is the value of the last pair that carries the key. */
  lemma {:induction false} LastValueLastPair<V>(pairs: seq<(string, V)>, k: string)
    ensures LastValue(pairs, k).Some? ==> exists i :: LastPairAt(pairs, k, i) && pairs[i].1 == LastValue(pairs, k).value
    decreases |pairs|
  {
    if |pairs| > 0 {
      var n := |pairs| - 1;
      if pairs[n].0 == k {
        assert LastPairAt(pairs, k, n);
      } else {
        var prefix := pairs[..n];
        LastValueLastPair(prefix, k);
        if LastValue(prefix, k).Some? {
          var i :| LastPairAt(prefix, k, i) && prefix[i].1 == LastValue(prefix, k).value;
          assert pairs[i] == prefix[i];
          assert forall j :: i < j < n ==> pairs[j] == prefix[j];
          assert LastPairAt(pairs, k, i);
        }
      }
    }
  }

  /** Looking a key up in the built dict finds the value of its last assignment. */
  lemma {:induction false} FromPairsGet<V>(pairs: seq<(string, V)>, k: string)
    ensures Get(FromPairs(pairs), k) == LastValue(pairs, k)
    decreases |pairs|
  {
    if |pairs| > 0 {
      var prefix, last := pairs[..|pairs| - 1], pairs[|pairs| - 1];
      FromPairsGet(prefix, k);
      if last.0 == k {
        PutGetSame(FromPairs(prefix), k, last.1);
      } else {
        PutGetOther(FromPairs(prefix), last.0, last.1, k);
      }
    }
  }

  /** The first key of the built dict is the key of the first assignment. */
  lemma {:induction false} FromPairsFirstKey<V>(pairs: seq<(string, V)>)
    requires |pairs| > 0
    ensures |FromPairs(pairs)| > 0 && FromPairs(pairs)[0].0 == pairs[0].0
    decreases |pairs|
  {
    if |pairs| > 1 {
      var prefix := pairs[..|pairs| - 1];
      FromPairsFirstKey(prefix);
      var last := pairs[|pairs| - 1];
      var d := FromPairs(prefix);
      var r := Put(d, last.0, last.1);
      KeysAt(r, 0);
      KeysAt(d, 0);
      assert Keys(r)[0] == Keys(d)[0];
    }
  }

  /** Assignments to distinct keys build exactly the sequence of assignments. */
  lemma {:induction false} FromPairsDistinct<V>(pairs: seq<(string, V)>)
    requires DistinctKeys(pairs)
    ensures FromPairs(pairs) == pairs
    decreases |pairs|
  {
    if |pairs| > 0 {
      var prefix := pairs[..|pairs| - 1];
      var last := pairs[|pairs| - 1];
      FromPairsDistinct(prefix);
      forall i | 0 <= i < |prefix| ensures Keys(prefix)[i] != last.0 {
        KeysAt(prefix, i);
      }
      PutNewKey(prefix, last.0, last.1);
      assert prefix + [last] == pairs;
    }
  }
}

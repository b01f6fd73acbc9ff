/**
  How an object's keys are checked for duplicates: sorted, then compared with
  their neighbours.
 */
module KeySort {
  import opened Ascii
  import opened Relayout

  /** bytes.Compare(a, b) <= 0 */
  predicate AtMost(a: Bytes, b: Bytes) {
    a == [] || (b != [] && (a[0] < b[0] || (a[0] == b[0] && AtMost(a[1..], b[1..]))))
  }

  ghost predicate Sorted(keys: seq<Bytes>) {
    forall i, j :: 0 <= i < j < |keys| ==> AtMost(keys[i], keys[j])
  }

  lemma {:induction false} AtMostTotal(a: Bytes, b: Bytes)
    ensures AtMost(a, b) || AtMost(b, a)
  {
    if a != [] && b != [] {
      AtMostTotal(a[1..], b[1..]);
    }
  }

  lemma {:induction false} AtMostTransitive(a: Bytes, b: Bytes, c: Bytes)
    requires AtMost(a, b) && AtMost(b, c)
    ensures AtMost(a, c)
  {
    if a != [] && a[0] == b[0] == c[0] {
      AtMostTransitive(a[1..], b[1..], c[1..]);
    }
  }

  lemma {:induction false} AtMostAntisymmetric(a: Bytes, b: Bytes)
    requires AtMost(a, b) && AtMost(b, a)
    ensures a == b
  {
    if a != [] {
      AtMostAntisymmetric(a[1..], b[1..]);
      assert a == [a[0]] + a[1..] && b == [b[0]] + b[1..];
    }
  }

  /** slices.SortFunc(keys, bytes.Compare) */
  method SortKeys(keys: seq<Bytes>) returns (r: seq<Bytes>)
    ensures Sorted(r) && multiset(r) == multiset(keys)
  {
    r := [];
    for i := 0 to |keys|
      invariant Sorted(r) && multiset(r) == multiset(keys[..i])
    {
      r := InsertKey(r, keys[i]);
      assert keys[..i + 1] == keys[..i] + [keys[i]];
    }
    assert keys[..|keys|] == keys;
  }

  method InsertKey(keys: seq<Bytes>, key: Bytes) returns (r: seq<Bytes>)
    requires Sorted(keys)
    ensures Sorted(r) && multiset(r) == multiset(keys) + multiset{key}
  {
    hide AtMost;
    var n := 0;
    while n < |keys| && AtMost(keys[n], key)
      invariant n <= |keys| && forall i :: 0 <= i < n ==> AtMost(keys[i], key)
    {
      n := n + 1;
    }
    if n < |keys| {
      AtMostTotal(keys[n], key);
      forall j | n <= j < |keys|
        ensures AtMost(key, keys[j])
      {
        if j > n {
          AtMostTransitive(key, keys[n], keys[j]);
        }
      }
    }
    r := keys[..n] + [key] + keys[n..];
    assert keys == keys[..n] + keys[n..];
  }

  /** Whether two neighbours are equal. */
  method HasEqualNeighbours(keys: seq<Bytes>) returns (found: bool)
    ensures found <==> exists i :: 0 < i < |keys| && keys[i - 1] == keys[i]
  {
    var i := 1;
    while i < |keys|
      invariant 1 <= i && forall j :: 0 < j < i && j < |keys| ==> keys[j - 1] != keys[j]
    {
      if keys[i - 1] == keys[i] {
        return true;
      }
      i := i + 1;
    }
    return false;
  }

  lemma {:induction false} DuplicateIsTwice(keys: seq<Bytes>)
    ensures HasDuplicate(keys) <==> exists k :: multiset(keys)[k] > 1
  {
    if i, j :| 0 <= i < j < |keys| && keys[i] == keys[j] {
      var k := keys[i];
      assert keys == keys[..j] + [keys[j]] + keys[j + 1..];
      assert keys[..j][i] == k;
      assert k in multiset(keys[..j]);
      assert multiset(keys)[k] == multiset(keys[..j])[k] + multiset([keys[j]])[k] + multiset(keys[j + 1..])[k];
    }
    if k :| multiset(keys)[k] > 1 {
      TwiceIsDuplicate(keys, k);
    }
  }

  lemma {:induction false} TwiceIsDuplicate(keys: seq<Bytes>, k: Bytes)
    requires multiset(keys)[k] > 1
    ensures HasDuplicate(keys)
  {
    var rest := keys[1..];
    assert keys == [keys[0]] + rest;
    if keys[0] == k {
      assert k in multiset(rest);
      var j :| 0 <= j < |rest| && rest[j] == k;
      assert keys[0] == keys[j + 1];
    } else {
      TwiceIsDuplicate(rest, k);
      var i, j :| 0 <= i < j < |rest| && rest[i] == rest[j];
      assert keys[i + 1] == keys[j + 1];
    }
  }

  /** Comparing neighbours after any sort decides whether there are
      duplicates. */
  lemma NeighboursDecide(keys: seq<Bytes>, sorted: seq<Bytes>)
    requires Sorted(sorted) && multiset(sorted) == multiset(keys)
    ensures HasDuplicate(keys) <==> exists i :: 0 < i < |sorted| && sorted[i - 1] == sorted[i]
  {
    hide AtMost;
    DuplicateIsTwice(keys);
    DuplicateIsTwice(sorted);
    assert HasDuplicate(keys) <==> HasDuplicate(sorted);
    if i, j :| 0 <= i < j < |sorted| && sorted[i] == sorted[j] {
      if i + 1 < j {
        AtMostAntisymmetric(sorted[i], sorted[i + 1]);
      }
      assert sorted[i + 1 - 1] == sorted[i + 1];
    }
    if i :| 0 < i < |sorted| && sorted[i - 1] == sorted[i] {
      assert HasDuplicate(sorted);
    }
  }
}

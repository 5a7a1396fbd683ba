/** The `marks_dict` of the analyzer: a Python dict from subject name to
    mark. Python dicts remember insertion order (that order is the order of
    the report table), so the dict is an association list whose keys are
    pairwise distinct. Assigning `d[k] = v` replaces the value of an existing
    key where it stands and appends a new key at the end. */
module MarksDict {
  import opened Wrappers

  type Dict = seq<(string, int)>

  /** The names in insertion order. */
  function KeySeq(d: Dict): (ks: seq<string>)
    ensures |ks| == |d|
    ensures forall i :: 0 <= i < |d| ==> ks[i] == d[i].0
  {
    if d == [] then [] else [d[0].0] + KeySeq(d[1..])
  }

  predicate HasKey(d: Dict, k: string) {
    k in KeySeq(d)
  }

  /** No name occurs twice: the shape every Python dict has. */
  predicate NoDuplicateKeys(d: Dict) {
    forall i, j :: 0 <= i < j < |d| ==> d[i].0 != d[j].0
  }

  /** `d.get(k)`: the value stored under k, if any. */
  function Lookup(d: Dict, k: string): (r: Option<int>)
    ensures r.Some? <==> HasKey(d, k)
  {
    if d == [] then None
    else if d[0].0 == k then Some(d[0].1)
    else Lookup(d[1..], k)
  }

  predicate NonNegativeValues(d: Dict) {
    forall i :: 0 <= i < |d| ==> 0 <= d[i].1
  }

  /** `sum(d.values())`. */
  function SumValues(d: Dict): (r: int)
    ensures NonNegativeValues(d) ==> 0 <= r
  {
    if d == [] then 0 else d[0].1 + SumValues(d[1..])
  }

  /** `d[k] = v`: overwrite the first entry named k, or append one. */
  function Put(d: Dict, k: string, v: int): (r: Dict)
    ensures HasKey(d, k) ==> KeySeq(r) == KeySeq(d)
    ensures !HasKey(d, k) ==> r == d + [(k, v)]
  {
    if d == [] then [(k, v)]
    else if d[0].0 == k then [(k, v)] + d[1..]
    else [d[0]] + Put(d[1..], k, v)
  }

  /** After `d[k] = v`, k maps to v and every other key keeps its value. */
  lemma {:induction false} PutLookup(d: Dict, k: string, v: int, k': string)
    ensures Lookup(Put(d, k, v), k') == if k' == k then Some(v) else Lookup(d, k')
  {
    if d != [] && d[0].0 != k {
      PutLookup(d[1..], k, v, k');
    }
  }

  /** Assignment keeps the keys distinct. */
  lemma PutNoDuplicateKeys(d: Dict, k: string, v: int)
    requires NoDuplicateKeys(d)
    ensures NoDuplicateKeys(Put(d, k, v))
  {
    var r := Put(d, k, v);
    if HasKey(d, k) {
      assert forall i :: 0 <= i < |r| ==> r[i].0 == KeySeq(r)[i] == KeySeq(d)[i];
    } else {
      assert forall i :: 0 <= i < |d| ==> d[i].0 == KeySeq(d)[i];
    }
  }

  /** The values, in insertion order, lie in [lo, hi]. */
  predicate ValuesWithin(d: Dict, lo: int, hi: int) {
    forall i :: 0 <= i < |d| ==> lo <= d[i].1 <= hi
  }

  /** Assignment keeps every value in range when the new one is. */
  lemma {:induction false} PutWithin(d: Dict, k: string, v: int, lo: int, hi: int)
    requires ValuesWithin(d, lo, hi) && lo <= v <= hi
    ensures ValuesWithin(Put(d, k, v), lo, hi)
  {
    if d != [] && d[0].0 != k {
      assert ValuesWithin(d[1..], lo, hi) by {
        forall i | 0 <= i < |d[1..]| ensures lo <= d[1..][i].1 <= hi {
          assert d[1..][i] == d[i + 1];
        }
      }
      PutWithin(d[1..], k, v, lo, hi);
    }
  }

  /** Adding a new key adds its value to the sum; overwriting an existing
      key trades the old value for the new one. */
  lemma {:induction false} SumValuesPut(d: Dict, k: string, v: int)
    ensures !HasKey(d, k) ==> SumValues(Put(d, k, v)) == SumValues(d) + v
    ensures HasKey(d, k) ==> SumValues(Put(d, k, v)) == SumValues(d) - Lookup(d, k).value + v
  {
    if d != [] && d[0].0 != k {
      SumValuesPut(d[1..], k, v);
    }
  }

  /** A dict whose values all lie in [lo, hi] sums to between |d|*lo and |d|*hi. */
  lemma {:induction false} SumValuesBounds(d: Dict, lo: int, hi: int)
    requires ValuesWithin(d, lo, hi)
    ensures |d| * lo <= SumValues(d) <= |d| * hi
  {
    if d != [] {
      var tail, n := d[1..], |d| - 1;
      assert ValuesWithin(tail, lo, hi) by {
        forall i | 0 <= i < |tail| ensures lo <= tail[i].1 <= hi {
          assert tail[i] == d[i + 1];
        }
      }
      SumValuesBounds(tail, lo, hi);
      MulSucc(n, lo);
      MulSucc(n, hi);
    }
  }

  lemma MulSucc(n: int, x: int)
    ensures (n + 1) * x == n * x + x
  {
  }

  lemma {:induction false} SumValuesAppend(a: Dict, b: Dict)
    ensures SumValues(a + b) == SumValues(a) + SumValues(b)
  {
    if a == [] {
      assert a + b == b;
    } else {
      assert (a + b)[1..] == a[1..] + b;
      SumValuesAppend(a[1..], b);
    }
  }

  /** Removing the entry at position j takes its value out of the sum. */
  lemma {:induction false} SumValuesRemove(b: Dict, j: nat)
    requires j < |b|
    ensures SumValues(b) == SumValues(b[..j] + b[j + 1..]) + b[j].1
  {
    var rest := b[..j] + b[j + 1..];
    if j == 0 {
      assert rest == b[1..];
    } else {
      var tail := b[1..];
      assert tail[..j - 1] + tail[j..] == rest[1..];
      assert rest[0] == b[0];
      SumValuesRemove(tail, j - 1);
    }
  }

  lemma MultisetRemove(b: Dict, j: nat)
    requires j < |b|
    ensures multiset(b[..j] + b[j + 1..]) == multiset(b) - multiset{b[j]}
  {
    assert b == b[..j] + [b[j]] + b[j + 1..];
  }

  /** The sum of the values does not depend on their order. */
  lemma {:induction false} SumValuesPermutation(a: Dict, b: Dict)
    requires multiset(a) == multiset(b)
    ensures SumValues(a) == SumValues(b)
  {
    if a != [] {
      assert a[0] in multiset(b);
      var j :| 0 <= j < |b| && b[j] == a[0];
      var rest := b[..j] + b[j + 1..];
      MultisetRemove(b, j);
      assert a == [a[0]] + a[1..];
      assert multiset(a[1..]) == multiset(a) - multiset{a[0]};
      SumValuesPermutation(a[1..], rest);
      SumValuesRemove(b, j);
    }
  }

  lemma NoDuplicateKeysTail(a: Dict)
    requires a != [] && NoDuplicateKeys(a)
    ensures NoDuplicateKeys(a[1..])
    ensures forall r :: 0 <= r < |a[1..]| ==> a[1..][r].0 != a[0].0
  {
    forall p, q | 0 <= p < q < |a[1..]| ensures a[1..][p].0 != a[1..][q].0 {
      assert a[1..][p] == a[p + 1] && a[1..][q] == a[q + 1];
    }
  }

  lemma NoDuplicateKeysInit(a: Dict)
    requires a != [] && NoDuplicateKeys(a)
    ensures NoDuplicateKeys(a[..|a| - 1])
    ensures !HasKey(a[..|a| - 1], a[|a| - 1].0)
  {
    var p := a[..|a| - 1];
    forall i, j | 0 <= i < j < |p| ensures p[i].0 != p[j].0 {
      assert p[i] == a[i] && p[j] == a[j];
    }
    forall i | 0 <= i < |p| ensures KeySeq(p)[i] != a[|a| - 1].0 {
      assert KeySeq(p)[i] == p[i].0 == a[i].0;
    }
  }

  /** Putting back, at position j, an entry whose key the rest lacks keeps keys distinct. */
  lemma NoDuplicateKeysInsert(b: Dict, j: nat, rest: Dict)
    requires j < |b| && rest == b[..j] + b[j + 1..]
    requires NoDuplicateKeys(rest)
    requires forall r :: 0 <= r < |rest| ==> rest[r].0 != b[j].0
    ensures NoDuplicateKeys(b)
  {
    forall p, q | 0 <= p < q < |b| ensures b[p].0 != b[q].0 {
      if p == j {
        assert b[q] == rest[q - 1];
      } else if q == j {
        assert b[p] == rest[p];
      } else {
        var p' := if p < j then p else p - 1;
        var q' := if q < j then q else q - 1;
        assert b[p] == rest[p'] && b[q] == rest[q'];
      }
    }
  }

  /** Reordering the entries of a dict leaves its keys distinct. */
  lemma {:induction false} NoDuplicateKeysPermutation(a: Dict, b: Dict)
    requires NoDuplicateKeys(a) && multiset(a) == multiset(b)
    ensures NoDuplicateKeys(b)
  {
    if a == [] {
      assert |multiset(b)| == |b|;
    } else {
      assert a[0] in multiset(b);
      var j :| 0 <= j < |b| && b[j] == a[0];
      var rest := b[..j] + b[j + 1..];
      MultisetRemove(b, j);
      assert a == [a[0]] + a[1..];
      assert multiset(a[1..]) == multiset(rest);
      NoDuplicateKeysTail(a);
      NoDuplicateKeysPermutation(a[1..], rest);
      forall r | 0 <= r < |rest| ensures rest[r].0 != b[j].0 {
        assert rest[r] in multiset(a[1..]);
      }
      NoDuplicateKeysInsert(b, j, rest);
    }
  }
}

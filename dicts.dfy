/** Python dictionaries as the program uses them: insertion-ordered
    key/value pairs, looked up with `d[k]` (a `KeyError` when the key is
    missing), updated with `d[k] = v`, and filtered by a comprehension
    `{k: v for k, v in d.items() if k in keep}`. */
module Dicts {
  import opened Results

  /** The pairs of `d.items()`, in insertion order. */
  type Dict<K, V> = seq<(K, V)>

  /** `list(d.keys())`. */
  function Keys<K, V>(d: Dict<K, V>): seq<K>
  {
    seq(|d|, i requires 0 <= i < |d| => d[i].0)
  }

  /** `set(d.keys())`. */
  function KeySet<K, V>(d: Dict<K, V>): set<K>
  {
    set i | 0 <= i < |d| :: d[i].0
  }

  /** What every dictionary satisfies: no key occurs twice. */
  predicate DistinctKeys<K(==), V>(d: Dict<K, V>)
  {
    forall i, j :: 0 <= i < j < |d| ==> d[i].0 != d[j].0
  }

  /** The keys of a dictionary whose first pair is `p`. */
  lemma KeySetCons<K, V>(p: (K, V), t: Dict<K, V>)
    ensures KeySet([p] + t) == {p.0} + KeySet(t)
  {
    var d := [p] + t;
    assert d[0] == p;
    forall x | x in KeySet(d) ensures x in {p.0} + KeySet(t) {
      var i :| 0 <= i < |d| && d[i].0 == x;
      if i > 0 { assert t[i - 1].0 == x; }
    }
    forall x | x in KeySet(t) ensures x in KeySet(d) {
      var i :| 0 <= i < |t| && t[i].0 == x;
      assert d[i + 1].0 == x;
    }
  }

  /** A dictionary whose first pair is `p` has distinct keys exactly when the
      rest has and does not repeat the key of `p`. */
  lemma DistinctCons<K, V>(p: (K, V), t: Dict<K, V>)
    ensures DistinctKeys([p] + t) <==> p.0 !in KeySet(t) && DistinctKeys(t)
  {
    var d := [p] + t;
    if DistinctKeys(d) {
      forall i, j | 0 <= i < j < |t| ensures t[i].0 != t[j].0 {
        assert d[i + 1] == t[i] && d[j + 1] == t[j];
      }
      forall j | 0 <= j < |t| ensures t[j].0 != p.0 {
        assert d[0] == p && d[j + 1] == t[j];
      }
    }
    if p.0 !in KeySet(t) && DistinctKeys(t) {
      forall i, j | 0 <= i < j < |d| ensures d[i].0 != d[j].0 {
        if i == 0 {
          assert d[j].0 == t[j - 1].0 && t[j - 1].0 in KeySet(t);
        } else {
          assert d[i] == t[i - 1] && d[j] == t[j - 1];
        }
      }
    }
  }

  /** `d[k]`, with `None` standing for the `KeyError`. */
  function Get<K(==), V>(d: Dict<K, V>, k: K): (r: Option<V>)
    ensures r.None? <==> k !in KeySet(d)
    ensures r.Some? ==> (k, r.value) in d
  {
    if d == [] then None
    else if d[0].0 == k then Some(d[0].1)
    else
      KeySetCons(d[0], d[1..]);
      assert [d[0]] + d[1..] == d;
      Get(d[1..], k)
  }

  /** In a dictionary, the value found under the key of the `i`-th pair is
      that pair's value. */
  lemma {:induction false} GetAt<K, V>(d: Dict<K, V>, i: int)
    requires DistinctKeys(d) && 0 <= i < |d|
    ensures Get(d, d[i].0) == Some(d[i].1)
  {
    if i > 0 {
      assert [d[0]] + d[1..] == d;
      DistinctCons(d[0], d[1..]);
      assert d[1..][i - 1] == d[i];
      GetAt(d[1..], i - 1);
    }
  }

  /** `d[k] = v`: the key takes the new value and every other key keeps its
      own; the order of the pairs is stated by `PutOrder`. */
  function Put<K(==,!new), V>(d: Dict<K, V>, k: K, v: V): (r: Dict<K, V>)
    ensures Get(r, k) == Some(v)
    ensures forall k' | k' != k :: Get(r, k') == Get(d, k')
    ensures KeySet(r) == KeySet(d) + {k}
    ensures |r| == if k in KeySet(d) then |d| else |d| + 1
    ensures DistinctKeys(d) ==> DistinctKeys(r)
  {
    if d == [] then [(k, v)]
    else
      assert [d[0]] + d[1..] == d;
      KeySetCons(d[0], d[1..]);
      DistinctCons(d[0], d[1..]);
      if d[0].0 == k then
        var r := [(k, v)] + d[1..];
        KeySetCons((k, v), d[1..]);
        DistinctCons((k, v), d[1..]);
        r
      else
        var t := Put(d[1..], k, v);
        KeySetCons(d[0], t);
        DistinctCons(d[0], t);
        [d[0]] + t
  }

  /** `d[k] = v` keeps the insertion order: an existing key stays in its
      place, with every other key around it, and a new key is appended at
      the end. */
  lemma {:induction false} PutOrder<K(!new), V>(d: Dict<K, V>, k: K, v: V)
    ensures k in KeySet(d) ==> forall i :: 0 <= i < |d| ==> Put(d, k, v)[i].0 == d[i].0
    ensures k !in KeySet(d) ==> Put(d, k, v) == d + [(k, v)]
  {
    if d != [] {
      assert [d[0]] + d[1..] == d;
      KeySetCons(d[0], d[1..]);
      if d[0].0 != k {
        PutOrder(d[1..], k, v);
        var r := Put(d, k, v);
        assert r[1..] == Put(d[1..], k, v);
        if k in KeySet(d) {
          forall i | 0 < i < |d| ensures r[i].0 == d[i].0 {
            assert r[i] == r[1..][i - 1] && d[i] == d[1..][i - 1];
          }
        } else {
          assert [d[0]] + (d[1..] + [(k, v)]) == d + [(k, v)];
        }
      }
    }
  }

  /** Storing twice under one key is storing the second value once. */
  lemma {:induction false} PutTwice<K(!new), V>(d: Dict<K, V>, k: K, a: V, b: V)
    ensures Put(Put(d, k, a), k, b) == Put(d, k, b)
  {
    if d != [] && d[0].0 != k {
      assert Put(d, k, a) == [d[0]] + Put(d[1..], k, a);
      assert Put(d, k, a)[1..] == Put(d[1..], k, a);
      PutTwice(d[1..], k, a, b);
    }
  }

  /** `a` is `b` with some elements left out, the rest kept in order. */
  predicate Subsequence<T(==)>(a: seq<T>, b: seq<T>)
    decreases |b|
  {
    a == [] || (b != [] && if a[0] == b[0] then Subsequence(a[1..], b[1..]) else Subsequence(a, b[1..]))
  }

  /** Every sequence is a subsequence of itself. */
  lemma {:induction false} SubsequenceOfSelf<T>(a: seq<T>)
    ensures Subsequence(a, a)
  {
    if a != [] {
      SubsequenceOfSelf(a[1..]);
    }
  }

  /** `{k: v for k, v in d.items() if k in keep}`: the pairs of `d` whose key
      is in `keep`, in the order of `d`. */
  function Restrict<K(==,!new), V(!new)>(d: Dict<K, V>, keep: seq<K>): (r: Dict<K, V>)
    ensures forall p :: p in r <==> p in d && p.0 in keep
    ensures Subsequence(r, d)
    ensures forall k :: Get(r, k) == if k in keep then Get(d, k) else None
    ensures |r| <= |d|
  {
    if d == [] then []
    else
      var t := Restrict(d[1..], keep);
      if d[0].0 in keep then
        assert ([d[0]] + t)[1..] == t;
        [d[0]] + t
      else
        assert t != [] ==> t[0] in t;
        t
  }
}

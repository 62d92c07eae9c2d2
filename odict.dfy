/** JavaScript plain objects whose iteration order matters (insertion order of
    string keys), and the stable `Array.prototype.sort` applied to their entries. */
module OrderedDict {

  /** An object: its own keys in insertion order, and the value of each key. */
  datatype Dict<K(==), V> = Dict(keys: seq<K>, vals: map<K, V>) {

    predicate Valid() {
      (forall i, j | 0 <= i < j < |keys| :: keys[i] != keys[j]) &&
      (forall k | k in vals :: k in keys) &&
      (forall i | 0 <= i < |keys| :: keys[i] in vals)
    }

    /** `obj[k] = v`: an existing key keeps its place, a new key goes last. */
    function Put(k: K, v: V): (r: Dict<K, V>)
      requires Valid()
      ensures r.Valid()
      ensures r.vals == vals[k := v]
      ensures k in vals ==> r.keys == keys
      ensures k !in vals ==> r.keys == keys + [k]
    {
      if k in vals then Dict(keys, vals[k := v]) else Dict(keys + [k], vals[k := v])
    }

    /** `Object.entries(obj)`, in key order. */
    function Entries(): (r: seq<(K, V)>)
      requires Valid()
      ensures |r| == |keys|
      ensures forall i | 0 <= i < |r| :: r[i] == (keys[i], vals[keys[i]])
    {
      seq(|keys|, i requires 0 <= i < |keys| => (keys[i], vals[keys[i]]))
    }

    /** The sum of `f` over all values. */
    function Sum(f: V -> int): int
      requires Valid()
    {
      SumOver(keys, vals, f)
    }
  }

  /** `{}`. */
  function Empty<K(==), V>(): (r: Dict<K, V>)
    ensures r.Valid() && |r.keys| == 0 && r.vals == map[]
  {
    Dict([], map[])
  }

  /** The position of a present key. */
  lemma KeyIndex<K, V>(d: Dict<K, V>, k: K) returns (i: nat)
    requires d.Valid() && k in d.vals
    ensures i < |d.keys| && d.keys[i] == k
  {
    assert k in d.keys;
    i :| 0 <= i < |d.keys| && d.keys[i] == k;
  }

  function SumOver<K(==), V>(ks: seq<K>, m: map<K, V>, f: V -> int): int
    requires forall k | k in ks :: k in m
    decreases |ks|
  {
    if |ks| == 0 then 0 else f(m[ks[0]]) + SumOver(ks[1..], m, f)
  }

  lemma {:induction false} SumOverAppend<K, V>(ks: seq<K>, k: K, m: map<K, V>, f: V -> int)
    requires forall x | x in ks :: x in m
    requires k in m
    ensures SumOver(ks + [k], m, f) == SumOver(ks, m, f) + f(m[k])
    decreases |ks|
  {
    if |ks| > 0 {
      assert (ks + [k])[1..] == ks[1..] + [k];
      SumOverAppend(ks[1..], k, m, f);
    }
  }

  lemma {:induction false} SumOverOthers<K, V>(ks: seq<K>, k: K, v: V, m: map<K, V>, f: V -> int)
    requires forall x | x in ks :: x in m
    requires k !in ks
    ensures SumOver(ks, m[k := v], f) == SumOver(ks, m, f)
    decreases |ks|
  {
    if |ks| > 0 {
      SumOverOthers(ks[1..], k, v, m, f);
    }
  }

  lemma {:induction false} SumOverUpdate<K, V>(ks: seq<K>, k: K, v: V, m: map<K, V>, f: V -> int)
    requires forall x | x in ks :: x in m
    requires forall i, j | 0 <= i < j < |ks| :: ks[i] != ks[j]
    requires k in ks
    ensures SumOver(ks, m[k := v], f) == SumOver(ks, m, f) - f(m[k]) + f(v)
    decreases |ks|
  {
    if ks[0] == k {
      assert k !in ks[1..] by {
        forall j | 0 <= j < |ks| - 1 ensures ks[1..][j] != k {
          assert ks[1..][j] == ks[j + 1];
        }
      }
      SumOverOthers(ks[1..], k, v, m, f);
    } else {
      SumOverUpdate(ks[1..], k, v, m, f);
    }
  }

  /** How `Put` changes a sum: the old value of the key (if any) is replaced by the new. */
  lemma PutSum<K, V>(d: Dict<K, V>, k: K, v: V, f: V -> int)
    requires d.Valid()
    ensures d.Put(k, v).Sum(f) == d.Sum(f) + f(v) - (if k in d.vals then f(d.vals[k]) else 0)
  {
    if k in d.vals {
      SumOverUpdate(d.keys, k, v, d.vals, f);
    } else {
      SumOverOthers(d.keys, k, v, d.vals, f);
      SumOverAppend(d.keys, k, d.vals[k := v], f);
    }
  }

  // ---------------------------------------------------------------- stable sort

  /** Non-decreasing by `key`. */
  predicate SortedBy<T>(s: seq<T>, key: T -> real) {
    forall i, j | 0 <= i < j < |s| :: key(s[i]) <= key(s[j])
  }

  /** Inserts `x` after every element whose key is not larger than its own. */
  function Insert<T>(x: T, s: seq<T>, key: T -> real): (r: seq<T>)
    ensures |r| == |s| + 1
    ensures multiset(r) == multiset(s) + multiset{x}
    ensures forall j | 0 <= j < |r| :: r[j] == x || r[j] in s
    decreases |s|
  {
    if |s| == 0 || key(x) < key(s[0]) then [x] + s
    else
      assert s == [s[0]] + s[1..];
      [s[0]] + Insert(x, s[1..], key)
  }

  lemma InsertHead<T>(x: T, s: seq<T>, key: T -> real)
    requires |s| > 0
    ensures Insert(x, s, key)[0] == if key(x) < key(s[0]) then x else s[0]
  {
  }

  /** A sorted sequence stays sorted without its head. */
  lemma SortedTail<T>(s: seq<T>, key: T -> real)
    requires SortedBy(s, key) && |s| > 0
    ensures SortedBy(s[1..], key)
  {
    var rest := s[1..];
    forall i, j | 0 <= i < j < |rest| ensures key(rest[i]) <= key(rest[j]) {
      assert rest[i] == s[i + 1] && rest[j] == s[j + 1];
    }
  }

  lemma {:induction false} InsertSorted<T>(x: T, s: seq<T>, key: T -> real)
    requires SortedBy(s, key)
    ensures SortedBy(Insert(x, s, key), key)
    decreases |s|
  {
    if |s| > 0 && key(x) >= key(s[0]) {
      var rest := s[1..];
      SortedTail(s, key);
      InsertSorted(x, rest, key);
      var t := Insert(x, rest, key);
      forall j | 0 <= j < |t| ensures key(s[0]) <= key(t[j]) {
        if t[j] != x {
          var m :| 0 <= m < |rest| && rest[m] == t[j];
          assert rest[m] == s[m + 1];
        }
      }
      assert Insert(x, s, key) == [s[0]] + t;
    }
  }

  /** `s.sort((a, b) => key(a) - key(b))`: ECMAScript requires `sort` to be stable,
      and a stable sort has exactly one result; this insertion sort is one. */
  function SortBy<T>(s: seq<T>, key: T -> real): (r: seq<T>)
    ensures |r| == |s|
    ensures multiset(r) == multiset(s)
    ensures SortedBy(r, key)
    decreases |s|
  {
    if |s| == 0 then []
    else
      assert s == s[..|s| - 1] + [s[|s| - 1]];
      var t := SortBy(s[..|s| - 1], key);
      InsertSorted(s[|s| - 1], t, key);
      Insert(s[|s| - 1], t, key)
  }

  /** The elements of `s` whose key is `v`, in order. */
  function WithKey<T>(s: seq<T>, key: T -> real, v: real): (r: seq<T>)
    ensures forall i | 0 <= i < |r| :: key(r[i]) == v
    decreases |s|
  {
    if |s| == 0 then []
    else (if key(s[0]) == v then [s[0]] else []) + WithKey(s[1..], key, v)
  }

  lemma {:induction false} WithKeyAppend<T>(a: seq<T>, b: seq<T>, key: T -> real, v: real)
    ensures WithKey(a + b, key, v) == WithKey(a, key, v) + WithKey(b, key, v)
    decreases |a|
  {
    if |a| > 0 {
      assert (a + b)[0] == a[0];
      assert (a + b)[1..] == a[1..] + b;
      WithKeyAppend(a[1..], b, key, v);
    } else {
      assert a + b == b;
    }
  }

  lemma {:induction false} WithKeyNone<T>(s: seq<T>, key: T -> real, v: real)
    requires forall i | 0 <= i < |s| :: key(s[i]) > v
    ensures WithKey(s, key, v) == []
    decreases |s|
  {
    if |s| > 0 {
      WithKeyNone(s[1..], key, v);
    }
  }

  lemma {:induction false} InsertWithKey<T>(x: T, s: seq<T>, key: T -> real, v: real)
    requires SortedBy(s, key)
    ensures WithKey(Insert(x, s, key), key, v) == WithKey(s, key, v) + WithKey([x], key, v)
    decreases |s|
  {
    if |s| == 0 || key(x) < key(s[0]) {
      InsertFront(x, s, key, v);
    } else {
      SortedTail(s, key);
      InsertWithKey(x, s[1..], key, v);
      InsertWithKeyStep(x, s, key, v);
    }
  }

  /** The inductive step of `InsertWithKey`: `x` goes behind the head. */
  lemma InsertWithKeyStep<T>(x: T, s: seq<T>, key: T -> real, v: real)
    requires |s| > 0 && key(x) >= key(s[0])
    requires WithKey(Insert(x, s[1..], key), key, v) == WithKey(s[1..], key, v) + WithKey([x], key, v)
    ensures WithKey(Insert(x, s, key), key, v) == WithKey(s, key, v) + WithKey([x], key, v)
  {
    var rest := s[1..];
    assert Insert(x, s, key) == [s[0]] + Insert(x, rest, key);
    WithKeyAppend([s[0]], Insert(x, rest, key), key, v);
    WithKeyAppend([s[0]], rest, key, v);
    assert [s[0]] + rest == s;
    AppendAssoc(WithKey([s[0]], key, v), WithKey(rest, key, v), WithKey([x], key, v));
  }

  lemma AppendAssoc<T>(a: seq<T>, b: seq<T>, c: seq<T>)
    ensures (a + b) + c == a + (b + c)
  {
  }

  lemma InsertFront<T>(x: T, s: seq<T>, key: T -> real, v: real)
    requires SortedBy(s, key)
    requires |s| == 0 || key(x) < key(s[0])
    ensures WithKey(Insert(x, s, key), key, v) == WithKey(s, key, v) + WithKey([x], key, v)
  {
    assert Insert(x, s, key) == [x] + s;
    WithKeyAppend([x], s, key, v);
    if key(x) == v {
      WithKeyNone(s, key, v);
    }
  }

  /** Stability: among elements with equal keys the input order survives. */
  lemma {:induction false} SortByStable<T>(s: seq<T>, key: T -> real, v: real)
    ensures WithKey(SortBy(s, key), key, v) == WithKey(s, key, v)
    decreases |s|
  {
    if |s| > 0 {
      var init := s[..|s| - 1];
      SortByStable(init, key, v);
      InsertWithKey(s[|s| - 1], SortBy(init, key), key, v);
      WithKeyAppend(init, [s[|s| - 1]], key, v);
      InitLast(s);
    }
  }

  /** The head of the sorted sequence is the first element of `s` with the least key. */
  lemma {:induction false} SortByHead<T>(s: seq<T>, key: T -> real) returns (i: nat)
    requires |s| > 0
    ensures i < |s| && SortBy(s, key)[0] == s[i]
    ensures forall j | 0 <= j < |s| :: key(s[i]) <= key(s[j])
    ensures forall j | 0 <= j < i :: key(s[j]) > key(s[i])
    decreases |s|
  {
    var n := |s| - 1;
    if n == 0 {
      i := 0;
    } else {
      var init := s[..n];
      assert init + [s[n]] == s;
      var k := SortByHead(init, key);
      HeadOfSortStep(s, key);
      i := FirstLeastStep(init, s[n], k, key);
    }
  }

  lemma HeadOfSortStep<T>(s: seq<T>, key: T -> real)
    requires |s| > 1
    ensures var t := SortBy(s[..|s| - 1], key);
      SortBy(s, key)[0] == if key(s[|s| - 1]) < key(t[0]) then s[|s| - 1] else t[0]
  {
    var t := SortBy(s[..|s| - 1], key);
    assert SortBy(s, key) == Insert(s[|s| - 1], t, key);
    InsertHead(s[|s| - 1], t, key);
  }

  /** Extending `init`, whose first least element is at `k`, by one element `x`. */
  lemma FirstLeastStep<T>(init: seq<T>, x: T, k: nat, key: T -> real) returns (i: nat)
    requires k < |init|
    requires forall j | 0 <= j < |init| :: key(init[k]) <= key(init[j])
    requires forall j | 0 <= j < k :: key(init[j]) > key(init[k])
    ensures i == if key(x) < key(init[k]) then |init| else k
    ensures forall j | 0 <= j < |init| + 1 :: key((init + [x])[i]) <= key((init + [x])[j])
    ensures forall j | 0 <= j < i :: key((init + [x])[j]) > key((init + [x])[i])
  {
    var s := init + [x];
    assert forall j | 0 <= j < |init| :: s[j] == init[j];
    i := if key(x) < key(init[k]) then |init| else k;
  }

  /** `s.slice(0, n)`. */
  function Take<T>(s: seq<T>, n: nat): (r: seq<T>)
    ensures |r| <= n && |r| <= |s|
    ensures |s| >= n ==> |r| == n
    ensures r == s[..|r|]
  {
    if |s| <= n then s else s[..n]
  }

  /** The first `n` of the sorted elements are the `n` smallest: every element left
      out has a key no smaller than any kept one. */
  lemma TopBySort<T>(s: seq<T>, key: T -> real, n: nat)
    ensures multiset(Take(SortBy(s, key), n)) <= multiset(s)
    ensures SortedBy(Take(SortBy(s, key), n), key)
    ensures forall y | multiset(Take(SortBy(s, key), n))[y] < multiset(s)[y] ::
      forall i | 0 <= i < |Take(SortBy(s, key), n)| :: key(Take(SortBy(s, key), n)[i]) <= key(y)
  {
    var t := SortBy(s, key);
    var r := Take(t, n);
    var rest := t[|r|..];
    SplitMultiset(t, |r|);
    LeftOutNotSmaller(t, |r|, key);
  }

  /** The first `n` entries of a dictionary sorted by `key` are entries of it. */
  lemma TakeSortedEntries<K, V>(d: Dict<K, V>, key: ((K, V)) -> real, n: nat)
    requires d.Valid()
    ensures var r := Take(SortBy(d.Entries(), key), n);
      |r| == (if |d.keys| < n then |d.keys| else n) &&
      forall i | 0 <= i < |r| :: r[i].0 in d.vals && d.vals[r[i].0] == r[i].1
  {
    var s := d.Entries();
    var r := Take(SortBy(s, key), n);
    TopBySort(s, key, n);
    forall i | 0 <= i < |r| ensures r[i].0 in d.vals && d.vals[r[i].0] == r[i].1 {
      assert r[i] in multiset(s);
      var j :| 0 <= j < |s| && s[j] == r[i];
    }
  }

  lemma SplitMultiset<T>(t: seq<T>, m: nat)
    requires m <= |t|
    ensures multiset(t) == multiset(t[..m]) + multiset(t[m..])
  {
    assert t == t[..m] + t[m..];
  }

  lemma LeftOutNotSmaller<T>(t: seq<T>, m: nat, key: T -> real)
    requires m <= |t| && SortedBy(t, key)
    ensures forall y | y in multiset(t[m..]) :: forall i | 0 <= i < m :: key(t[..m][i]) <= key(y)
  {
    forall y | y in multiset(t[m..]) ensures forall i | 0 <= i < m :: key(t[..m][i]) <= key(y) {
      var j :| 0 <= j < |t[m..]| && t[m..][j] == y;
      assert t[m + j] == y;
    }
  }

  /** Ties keep their order: the kept elements of each key are the first ones of
      that key in `s`. */
  lemma TopStable<T>(s: seq<T>, key: T -> real, n: nat, v: real)
    ensures var w := WithKey(Take(SortBy(s, key), n), key, v);
      |w| <= |WithKey(s, key, v)| && w == WithKey(s, key, v)[..|w|]
  {
    var t := SortBy(s, key);
    var r := Take(t, n);
    assert t == r + t[|r|..];
    WithKeyAppend(r, t[|r|..], key, v);
    SortByStable(s, key, v);
  }

  lemma TopStableOf<T>(s: seq<T>, top: seq<T>, key: T -> real, n: nat, v: real)
    requires top == Take(SortBy(s, key), n)
    ensures |WithKey(top, key, v)| <= |WithKey(s, key, v)|
    ensures WithKey(top, key, v) == WithKey(s, key, v)[..|WithKey(top, key, v)|]
  {
    TopStable(s, key, n, v);
  }

  /** Sorting what is already sorted changes nothing. */
  lemma {:induction false} SortBySorted<T>(s: seq<T>, key: T -> real)
    requires SortedBy(s, key)
    ensures SortBy(s, key) == s
    decreases |s|
  {
    if |s| > 0 {
      var init := s[..|s| - 1];
      assert SortedBy(init, key) by {
        forall i, j | 0 <= i < j < |init| ensures key(init[i]) <= key(init[j]) {
          assert init[i] == s[i] && init[j] == s[j];
        }
      }
      SortBySorted(init, key);
      InsertLast(s[|s| - 1], init, key);
      InitLast(s);
    }
  }

  lemma InitLast<T>(s: seq<T>)
    requires |s| > 0
    ensures s[..|s| - 1] + [s[|s| - 1]] == s
  {
  }

  /** An element whose key is at least every key of `s` goes last. */
  lemma {:induction false} InsertLast<T>(x: T, s: seq<T>, key: T -> real)
    requires forall i | 0 <= i < |s| :: key(s[i]) <= key(x)
    ensures Insert(x, s, key) == s + [x]
    decreases |s|
  {
    if |s| > 0 {
      InsertLast(x, s[1..], key);
      assert [s[0]] + (s[1..] + [x]) == s + [x];
    }
  }
}

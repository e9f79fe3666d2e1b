/**
 * The handful of pandas DataFrame operations the analytics are written with, on sequences
 * of rows: boolean selection, group-by with a sum, `fill_value=0` addition of two grouped
 * series, `sort_values(..., ascending=False)` and `head(n)`. Keys and weights are passed as
 * named functions (the column a group-by or a sum reads).
 */
module Frames {

  function Min(a: int, b: int): int { if a <= b then a else b }

  function Max(a: int, b: int): int { if a >= b then a else b }

  /** Sum of the column `w` over the rows. */
  function SumOf<T>(s: seq<T>, w: T -> int): int {
    if s == [] then 0 else w(s[0]) + SumOf(s[1..], w)
  }

  lemma {:induction false} SumOfConcat<T>(a: seq<T>, b: seq<T>, w: T -> int)
    ensures SumOf(a + b, w) == SumOf(a, w) + SumOf(b, w)
  {
    if a == [] {
      assert a + b == b;
    } else {
      assert (a + b)[1..] == a[1..] + b;
      SumOfConcat(a[1..], b, w);
    }
  }

  lemma {:induction false} SumOfNonNegative<T>(s: seq<T>, w: T -> int)
    requires forall x :: x in s ==> w(x) >= 0
    ensures SumOf(s, w) >= 0
  {
    if s != [] { SumOfNonNegative(s[1..], w); }
  }

  /** The constant column 1: summing it counts rows (pandas `count`). */
  function One<T>(x: T): int { 1 }

  lemma {:induction false} SumOfOne<T>(s: seq<T>)
    ensures SumOf(s, One) == |s|
  {
    if s != [] { SumOfOne(s[1..]); }
  }

  /** The rows whose key is `k`, in their original order: one group of a group-by. */
  function Where<T, K(==)>(s: seq<T>, key: T -> K, k: K): seq<T> {
    if s == [] then [] else (if key(s[0]) == k then [s[0]] else []) + Where(s[1..], key, k)
  }

  /** A group holds rows of the frame, all with the group's key. */
  lemma {:induction false} WhereSound<T, K>(s: seq<T>, key: T -> K, k: K)
    ensures |Where(s, key, k)| <= |s|
    ensures forall x :: x in Where(s, key, k) ==> x in s && key(x) == k
  {
    if s != [] {
      WhereSound(s[1..], key, k);
    }
  }

  lemma {:induction false} WhereConcat<T, K>(a: seq<T>, b: seq<T>, key: T -> K, k: K)
    ensures Where(a + b, key, k) == Where(a, key, k) + Where(b, key, k)
  {
    if a == [] {
      assert a + b == b;
    } else {
      var head := if key(a[0]) == k then [a[0]] else [];
      assert (a + b)[0] == a[0] && (a + b)[1..] == a[1..] + b;
      calc {
        Where(a + b, key, k);
        head + Where(a[1..] + b, key, k);
        { WhereConcat(a[1..], b, key, k); }
        head + (Where(a[1..], key, k) + Where(b, key, k));
        (head + Where(a[1..], key, k)) + Where(b, key, k);
      }
    }
  }

  lemma {:induction false} WhereEmpty<T, K>(s: seq<T>, key: T -> K, k: K)
    requires forall x :: x in s ==> key(x) != k
    ensures Where(s, key, k) == []
  {
    if s != [] { WhereEmpty(s[1..], key, k); }
  }

  lemma {:induction false} WhereAll<T, K>(s: seq<T>, key: T -> K, k: K)
    requires forall x :: x in s ==> key(x) == k
    ensures Where(s, key, k) == s
  {
    if s != [] { WhereAll(s[1..], key, k); }
  }

  lemma {:induction false} WhereMember<T, K>(s: seq<T>, key: T -> K, k: K, x: T)
    requires x in s && key(x) == k
    ensures x in Where(s, key, k)
  {
    if s[0] != x { WhereMember(s[1..], key, k, x); }
  }

  /** The distinct keys of the rows: the index of a group-by. */
  function KeySet<T, K(==,!new)>(s: seq<T>, key: T -> K): (ks: set<K>)
    ensures forall k :: k in ks ==> Where(s, key, k) != []
  {
    if s == [] then {} else {key(s[0])} + KeySet(s[1..], key)
  }

  /** A key is in the index exactly when its group is non-empty. */
  lemma {:induction false} KeySetWhere<T, K(!new)>(s: seq<T>, key: T -> K, k: K)
    ensures k in KeySet(s, key) <==> Where(s, key, k) != []
  {
    if s != [] {
      KeySetWhere(s[1..], key, k);
    }
  }

  lemma KeySetMembers<T, K(!new)>(s: seq<T>, key: T -> K, k: K)
    ensures k in KeySet(s, key) <==> exists x :: x in s && key(x) == k
  {
    KeySetWhere(s, key, k);
    if k in KeySet(s, key) {
      var x := Where(s, key, k)[0];
      assert x in Where(s, key, k);
    }
    if exists x :: x in s && key(x) == k {
      var x :| x in s && key(x) == k;
      WhereMember(s, key, k, x);
    }
  }

  lemma {:induction false} KeySetConcat<T, K(!new)>(a: seq<T>, b: seq<T>, key: T -> K)
    ensures KeySet(a + b, key) == KeySet(a, key) + KeySet(b, key)
  {
    if a == [] {
      assert a + b == b;
    } else {
      assert (a + b)[1..] == a[1..] + b;
      KeySetConcat(a[1..], b, key);
    }
  }

  lemma WhereSingleton<T, K>(x: T, key: T -> K, k: K)
    ensures Where([x], key, k) == if key(x) == k then [x] else []
  {
    assert [x][1..] == [];
  }

  lemma SingletonGroup<T, K(!new)>(x: T, key: T -> K, k: K)
    ensures KeySet([x], key) == {key(x)}
    ensures Where([x], key, k) == if key(x) == k then [x] else []
  {
    assert [x][1..] == [];
  }

  predicate NoDup<K(==)>(s: seq<K>) {
    forall i, j :: 0 <= i < j < |s| ==> s[i] != s[j]
  }

  lemma {:induction false} NoDupCardinality<K>(s: seq<K>)
    requires NoDup(s)
    ensures |set k | k in s| == |s|
  {
    if s != [] {
      NoDupCardinality(s[1..]);
      assert (set k | k in s) == {s[0]} + (set k | k in s[1..]);
      assert s[0] !in s[1..];
    }
  }

  /** Each element once, in order of last appearance. */
  function Distinct<K(==,!new)>(s: seq<K>): (d: seq<K>)
    ensures NoDup(d)
    ensures forall k :: k in d <==> k in s
  {
    if s == [] then []
    else
      var rest := Distinct(s[1..]);
      if s[0] in rest then rest else [s[0]] + rest
  }

  /** The distinct keys of the rows as a list: the order a group-by's rows come out in. */
  function KeyList<T, K(==,!new)>(s: seq<T>, key: T -> K): (d: seq<K>)
    ensures NoDup(d)
    ensures forall k :: k in d <==> k in KeySet(s, key)
  {
    if s == [] then []
    else
      var rest := KeyList(s[1..], key);
      if key(s[0]) in rest then rest else [key(s[0])] + rest
  }

  lemma MapsEqual<K, V>(a: map<K, V>, b: map<K, V>)
    requires a.Keys == b.Keys
    requires forall k :: k in a ==> a[k] == b[k]
    ensures a == b
  {
  }

  /** Lookup with default 0 (`dict.get(k, 0)`, `fill_value=0`). */
  function MapGet<K>(m: map<K, int>, k: K): int {
    if k in m then m[k] else 0
  }

  /** `groupby(key)[w].sum()` as a map from key to total. */
  function GroupSum<T, K(==,!new)>(s: seq<T>, key: T -> K, w: T -> int): map<K, int> {
    map k | k in KeySet(s, key) :: SumOf(Where(s, key, k), w)
  }

  /** `a.add(b, fill_value=0)`: keys of both, a missing side counts as 0. */
  function AddFill<K>(a: map<K, int>, b: map<K, int>): map<K, int> {
    map k | k in a.Keys + b.Keys :: MapGet(a, k) + MapGet(b, k)
  }

  lemma AddFillGet<K>(a: map<K, int>, b: map<K, int>, k: K)
    ensures MapGet(AddFill(a, b), k) == MapGet(a, k) + MapGet(b, k)
  {
  }

  /** The sum of all values of a map, in no particular order. */
  ghost function MapTotal<K>(m: map<K, int>): int
    decreases |m|
  {
    if m == map[] then 0
    else
      var k :| k in m;
      m[k] + MapTotal(m - {k})
  }

  lemma {:induction false} MapTotalRemove<K>(m: map<K, int>, k: K)
    requires k in m
    ensures MapTotal(m) == m[k] + MapTotal(m - {k})
    decreases |m|
  {
    var j :| j in m && MapTotal(m) == m[j] + MapTotal(m - {j});
    if j != k {
      var mj, mk := m - {j}, m - {k};
      assert mk - {j} == mj - {k};
      MapTotalRemove(mj, k);
      MapTotalRemove(mk, j);
    }
  }

  /** Adding one row in front adds its weight to its own key's total. */
  lemma GroupSumConsAt<T, K(!new)>(x: T, rest: seq<T>, key: T -> K, w: T -> int, k: K)
    ensures MapGet(GroupSum([x] + rest, key, w), k) == MapGet(GroupSum(rest, key, w), k) + (if key(x) == k then w(x) else 0)
  {
    var s := [x] + rest;
    assert s[0] == x && s[1..] == rest;
    var head := if key(x) == k then [x] else [];
    assert Where(s, key, k) == head + Where(rest, key, k);
    SumOfConcat(head, Where(rest, key, k), w);
    KeySetWhere(s, key, k);
    KeySetWhere(rest, key, k);
  }

  /** Adding one row in front changes its group's total only. */
  lemma GroupSumCons<T, K(!new)>(x: T, rest: seq<T>, key: T -> K, w: T -> int)
    ensures GroupSum([x] + rest, key, w) == GroupSum(rest, key, w)[key(x) := MapGet(GroupSum(rest, key, w), key(x)) + w(x)]
  {
    var g, g' := GroupSum([x] + rest, key, w), GroupSum(rest, key, w);
    var u := g'[key(x) := MapGet(g', key(x)) + w(x)];
    KeySetConcat([x], rest, key);
    SingletonGroup(x, key, key(x));
    assert g.Keys == u.Keys;
    forall k | k in g ensures g[k] == u[k] {
      GroupSumConsAt(x, rest, key, w, k);
    }
    MapsEqual(g, u);
  }

  lemma TotalOfUpdated<K>(g: map<K, int>, g': map<K, int>, k: K, d: int)
    requires g == g'[k := MapGet(g', k) + d]
    ensures MapTotal(g) == MapTotal(g') + d
  {
    MapTotalRemove(g, k);
    assert g - {k} == g' - {k};
    if k in g' {
      MapTotalRemove(g', k);
    } else {
      assert g' - {k} == g';
    }
  }

  /** Grouping and then summing the groups gives the plain column total. */
  lemma {:induction false} GroupSumTotal<T, K(!new)>(s: seq<T>, key: T -> K, w: T -> int)
    ensures MapTotal(GroupSum(s, key, w)) == SumOf(s, w)
  {
    if s == [] {
      assert GroupSum(s, key, w) == map[];
    } else {
      assert s == [s[0]] + s[1..];
      GroupSumCons(s[0], s[1..], key, w);
      TotalOfUpdated(GroupSum(s, key, w), GroupSum(s[1..], key, w), key(s[0]), w(s[0]));
      GroupSumTotal(s[1..], key, w);
    }
  }

  lemma AddFillStep<K>(a: map<K, int>, b: map<K, int>, k: K)
    requires k in b
    ensures AddFill(a, b) == AddFill(a, b - {k})[k := MapGet(a, k) + b[k]]
    ensures MapGet(AddFill(a, b - {k}), k) == MapGet(a, k)
  {
  }

  /** Adding two series with `fill_value=0` adds their totals. */
  lemma {:induction false} AddFillTotal<K>(a: map<K, int>, b: map<K, int>)
    ensures MapTotal(AddFill(a, b)) == MapTotal(a) + MapTotal(b)
    decreases |b|
  {
    if b == map[] {
      assert AddFill(a, b) == a;
    } else {
      var k :| k in b;
      var b' := b - {k};
      var s, s' := AddFill(a, b), AddFill(a, b');
      AddFillStep(a, b, k);
      TotalOfUpdated(s, s', k, b[k]);
      MapTotalRemove(b, k);
      assert |b'| < |b|;
      AddFillTotal(a, b');
    }
  }

  /** A map widened to more keys, the new ones holding 0 (a pivot's `fill_value=0`). */
  function Pad<K>(m: map<K, int>, extra: set<K>): map<K, int> {
    map k | k in m.Keys + extra :: MapGet(m, k)
  }

  lemma PadStep<K>(m: map<K, int>, extra: set<K>, k: K)
    requires k in extra
    ensures MapTotal(Pad(m, extra)) == MapTotal(Pad(m, extra - {k}))
  {
    var p, p' := Pad(m, extra), Pad(m, extra - {k});
    assert MapGet(p', k) == MapGet(m, k);
    assert p == p'[k := MapGet(p', k) + 0];
    TotalOfUpdated(p, p', k, 0);
  }

  /** Padding with zero entries leaves the total unchanged. */
  lemma {:induction false} PadTotal<K>(m: map<K, int>, extra: set<K>)
    ensures MapTotal(Pad(m, extra)) == MapTotal(m)
    decreases |extra|
  {
    if extra == {} {
      assert Pad(m, extra) == m;
    } else {
      var k :| k in extra;
      PadStep(m, extra, k);
      PadTotal(m, extra - {k});
    }
  }

  /** Sum of the map's values at the listed keys. */
  function ListTotal<K>(m: map<K, int>, d: seq<K>): int {
    if d == [] then 0 else MapGet(m, d[0]) + ListTotal(m, d[1..])
  }

  lemma {:induction false} ListTotalRemove<K>(m: map<K, int>, k: K, d: seq<K>)
    requires k !in d
    ensures ListTotal(m - {k}, d) == ListTotal(m, d)
  {
    if d != [] { ListTotalRemove(m, k, d[1..]); }
  }

  /** Listing each key once sums the whole map. */
  lemma {:induction false} ListTotalIsMapTotal<K>(m: map<K, int>, d: seq<K>)
    requires NoDup(d)
    requires forall k :: k in d <==> k in m
    ensures ListTotal(m, d) == MapTotal(m)
  {
    if d == [] {
      assert m == map[];
    } else {
      var k := d[0];
      assert k !in d[1..];
      MapTotalRemove(m, k);
      ListTotalRemove(m, k, d[1..]);
      ListTotalIsMapTotal(m - {k}, d[1..]);
    }
  }

  lemma {:induction false} ListTotalAgree<K>(m1: map<K, int>, m2: map<K, int>, d: seq<K>)
    requires forall k :: k in d ==> MapGet(m1, k) == MapGet(m2, k)
    ensures ListTotal(m1, d) == ListTotal(m2, d)
  {
    if d != [] {
      assert d[0] in d;
      ListTotalAgree(m1, m2, d[1..]);
    }
  }

  /** Selecting from a list without repetitions gives a list without repetitions. */
  lemma {:induction false} WhereNoDup<T, K>(s: seq<T>, key: T -> K, k: K)
    requires NoDup(s)
    ensures NoDup(Where(s, key, k))
  {
    if s != [] {
      assert NoDup(s[1..]) by {
        forall i, j | 0 <= i < j < |s[1..]| ensures s[1..][i] != s[1..][j] {
          assert s[1..][i] == s[i + 1] && s[1..][j] == s[j + 1];
        }
      }
      WhereNoDup(s[1..], key, k);
      WhereSound(s[1..], key, k);
      var rest := Where(s[1..], key, k);
      if key(s[0]) == k {
        assert s[0] !in s[1..];
        assert s[0] !in rest;
        forall i, j | 0 <= i < j < |[s[0]] + rest| ensures ([s[0]] + rest)[i] != ([s[0]] + rest)[j] {
          if i > 0 {
            assert ([s[0]] + rest)[i] == rest[i - 1];
          }
          assert ([s[0]] + rest)[j] == rest[j - 1];
        }
      }
    }
  }

  /**
   * Filtering on a coarse key and then on a finer key that determines it is filtering on the
   * finer key alone.
   */
  lemma {:induction false} WhereWhere<T, F, C>(s: seq<T>, fine: T -> F, coarse: T -> C, proj: F -> C, k: F)
    requires forall x :: coarse(x) == proj(fine(x))
    ensures Where(Where(s, coarse, proj(k)), fine, k) == Where(s, fine, k)
  {
    if s != [] {
      WhereWhere(s[1..], fine, coarse, proj, k);
      var head := if coarse(s[0]) == proj(k) then [s[0]] else [];
      WhereConcat(head, Where(s[1..], coarse, proj(k)), fine, k);
      if coarse(s[0]) == proj(k) {
        WhereSingleton(s[0], fine, k);
      }
    }
  }

  /** Ordered by `w`, largest first. */
  predicate IsDesc<T>(s: seq<T>, w: T -> int) {
    forall i, j :: 0 <= i < j < |s| ==> w(s[i]) >= w(s[j])
  }

  function InsertDesc<T(==)>(x: T, t: seq<T>, w: T -> int): (r: seq<T>)
    requires IsDesc(t, w)
    ensures IsDesc(r, w)
    ensures multiset(r) == multiset(t) + multiset{x}
    ensures |r| == |t| + 1
  {
    if t == [] || w(x) >= w(t[0]) then
      assert forall j :: 0 <= j < |t| ==> w(x) >= w(t[j]) by {
        if t != [] {
          assert forall j :: 0 < j < |t| ==> w(t[0]) >= w(t[j]);
        }
      }
      ConsDesc(x, t, w);
      [x] + t
    else
      var r' := InsertDesc(x, t[1..], w);
      assert t == [t[0]] + t[1..];
      assert forall j :: 0 <= j < |t[1..]| ==> w(t[0]) >= w(t[1..][j]) by {
        forall j | 0 <= j < |t[1..]| ensures w(t[0]) >= w(t[1..][j]) {
          assert t[1..][j] == t[j + 1];
        }
      }
      BoundPermutation(t[0], x, t[1..], r', w);
      ConsDesc(t[0], r', w);
      [t[0]] + r'
  }

  /** A bound on the weights of `t` and of `x` bounds every rearrangement of `t` with `x`. */
  lemma BoundPermutation<T>(y: T, x: T, t: seq<T>, r: seq<T>, w: T -> int)
    requires multiset(r) == multiset(t) + multiset{x}
    requires w(y) >= w(x)
    requires forall j :: 0 <= j < |t| ==> w(y) >= w(t[j])
    ensures forall j :: 0 <= j < |r| ==> w(y) >= w(r[j])
  {
    forall j | 0 <= j < |r| ensures w(y) >= w(r[j]) {
      assert r[j] in multiset(r);
      if r[j] != x {
        assert r[j] in multiset(t);
        var i :| 0 <= i < |t| && t[i] == r[j];
      }
    }
  }

  lemma ConsDesc<T>(x: T, t: seq<T>, w: T -> int)
    requires IsDesc(t, w)
    requires forall j :: 0 <= j < |t| ==> w(x) >= w(t[j])
    ensures IsDesc([x] + t, w)
  {
    var r := [x] + t;
    forall i, j | 0 <= i < j < |r| ensures w(r[i]) >= w(r[j]) {
      if i > 0 { assert r[i] == t[i - 1] && r[j] == t[j - 1]; } else { assert r[j] == t[j - 1]; }
    }
  }

  lemma {:induction false} InsertDescSum<T>(x: T, t: seq<T>, w: T -> int, v: T -> int)
    requires IsDesc(t, w)
    ensures SumOf(InsertDesc(x, t, w), v) == v(x) + SumOf(t, v)
  {
    if !(t == [] || w(x) >= w(t[0])) {
      InsertDescSum(x, t[1..], w, v);
    }
  }

  /** `sort_values(w, ascending=False)`: a permutation of the rows, largest `w` first. */
  function SortDesc<T(==)>(s: seq<T>, w: T -> int): (r: seq<T>)
    ensures IsDesc(r, w)
    ensures multiset(r) == multiset(s)
    ensures |r| == |s|
  {
    if s == [] then []
    else
      assert s == [s[0]] + s[1..];
      InsertDesc(s[0], SortDesc(s[1..], w), w)
  }

  /** Sorting moves rows, so every column keeps its total. */
  lemma {:induction false} SortDescSum<T>(s: seq<T>, w: T -> int, v: T -> int)
    ensures SumOf(SortDesc(s, w), v) == SumOf(s, v)
  {
    if s != [] {
      InsertDescSum(s[0], SortDesc(s[1..], w), w, v);
      SortDescSum(s[1..], w, v);
    }
  }

  /** Number of rows `head(n)` keeps: the first n, or all but the last -n when n < 0. */
  function HeadLength(len: nat, n: int): (k: nat)
    ensures k <= len
  {
    if n >= 0 then (if n < len then n else len)
    else if len + n > 0 then len + n else 0
  }

  /** pandas `head(n)`: the first `n` rows, or for `n < 0` every row but the last `-n`. */
  function Head<T>(s: seq<T>, n: int): (r: seq<T>)
    ensures r <= s
    ensures n >= 0 ==> |r| == Min(n, |s|)
    ensures n < 0 ==> |r| == Max(0, |s| + n)
  {
    s[..HeadLength(|s|, n)]
  }
}

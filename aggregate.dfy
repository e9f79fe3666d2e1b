/**
 * The aggregation every analytic is written with: `groupby(key).agg(bytes=(col, "sum"),
 * packets=(col, "count"))`, followed by `sort_values("bytes", ascending=False)`, `head(n)`
 * or `groupby(g).head(n)`. An aggregated row is a `Tally`: a group key with its byte sum and
 * its row count.
 */
module Aggregate {
  import opened Frames

  datatype Tally<K> = Tally(key: K, bytes: int, packets: int)

  function TallyBytes<K>(t: Tally<K>): int { t.bytes }

  function TallyPackets<K>(t: Tally<K>): int { t.packets }

  /** The key column of a sequence of tallies. */
  function Keys<K>(r: seq<Tally<K>>): (ks: seq<K>)
    ensures |ks| == |r|
    ensures forall i :: 0 <= i < |r| ==> ks[i] == r[i].key
  {
    if r == [] then [] else [r[0].key] + Keys(r[1..])
  }

  /** One row per listed key, read from the two grouped columns. */
  function Tallies<K>(keys: seq<K>, bytes: map<K, int>, packets: map<K, int>): (r: seq<Tally<K>>)
    ensures |r| == |keys|
    ensures forall i :: 0 <= i < |keys| ==>
      r[i] == Tally(keys[i], MapGet(bytes, keys[i]), MapGet(packets, keys[i]))
  {
    if keys == [] then []
    else [Tally(keys[0], MapGet(bytes, keys[0]), MapGet(packets, keys[0]))] + Tallies(keys[1..], bytes, packets)
  }

  lemma {:induction false} TalliesSum<K>(keys: seq<K>, bytes: map<K, int>, packets: map<K, int>)
    ensures SumOf(Tallies(keys, bytes, packets), TallyBytes) == ListTotal(bytes, keys)
    ensures SumOf(Tallies(keys, bytes, packets), TallyPackets) == ListTotal(packets, keys)
  {
    if keys != [] {
      TalliesSum(keys[1..], bytes, packets);
    }
  }

  /** Every row is the one its key determines. */
  ghost predicate KeyedBy<K>(r: seq<Tally<K>>, bytes: map<K, int>, packets: map<K, int>) {
    forall t :: t in r ==> t == Tally(t.key, MapGet(bytes, t.key), MapGet(packets, t.key))
  }

  /** Rows determined by their keys and pairwise distinct have distinct keys. */
  lemma DistinctKeys<K>(r: seq<Tally<K>>, bytes: map<K, int>, packets: map<K, int>)
    requires KeyedBy(r, bytes, packets) && NoDup(r)
    ensures NoDup(Keys(r))
  {
    forall i, j | 0 <= i < j < |r| ensures r[i].key != r[j].key {
      assert r[i] in r && r[j] in r;
    }
  }

  lemma {:induction false} NoDupCount<T>(s: seq<T>, x: T)
    requires NoDup(s)
    ensures multiset(s)[x] <= 1
  {
    if s != [] {
      assert s == [s[0]] + s[1..];
      assert s[0] !in s[1..];
      NoDupCount(s[1..], x);
    }
  }

  /** A permutation of a list without repetitions has none either. */
  lemma NoDupPermutation<T>(a: seq<T>, b: seq<T>)
    requires NoDup(a) && multiset(a) == multiset(b)
    ensures NoDup(b)
  {
    if !NoDup(b) {
      var i, j :| 0 <= i < j < |b| && b[i] == b[j];
      var x := b[i];
      assert b == b[..j] + b[j..];
      assert x in b[..j] && x in b[j..];
      assert multiset(b)[x] == multiset(b[..j])[x] + multiset(b[j..])[x];
      NoDupCount(a, x);
    }
  }

  lemma KeyedByPermutation<K>(a: seq<Tally<K>>, b: seq<Tally<K>>, bytes: map<K, int>, packets: map<K, int>)
    requires KeyedBy(a, bytes, packets) && multiset(a) == multiset(b)
    ensures KeyedBy(b, bytes, packets)
  {
    forall t | t in b ensures t == Tally(t.key, MapGet(bytes, t.key), MapGet(packets, t.key)) {
      assert t in multiset(b);
    }
  }

  // ---------------------------------------------------------------- group-by + agg

  /** `groupby(key).agg(bytes=(w, "sum"), packets=(w, "count"))`, one row per group key. */
  function Agg<T, K(==,!new)>(s: seq<T>, key: T -> K, w: T -> int): seq<Tally<K>> {
    Tallies(KeyList(s, key), GroupSum(s, key, w), GroupSum(s, key, One))
  }

  /** The grouped sum at any key is the sum over that key's group (0 when it is empty). */
  lemma GroupSumGet<T, K(!new)>(s: seq<T>, key: T -> K, w: T -> int, k: K)
    ensures MapGet(GroupSum(s, key, w), k) == SumOf(Where(s, key, k), w)
  {
    KeySetWhere(s, key, k);
  }

  lemma GroupCount<T, K(!new)>(s: seq<T>, key: T -> K, k: K)
    ensures MapGet(GroupSum(s, key, One), k) == |Where(s, key, k)|
  {
    GroupSumGet(s, key, One, k);
    SumOfOne(Where(s, key, k));
  }

  /** The aggregated keys are exactly the keys that occur in the input. */
  lemma AggHasKeys<T, K(!new)>(s: seq<T>, key: T -> K, w: T -> int)
    ensures forall k :: k in Keys(Agg(s, key, w)) <==> exists x :: x in s && key(x) == k
  {
    assert Keys(Agg(s, key, w)) == KeyList(s, key);
    forall k ensures k in KeyList(s, key) <==> exists x :: x in s && key(x) == k {
      KeySetMembers(s, key, k);
    }
  }

  /** Each aggregated row carries the byte sum and the row count of exactly its key's group. */
  lemma AggValues<T, K(!new)>(s: seq<T>, key: T -> K, w: T -> int)
    ensures forall t :: t in Agg(s, key, w) ==>
      && t.bytes == SumOf(Where(s, key, t.key), w)
      && t.packets == |Where(s, key, t.key)| > 0
  {
    var r, ks := Agg(s, key, w), KeyList(s, key);
    forall t | t in r
      ensures t.bytes == SumOf(Where(s, key, t.key), w)
      ensures t.packets == |Where(s, key, t.key)| > 0
    {
      GroupSumGet(s, key, w, t.key);
      GroupCount(s, key, t.key);
      var i :| 0 <= i < |r| && r[i] == t;
      assert t.key == ks[i];
      KeySetWhere(s, key, t.key);
    }
  }

  /**
   * The aggregated rows: one per distinct key, in no repeated key, each carrying the byte
   * sum and the row count of exactly that key's group.
   */
  lemma AggRows<T, K(!new)>(s: seq<T>, key: T -> K, w: T -> int)
    ensures Keys(Agg(s, key, w)) == KeyList(s, key)
    ensures NoDup(Agg(s, key, w)) && NoDup(Keys(Agg(s, key, w)))
    ensures KeyedBy(Agg(s, key, w), GroupSum(s, key, w), GroupSum(s, key, One))
    ensures forall k :: k in Keys(Agg(s, key, w)) <==> exists x :: x in s && key(x) == k
    ensures forall t :: t in Agg(s, key, w) ==>
      && t.bytes == SumOf(Where(s, key, t.key), w)
      && t.packets == |Where(s, key, t.key)| > 0
  {
    var r, ks := Agg(s, key, w), KeyList(s, key);
    assert Keys(r) == ks;
    forall i, j | 0 <= i < j < |r| ensures r[i] != r[j] {
      assert r[i].key == ks[i] && r[j].key == ks[j];
    }
    AggHasKeys(s, key, w);
    AggValues(s, key, w);
  }

  /** A key is in the key column exactly when some tally carries it. */
  lemma KeysMember<K>(r: seq<Tally<K>>, k: K)
    ensures k in Keys(r) <==> exists t :: t in r && t.key == k
  {
    if k in Keys(r) {
      var i :| 0 <= i < |r| && Keys(r)[i] == k;
      assert r[i] in r;
    }
    if exists t :: t in r && t.key == k {
      var t :| t in r && t.key == k;
      var i :| 0 <= i < |r| && r[i] == t;
      assert Keys(r)[i] == k;
    }
  }

  /** A key has an aggregated row exactly when some input row has that key. */
  lemma AggKeys<T, K(!new)>(s: seq<T>, key: T -> K, w: T -> int, k: K)
    ensures (exists t :: t in Agg(s, key, w) && t.key == k) <==> exists x :: x in s && key(x) == k
  {
    KeysMember(Agg(s, key, w), k);
    AggHasKeys(s, key, w);
  }

  /** Aggregation conserves the column sum and the row count. */
  lemma AggTotals<T, K(!new)>(s: seq<T>, key: T -> K, w: T -> int)
    ensures SumOf(Agg(s, key, w), TallyBytes) == SumOf(s, w)
    ensures SumOf(Agg(s, key, w), TallyPackets) == |s|
  {
    var ks := KeyList(s, key);
    TalliesSum(ks, GroupSum(s, key, w), GroupSum(s, key, One));
    ListTotalIsMapTotal(GroupSum(s, key, w), ks);
    ListTotalIsMapTotal(GroupSum(s, key, One), ks);
    GroupSumTotal(s, key, w);
    GroupSumTotal(s, key, One);
    SumOfOne(s);
  }

  /** Selecting tallies by a function of their key is selecting their keys. */
  lemma {:induction false} WhereTallies<K, C>(keys: seq<K>, bytes: map<K, int>, packets: map<K, int>, tc: Tally<K> -> C, proj: K -> C, c: C)
    requires forall t :: tc(t) == proj(t.key)
    ensures Where(Tallies(keys, bytes, packets), tc, c) == Tallies(Where(keys, proj, c), bytes, packets)
  {
    if keys != [] {
      WhereTallies(keys[1..], bytes, packets, tc, proj, c);
      var t := Tally(keys[0], MapGet(bytes, keys[0]), MapGet(packets, keys[0]));
      assert Tallies(keys, bytes, packets) == [t] + Tallies(keys[1..], bytes, packets);
      assert Tallies(keys, bytes, packets)[1..] == Tallies(keys[1..], bytes, packets);
    }
  }

  /** A coarse group holds no row of a finer key that projects elsewhere. */
  lemma {:induction false} WhereDisjoint<T, F, C>(s: seq<T>, fine: T -> F, coarse: T -> C, proj: F -> C, c: C, k: F)
    requires forall x :: coarse(x) == proj(fine(x))
    requires proj(k) != c
    ensures Where(Where(s, coarse, c), fine, k) == []
  {
    if s != [] {
      WhereDisjoint(s[1..], fine, coarse, proj, c, k);
      var head := if coarse(s[0]) == c then [s[0]] else [];
      WhereConcat(head, Where(s[1..], coarse, c), fine, k);
      if coarse(s[0]) == c {
        WhereSingleton(s[0], fine, k);
      }
    }
  }

  /** A fine key lies in a coarse group's keys exactly when it projects onto that group. */
  lemma RefineKeys<T, F(!new), C>(s: seq<T>, fine: T -> F, coarse: T -> C, proj: F -> C, c: C, k: F)
    requires forall x :: coarse(x) == proj(fine(x))
    ensures k in Where(KeyList(s, fine), proj, c) <==> k in KeySet(Where(s, coarse, c), fine)
  {
    var sub := Where(s, coarse, c);
    WhereSound(KeyList(s, fine), proj, c);
    KeySetWhere(sub, fine, k);
    KeySetWhere(s, fine, k);
    if proj(k) == c {
      WhereWhere(s, fine, coarse, proj, k);
      if k in KeyList(s, fine) {
        WhereMember(KeyList(s, fine), proj, c, k);
      }
    } else {
      WhereDisjoint(s, fine, coarse, proj, c, k);
    }
  }

  /**
   * Grouping on a fine key and then adding up the tallies of one coarse group gives that
   * coarse group's column sum and row count.
   */
  lemma RefineAgg<T, F(!new), C(!new)>(s: seq<T>, fine: T -> F, coarse: T -> C, proj: F -> C, tc: Tally<F> -> C, w: T -> int, c: C)
    requires forall x :: coarse(x) == proj(fine(x))
    requires forall t :: tc(t) == proj(t.key)
    ensures SumOf(Where(Agg(s, fine, w), tc, c), TallyBytes) == SumOf(Where(s, coarse, c), w)
    ensures SumOf(Where(Agg(s, fine, w), tc, c), TallyPackets) == |Where(s, coarse, c)|
  {
    var ks := KeyList(s, fine);
    var g, p := GroupSum(s, fine, w), GroupSum(s, fine, One);
    var d := Where(ks, proj, c);
    var sub := Where(s, coarse, c);
    var g', p' := GroupSum(sub, fine, w), GroupSum(sub, fine, One);
    WhereTallies(ks, g, p, tc, proj, c);
    TalliesSum(d, g, p);
    WhereSound(ks, proj, c);
    forall k | k in d ensures MapGet(g, k) == MapGet(g', k) && MapGet(p, k) == MapGet(p', k) {
      GroupSumGet(s, fine, w, k);
      GroupSumGet(sub, fine, w, k);
      GroupSumGet(s, fine, One, k);
      GroupSumGet(sub, fine, One, k);
      WhereWhere(s, fine, coarse, proj, k);
    }
    ListTotalAgree(g, g', d);
    ListTotalAgree(p, p', d);
    WhereNoDup(ks, proj, c);
    forall k ensures k in d <==> k in KeySet(sub, fine) {
      RefineKeys(s, fine, coarse, proj, c, k);
    }
    ListTotalIsMapTotal(g', d);
    ListTotalIsMapTotal(p', d);
    GroupSumTotal(sub, fine, w);
    GroupSumTotal(sub, fine, One);
    SumOfOne(sub);
  }

  lemma MembersPermutation<K>(a: seq<Tally<K>>, b: seq<Tally<K>>)
    requires multiset(a) == multiset(b)
    ensures forall t :: t in b <==> t in a
  {
    forall t ensures t in b <==> t in a {
      assert t in b <==> t in multiset(b);
      assert t in a <==> t in multiset(a);
    }
  }

  lemma KeysPermutation<K>(a: seq<Tally<K>>, b: seq<Tally<K>>)
    requires multiset(a) == multiset(b)
    ensures forall k :: k in Keys(b) <==> k in Keys(a)
  {
    MembersPermutation(a, b);
    forall k ensures k in Keys(b) ==> k in Keys(a) {
      if k in Keys(b) {
        var i :| 0 <= i < |b| && Keys(b)[i] == k;
        assert b[i] in a;
        var j :| 0 <= j < |a| && a[j] == b[i];
        assert Keys(a)[j] == k;
      }
    }
    forall k ensures k in Keys(a) ==> k in Keys(b) {
      if k in Keys(a) {
        var j :| 0 <= j < |a| && Keys(a)[j] == k;
        assert a[j] in b;
        var i :| 0 <= i < |b| && b[i] == a[j];
        assert Keys(b)[i] == k;
      }
    }
  }

  /** `agg(...).sort_values("bytes", ascending=False)`: the aggregated rows, largest first. */
  function SortedAgg<T, K(==,!new)>(s: seq<T>, key: T -> K, w: T -> int): seq<Tally<K>> {
    SortDesc(Agg(s, key, w), TallyBytes)
  }

  lemma SortedAggDistinct<T, K(!new)>(s: seq<T>, key: T -> K, w: T -> int)
    ensures IsDesc(SortedAgg(s, key, w), TallyBytes) && NoDup(Keys(SortedAgg(s, key, w)))
  {
    var a, r := Agg(s, key, w), SortedAgg(s, key, w);
    AggRows(s, key, w);
    NoDupPermutation(a, r);
    KeyedByPermutation(a, r, GroupSum(s, key, w), GroupSum(s, key, One));
    DistinctKeys(r, GroupSum(s, key, w), GroupSum(s, key, One));
  }

  lemma SortedAggKeys<T, K(!new)>(s: seq<T>, key: T -> K, w: T -> int)
    ensures forall k :: k in Keys(SortedAgg(s, key, w)) <==> exists x :: x in s && key(x) == k
  {
    AggHasKeys(s, key, w);
    KeysPermutation(Agg(s, key, w), SortedAgg(s, key, w));
  }

  lemma SortedAggValues<T, K(!new)>(s: seq<T>, key: T -> K, w: T -> int)
    ensures forall t :: t in SortedAgg(s, key, w) ==>
      t.bytes == SumOf(Where(s, key, t.key), w) && t.packets == |Where(s, key, t.key)| > 0
  {
    AggValues(s, key, w);
    MembersPermutation(Agg(s, key, w), SortedAgg(s, key, w));
  }

  /** The sorted aggregate still has one row per group key, each that group's sum and count. */
  lemma SortedAggRows<T, K(!new)>(s: seq<T>, key: T -> K, w: T -> int)
    ensures var r := SortedAgg(s, key, w);
      && IsDesc(r, TallyBytes) && NoDup(Keys(r))
      && (forall k :: k in Keys(r) <==> exists x :: x in s && key(x) == k)
      && (forall t :: t in r ==>
            t.bytes == SumOf(Where(s, key, t.key), w) && t.packets == |Where(s, key, t.key)| > 0)
  {
    SortedAggDistinct(s, key, w);
    SortedAggKeys(s, key, w);
    SortedAggValues(s, key, w);
  }

  /** Sorting the aggregate conserves the column sum and the row count. */
  lemma SortedAggTotals<T, K(!new)>(s: seq<T>, key: T -> K, w: T -> int)
    ensures SumOf(SortedAgg(s, key, w), TallyBytes) == SumOf(s, w)
    ensures SumOf(SortedAgg(s, key, w), TallyPackets) == |s|
  {
    AggTotals(s, key, w);
    SortDescSum(Agg(s, key, w), TallyBytes, TallyBytes);
    SortDescSum(Agg(s, key, w), TallyBytes, TallyPackets);
  }

  // ---------------------------------------------------------------- head

  /** What `head(n)` keeps of a list sorted by `w` outranks what it drops. */
  lemma HeadDominates<T>(s: seq<T>, w: T -> int, n: int)
    requires IsDesc(s, w)
    ensures forall x, y :: x in Head(s, n) && y in s && y !in Head(s, n) ==> w(x) >= w(y)
  {
    var k := HeadLength(|s|, n);
    forall x, y | x in Head(s, n) && y in s && y !in Head(s, n) ensures w(x) >= w(y) {
      var i :| 0 <= i < k && s[i] == x;
      var j :| 0 <= j < |s| && s[j] == y;
      forall m | 0 <= m < k ensures s[m] != y {
        assert s[m] in Head(s, n);
      }
    }
  }

  lemma HeadDesc<T>(s: seq<T>, w: T -> int, n: int)
    requires IsDesc(s, w)
    ensures IsDesc(Head(s, n), w)
  {
  }

  // ---------------------------------------------------------------- groupby(g).head(n)

  /**
   * Whether `groupby(g).head(n)` keeps the row at index `j`: for `n >= 0`, fewer than `n`
   * rows of its group come before it; for `n < 0`, at least `-n` rows of its group come
   * after it.
   */
  predicate KeptAt<T, K(==)>(s: seq<T>, g: T -> K, n: int, j: int)
    requires 0 <= j < |s|
  {
    if n >= 0 then |Where(s[..j], g, g(s[j]))| < n else |Where(s[j + 1..], g, g(s[j]))| >= -n
  }

  function GroupHeadFrom<T, K(==)>(s: seq<T>, g: T -> K, n: int, j: nat): seq<T>
    requires j <= |s|
    decreases |s| - j
  {
    if j == |s| then [] else (if KeptAt(s, g, n, j) then [s[j]] else []) + GroupHeadFrom(s, g, n, j + 1)
  }

  /** pandas `groupby(g).head(n)`: the kept rows, in their original order. */
  function GroupHead<T, K(==)>(s: seq<T>, g: T -> K, n: int): seq<T> {
    GroupHeadFrom(s, g, n, 0)
  }

  lemma {:induction false} GroupHeadFromMembers<T, K>(s: seq<T>, g: T -> K, n: int, j: nat)
    requires j <= |s|
    ensures forall x :: x in GroupHeadFrom(s, g, n, j) ==> exists i :: j <= i < |s| && s[i] == x && KeptAt(s, g, n, i)
    ensures forall i :: j <= i < |s| && KeptAt(s, g, n, i) ==> s[i] in GroupHeadFrom(s, g, n, j)
    decreases |s| - j
  {
    if j < |s| {
      GroupHeadFromMembers(s, g, n, j + 1);
    }
  }

  lemma {:induction false} GroupHeadFromDesc<T, K>(s: seq<T>, g: T -> K, n: int, j: nat, w: T -> int)
    requires j <= |s| && IsDesc(s, w)
    ensures IsDesc(GroupHeadFrom(s, g, n, j), w)
    decreases |s| - j
  {
    if j < |s| {
      GroupHeadFromDesc(s, g, n, j + 1, w);
      GroupHeadFromMembers(s, g, n, j + 1);
      var rest := GroupHeadFrom(s, g, n, j + 1);
      forall x | x in rest ensures w(s[j]) >= w(x) {
        var i :| j + 1 <= i < |s| && s[i] == x && KeptAt(s, g, n, i);
      }
      if KeptAt(s, g, n, j) {
        ConsDesc(s[j], rest, w);
      }
    }
  }

  lemma WhereSplit<T, K>(s: seq<T>, g: T -> K, k: K, i: int, j: int)
    requires 0 <= i <= j <= |s|
    ensures |Where(s[..j], g, k)| == |Where(s[..i], g, k)| + |Where(s[i..j], g, k)|
    ensures |Where(s[i..], g, k)| == |Where(s[i..j], g, k)| + |Where(s[j..], g, k)|
  {
    assert s[..j] == s[..i] + s[i..j];
    assert s[i..] == s[i..j] + s[j..];
    WhereConcat(s[..i], s[i..j], g, k);
    WhereConcat(s[i..j], s[j..], g, k);
  }

  lemma CountBefore<T, K>(s: seq<T>, g: T -> K, k: K, i: int, j: int)
    requires 0 <= i < j <= |s| && g(s[i]) == k
    ensures |Where(s[..i], g, k)| < |Where(s[..j], g, k)|
  {
    var mid := s[i..j];
    WhereSplit(s, g, k, i, j);
    assert mid[0] == s[i];
    WhereMember(mid, g, k, s[i]);
    assert |Where(mid, g, k)| >= 1;
  }

  lemma CountAfter<T, K>(s: seq<T>, g: T -> K, k: K, i: int, j: int)
    requires 0 <= i < j < |s| && g(s[j]) == k
    ensures |Where(s[i + 1..], g, k)| > |Where(s[j + 1..], g, k)|
  {
    var mid := s[i + 1..j + 1];
    WhereSplit(s, g, k, i + 1, j + 1);
    assert mid[j - i - 1] == s[j];
    WhereMember(mid, g, k, s[j]);
    assert |Where(mid, g, k)| >= 1;
  }

  /** Within one group, a kept row comes before every dropped one. */
  lemma KeptMonotone<T, K>(s: seq<T>, g: T -> K, n: int, i: int, j: int)
    requires 0 <= i < j < |s| && g(s[i]) == g(s[j]) && KeptAt(s, g, n, j)
    ensures KeptAt(s, g, n, i)
  {
    if n >= 0 {
      CountBefore(s, g, g(s[i]), i, j);
    } else {
      CountAfter(s, g, g(s[i]), i, j);
    }
  }

  /**
   * On a list sorted by `w`, what `groupby(g).head(n)` keeps of a group outranks what it
   * drops of the same group.
   */
  lemma GroupHeadDominates<T, K>(s: seq<T>, g: T -> K, n: int, w: T -> int)
    requires IsDesc(s, w)
    ensures forall x, y ::
      x in GroupHead(s, g, n) && y in s && y !in GroupHead(s, g, n) && g(x) == g(y) ==> w(x) >= w(y)
  {
    GroupHeadFromMembers(s, g, n, 0);
    forall x, y | x in GroupHead(s, g, n) && y in s && y !in GroupHead(s, g, n) && g(x) == g(y)
      ensures w(x) >= w(y)
    {
      var i :| 0 <= i < |s| && s[i] == x && KeptAt(s, g, n, i);
      var j :| 0 <= j < |s| && s[j] == y;
      assert !KeptAt(s, g, n, j);
      if j < i {
        KeptMonotone(s, g, n, j, i);
      }
      assert i != j;
    }
  }

  function Hit<T, K(==)>(x: T, g: T -> K, k: K): nat { if g(x) == k then 1 else 0 }

  lemma WhereCountSnoc<T, K>(t: seq<T>, x: T, g: T -> K, k: K)
    ensures |Where(t + [x], g, k)| == |Where(t, g, k)| + Hit(x, g, k)
  {
    WhereConcat(t, [x], g, k);
    WhereSingleton(x, g, k);
  }

  lemma WhereCountCons<T, K>(x: T, t: seq<T>, g: T -> K, k: K)
    ensures |Where([x] + t, g, k)| == Hit(x, g, k) + |Where(t, g, k)|
  {
    WhereConcat([x], t, g, k);
    WhereSingleton(x, g, k);
  }

  lemma GroupHeadFromStep<T, K>(s: seq<T>, g: T -> K, n: int, j: nat, k: K)
    requires j < |s|
    ensures |Where(GroupHeadFrom(s, g, n, j), g, k)|
      == (if KeptAt(s, g, n, j) then Hit(s[j], g, k) else 0) + |Where(GroupHeadFrom(s, g, n, j + 1), g, k)|
    ensures |Where(s[..j + 1], g, k)| == |Where(s[..j], g, k)| + Hit(s[j], g, k)
    ensures |Where(s[j..], g, k)| == Hit(s[j], g, k) + |Where(s[j + 1..], g, k)|
  {
    var kept := if KeptAt(s, g, n, j) then [s[j]] else [];
    WhereConcat(kept, GroupHeadFrom(s, g, n, j + 1), g, k);
    WhereSingleton(s[j], g, k);
    assert s[..j + 1] == s[..j] + [s[j]];
    WhereCountSnoc(s[..j], s[j], g, k);
    assert s[j..] == [s[j]] + s[j + 1..];
    WhereCountCons(s[j], s[j + 1..], g, k);
  }

  lemma {:induction false} GroupHeadFromCount<T, K>(s: seq<T>, g: T -> K, n: int, j: nat, k: K)
    requires j <= |s|
    ensures n >= 0 ==>
      |Where(GroupHeadFrom(s, g, n, j), g, k)| == Min(Max(0, n - |Where(s[..j], g, k)|), |Where(s[j..], g, k)|)
    ensures n < 0 ==> |Where(GroupHeadFrom(s, g, n, j), g, k)| == Max(0, |Where(s[j..], g, k)| + n)
    decreases |s| - j
  {
    if j < |s| {
      GroupHeadFromCount(s, g, n, j + 1, k);
      GroupHeadFromStep(s, g, n, j, k);
      var before, after := |Where(s[..j], g, k)|, |Where(s[j + 1..], g, k)|;
      if g(s[j]) == k {
        if n >= 0 {
          assert KeptAt(s, g, n, j) <==> before < n;
        } else {
          assert KeptAt(s, g, n, j) <==> after >= -n;
        }
      }
    } else {
      assert s[j..] == [];
    }
  }

  /**
   * `groupby(g).head(n)` keeps `min(n, size)` rows of every group when `n >= 0`, and all but
   * the last `-n` (none if the group is smaller) when `n < 0`.
   */
  lemma GroupHeadCount<T, K>(s: seq<T>, g: T -> K, n: int, k: K)
    ensures n >= 0 ==> |Where(GroupHead(s, g, n), g, k)| == Min(n, |Where(s, g, k)|)
    ensures n < 0 ==> |Where(GroupHead(s, g, n), g, k)| == Max(0, |Where(s, g, k)| + n)
  {
    GroupHeadFromCount(s, g, n, 0, k);
    assert s[..0] == [] && s[0..] == s;
  }
}

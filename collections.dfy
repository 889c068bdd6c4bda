/**
 * Array operations the application uses on lists: `filter`, `slice`,
 * stable `sort` with a comparator, and de-duplication through a `Set`.
 */
module Collections {

  /** `s.filter(p)`. */
  function Filter<T>(s: seq<T>, p: T -> bool): (r: seq<T>)
    ensures |r| <= |s|
    ensures forall i :: 0 <= i < |r| ==> r[i] in s && p(r[i])
    ensures forall i :: 0 <= i < |s| && p(s[i]) ==> s[i] in r
    ensures multiset(r) <= multiset(s)
  {
    if |s| == 0 then []
    else
      var rest := Filter(s[..|s| - 1], p);
      assert s == s[..|s| - 1] + [s[|s| - 1]];
      if p(s[|s| - 1]) then rest + [s[|s| - 1]] else rest
  }

  /** Number of elements satisfying `p` (`s.filter(p).length`). */
  function Count<T>(s: seq<T>, p: T -> bool): (n: nat)
    ensures n <= |s|
  {
    |Filter(s, p)|
  }

  /** The index of the last element satisfying `p`, or -1. */
  function LastWhere<T>(s: seq<T>, p: T -> bool): (i: int)
    ensures -1 <= i < |s|
    ensures i >= 0 ==> p(s[i])
    ensures forall j :: i < j < |s| ==> !p(s[j])
  {
    if |s| == 0 then -1
    else if p(s[|s| - 1]) then |s| - 1
    else
      var i := LastWhere(s[..|s| - 1], p);
      assert forall j :: i < j < |s| - 1 ==> s[j] == s[..|s| - 1][j];
      i
  }

  /** The index of the first element satisfying `p`, or `|s|`. */
  function FirstWhere<T>(s: seq<T>, p: T -> bool): (i: nat)
    ensures i <= |s|
    ensures i < |s| ==> p(s[i])
    ensures forall j :: 0 <= j < i ==> !p(s[j])
  {
    if |s| == 0 || p(s[0]) then 0
    else
      var i := FirstWhere(s[1..], p);
      assert forall j :: 1 <= j < i + 1 ==> s[j] == s[1..][j - 1];
      i + 1
  }

  /** Filtering with a condition every element meets keeps the whole list. */
  lemma {:induction false} FilterAll<T>(s: seq<T>, p: T -> bool)
    requires forall i :: 0 <= i < |s| ==> p(s[i])
    ensures Filter(s, p) == s
    decreases |s|
  {
    if |s| > 0 {
      FilterAll(s[..|s| - 1], p);
      assert s == s[..|s| - 1] + [s[|s| - 1]];
    }
  }

  /** A weaker condition never counts fewer elements. */
  lemma {:induction false} CountImplies<T>(s: seq<T>, p: T -> bool, q: T -> bool)
    requires forall x :: p(x) ==> q(x)
    ensures Count(s, p) <= Count(s, q)
    decreases |s|
  {
    if |s| > 0 {
      CountImplies(s[..|s| - 1], p, q);
    }
  }

  lemma {:induction false} FilterAppend<T>(a: seq<T>, b: seq<T>, p: T -> bool)
    ensures Filter(a + b, p) == Filter(a, p) + Filter(b, p)
    decreases |b|
  {
    if |b| > 0 {
      var b', x := b[..|b| - 1], b[|b| - 1];
      assert (a + b)[..|a + b| - 1] == a + b';
      assert (a + b)[|a + b| - 1] == x;
      FilterAppend(a, b', p);
      if p(x) {
        calc {
          Filter(a + b, p);
          Filter(a + b', p) + [x];
          Filter(a, p) + Filter(b', p) + [x];
          Filter(a, p) + Filter(b, p);
        }
      }
    } else {
      assert a + b == a;
    }
  }

  /** `s.slice(0, n)`. */
  function Take<T>(s: seq<T>, n: nat): (r: seq<T>)
    ensures |r| == if |s| < n then |s| else n
    ensures r == s[..|r|]
  {
    if |s| < n then s else s[..n]
  }

  predicate NoDuplicates<T(==)>(s: seq<T>)
  {
    forall i, j :: 0 <= i < j < |s| ==> s[i] != s[j]
  }

  /** `[...new Set(s)]`: the distinct elements of `s` in order of first occurrence. */
  function Distinct<T(==)>(s: seq<T>): (r: seq<T>)
    ensures NoDuplicates(r)
    ensures forall i :: 0 <= i < |r| ==> r[i] in s
    ensures forall i :: 0 <= i < |s| ==> s[i] in r
    ensures |r| <= |s|
  {
    if |s| == 0 then []
    else
      var d := Distinct(s[..|s| - 1]);
      assert s == s[..|s| - 1] + [s[|s| - 1]];
      if s[|s| - 1] in d then d else d + [s[|s| - 1]]
  }

  /** `le` orders every pair and is transitive: a comparator `Array.prototype.sort` can rely on. */
  ghost predicate TotalPreorder<T(!new)>(le: (T, T) -> bool)
  {
    (forall a, b :: le(a, b) || le(b, a))
    && (forall a, b, c :: le(a, b) && le(b, c) ==> le(a, c))
  }

  predicate SortedBy<T>(s: seq<T>, le: (T, T) -> bool)
  {
    forall i, j :: 0 <= i < j < |s| ==> le(s[i], s[j])
  }

  /** Inserts `x` after every element of the sorted `s` that is not above it (keeps ties in order). */
  function Insert<T>(x: T, s: seq<T>, le: (T, T) -> bool): (r: seq<T>)
    ensures multiset(r) == multiset(s) + multiset{x}
    ensures |r| == |s| + 1
  {
    if |s| == 0 then [x]
    else if le(s[0], x) then
      assert s == [s[0]] + s[1..];
      [s[0]] + Insert(x, s[1..], le)
    else [x] + s
  }

  /** Stable sort: `[...s].sort(cmp)` with `le(a, b)` meaning `cmp(a, b) <= 0`. */
  function SortBy<T>(s: seq<T>, le: (T, T) -> bool): (r: seq<T>)
    ensures multiset(r) == multiset(s)
    ensures |r| == |s|
  {
    if |s| == 0 then []
    else
      assert s == s[..|s| - 1] + [s[|s| - 1]];
      Insert(s[|s| - 1], SortBy(s[..|s| - 1], le), le)
  }

  lemma {:induction false} InsertSorted<T(!new)>(x: T, s: seq<T>, le: (T, T) -> bool)
    requires TotalPreorder(le)
    requires SortedBy(s, le)
    ensures SortedBy(Insert(x, s, le), le)
    decreases |s|
  {
    if |s| > 0 && le(s[0], x) {
      InsertSorted(x, s[1..], le);
      var r := Insert(x, s, le);
      var t := Insert(x, s[1..], le);
      assert r == [s[0]] + t;
      forall j | 0 < j < |r|
        ensures le(r[0], r[j])
      {
        assert r[j] in multiset(t);
        assert r[j] in multiset(s[1..]) + multiset{x};
        if r[j] != x {
          assert r[j] in s[1..];
        }
      }
    }
  }

  /** The sorted copy is ordered by `le` whenever `le` is a total preorder. */
  lemma {:induction false} SortBySorted<T(!new)>(s: seq<T>, le: (T, T) -> bool)
    requires TotalPreorder(le)
    ensures SortedBy(SortBy(s, le), le)
    decreases |s|
  {
    if |s| > 0 {
      SortBySorted(s[..|s| - 1], le);
      InsertSorted(s[|s| - 1], SortBy(s[..|s| - 1], le), le);
    }
  }

  /** Code-point lexicographic order on strings (the model of `localeCompare` and of `<` on strings). */
  predicate LexLe(a: string, b: string)
  {
    if |a| == 0 then true
    else if |b| == 0 then false
    else if a[0] != b[0] then a[0] < b[0]
    else LexLe(a[1..], b[1..])
  }

  lemma {:induction false} LexTotal(a: string, b: string)
    ensures LexLe(a, b) || LexLe(b, a)
  {
    if |a| > 0 && |b| > 0 && a[0] == b[0] {
      LexTotal(a[1..], b[1..]);
    }
  }

  lemma {:induction false} LexTrans(a: string, b: string, c: string)
    requires LexLe(a, b) && LexLe(b, c)
    ensures LexLe(a, c)
  {
    if |a| > 0 && |b| > 0 && |c| > 0 && a[0] == b[0] && b[0] == c[0] {
      LexTrans(a[1..], b[1..], c[1..]);
    }
  }

  lemma LexPreorder()
    ensures TotalPreorder(LexLe)
  {
    forall a, b ensures LexLe(a, b) || LexLe(b, a) { LexTotal(a, b); }
    forall a, b, c | LexLe(a, b) && LexLe(b, c) ensures LexLe(a, c) { LexTrans(a, b, c); }
  }

  /** Filtering a sorted list leaves it sorted. */
  lemma {:induction false} FilterSorted<T>(s: seq<T>, p: T -> bool, le: (T, T) -> bool)
    requires SortedBy(s, le)
    ensures SortedBy(Filter(s, p), le)
    decreases |s|
  {
    if |s| > 0 {
      var prefix := s[..|s| - 1];
      assert SortedBy(prefix, le);
      FilterSorted(prefix, p, le);
      var f := Filter(prefix, p);
      if p(s[|s| - 1]) {
        var g := f + [s[|s| - 1]];
        forall i, j | 0 <= i < j < |g|
          ensures le(g[i], g[j])
        {
          if j == |f| {
            assert g[i] == f[i] && f[i] in prefix;
            var k :| 0 <= k < |prefix| && prefix[k] == f[i];
          } else {
            assert g[i] == f[i] && g[j] == f[j];
          }
        }
      }
    }
  }

  /** A first element that passes the filter stays first. */
  lemma {:induction false} FilterKeepsFirst<T>(s: seq<T>, p: T -> bool)
    requires |s| > 0 && p(s[0])
    ensures |Filter(s, p)| > 0 && Filter(s, p)[0] == s[0]
    decreases |s|
  {
    if |s| > 1 {
      FilterKeepsFirst(s[..|s| - 1], p);
    }
  }

  /** A rearrangement of a list without duplicates has none either. */
  lemma PermutationKeepsDistinct<T>(s: seq<T>, r: seq<T>)
    requires NoDuplicates(s) && multiset(r) == multiset(s)
    ensures NoDuplicates(r)
  {
    forall i, j | 0 <= i < j < |r|
      ensures r[i] != r[j]
    {
      if r[i] == r[j] {
        var x := r[i];
        assert r == r[..j] + [r[j]] + r[j + 1..];
        assert x in multiset(r[..j]);
        assert multiset(r)[x] >= 2;
        MultiplicityAtMostOne(s, x);
        assert false;
      }
    }
  }

  /** Dropping elements from a list without duplicates leaves none. */
  lemma FewerKeepsDistinct<T>(s: seq<T>, r: seq<T>)
    requires NoDuplicates(s) && multiset(r) <= multiset(s)
    ensures NoDuplicates(r)
  {
    forall i, j | 0 <= i < j < |r|
      ensures r[i] != r[j]
    {
      if r[i] == r[j] {
        var x := r[i];
        assert r == r[..j] + [r[j]] + r[j + 1..];
        assert x in multiset(r[..j]);
        assert multiset(r)[x] >= 2;
        MultiplicityAtMostOne(s, x);
        assert false;
      }
    }
  }

  /** Each element of a list is somewhere in any rearrangement of it. */
  lemma InPermutation<T>(s: seq<T>, r: seq<T>, i: int)
    requires multiset(r) == multiset(s) && 0 <= i < |s|
    ensures exists j :: 0 <= j < |r| && r[j] == s[i]
  {
    assert s[i] in multiset(r);
  }

  lemma {:induction false} MultiplicityAtMostOne<T>(s: seq<T>, x: T)
    requires NoDuplicates(s)
    ensures multiset(s)[x] <= 1
    decreases |s|
  {
    if |s| > 0 {
      var prefix := s[..|s| - 1];
      assert s == prefix + [s[|s| - 1]];
      MultiplicityAtMostOne(prefix, x);
      if s[|s| - 1] == x {
        assert x !in prefix;
      }
    }
  }

  /** `f(0), f(1), …, f(n - 1)`: what a counting loop pushes. */
  function Tabulate<T>(n: nat, f: int -> T): (r: seq<T>)
    ensures |r| == n
  {
    if n == 0 then [] else Tabulate(n - 1, f) + [f(n - 1)]
  }

  lemma {:induction false} TabulateAt<T>(n: nat, f: int -> T)
    ensures forall k :: 0 <= k < n ==> Tabulate(n, f)[k] == f(k)
  {
    if n > 0 {
      TabulateAt(n - 1, f);
    }
  }

  /** `s.map(f)`. */
  function Map<T, U>(s: seq<T>, f: T -> U): (r: seq<U>)
    ensures |r| == |s|
    ensures forall i :: 0 <= i < |s| ==> r[i] == f(s[i])
  {
    seq(|s|, i requires 0 <= i < |s| => f(s[i]))
  }

  /** Number of elements filed under key `k`. */
  function CountKey<T, K(==)>(s: seq<T>, key: T -> K, k: K): nat
  {
    if |s| == 0 then 0
    else CountKey(s[..|s| - 1], key, k) + if key(s[|s| - 1]) == k then 1 else 0
  }

  /** Sum of `val` over the elements filed under key `k`. */
  function SumWhere<T, K(==)>(s: seq<T>, key: T -> K, k: K, val: T -> int): int
  {
    if |s| == 0 then 0
    else SumWhere(s[..|s| - 1], key, k, val) + if key(s[|s| - 1]) == k then val(s[|s| - 1]) else 0
  }

  /** A per-element value between `lo` and `hi` sums to between `lo` and `hi` times the count. */
  lemma {:induction false} SumWhereBounds<T, K>(s: seq<T>, key: T -> K, k: K, val: T -> int, lo: int, hi: int)
    requires forall i :: 0 <= i < |s| ==> lo <= val(s[i]) <= hi
    ensures lo * CountKey(s, key, k) <= SumWhere(s, key, k, val) <= hi * CountKey(s, key, k)
    decreases |s|
  {
    if |s| > 0 {
      var prefix, x := s[..|s| - 1], s[|s| - 1];
      assert forall i :: 0 <= i < |prefix| ==> prefix[i] == s[i];
      SumWhereBounds(prefix, key, k, val, lo, hi);
      if key(x) == k {
        BoundsStep(CountKey(prefix, key, k), SumWhere(prefix, key, k, val), val(x), lo, hi);
      }
    }
  }

  lemma BoundsStep(c: int, t: int, v: int, lo: int, hi: int)
    requires lo * c <= t <= hi * c && lo <= v <= hi
    ensures lo * (c + 1) <= t + v <= hi * (c + 1)
  {
    assert lo * (c + 1) == lo * c + lo;
    assert hi * (c + 1) == hi * c + hi;
  }

  /** Sum of the counts of the keys `ks`. */
  function SumCounts<T, K(==)>(s: seq<T>, key: T -> K, ks: seq<K>): nat
  {
    if |ks| == 0 then 0 else CountKey(s, key, ks[0]) + SumCounts(s, key, ks[1..])
  }

  lemma {:induction false} SumCountsStep<T, K>(s: seq<T>, x: T, key: T -> K, ks: seq<K>)
    requires NoDuplicates(ks)
    ensures SumCounts(s + [x], key, ks) == SumCounts(s, key, ks) + if key(x) in ks then 1 else 0
    decreases |ks|
  {
    if |ks| > 0 {
      assert (s + [x])[..|s|] == s;
      SumCountsStep(s, x, key, ks[1..]);
      assert key(x) in ks <==> key(x) == ks[0] || key(x) in ks[1..];
      if key(x) == ks[0] {
        assert key(x) !in ks[1..];
      }
    }
  }

  /**
   * Grouping by key is a partition: when the keys are distinct and cover
   * every element, the group sizes add up to the length of the list.
   */
  lemma {:induction false} PartitionCount<T, K>(s: seq<T>, key: T -> K, ks: seq<K>)
    requires NoDuplicates(ks)
    requires forall i :: 0 <= i < |s| ==> key(s[i]) in ks
    ensures SumCounts(s, key, ks) == |s|
    decreases |s|
  {
    if |s| == 0 {
      ZeroCounts(s, key, ks);
    } else {
      var prefix := s[..|s| - 1];
      PartitionCount(prefix, key, ks);
      SumCountsStep(prefix, s[|s| - 1], key, ks);
      assert prefix + [s[|s| - 1]] == s;
    }
  }

  lemma {:induction false} ZeroCounts<T, K>(s: seq<T>, key: T -> K, ks: seq<K>)
    requires |s| == 0
    ensures SumCounts(s, key, ks) == 0
    decreases |ks|
  {
    if |ks| > 0 {
      ZeroCounts(s, key, ks[1..]);
    }
  }

  /** Adding one element to the end of a list adds it to its distinct elements unless already there. */
  lemma DistinctSnoc<T>(s: seq<T>, x: T)
    ensures Distinct(s + [x]) == if x in s then Distinct(s) else Distinct(s) + [x]
  {
    assert (s + [x])[..|s|] == s;
    DistinctMembers(s);
  }

  lemma {:induction false} DistinctMembers<T>(s: seq<T>)
    ensures forall x :: x in Distinct(s) <==> x in s
  {
    if |s| > 0 {
      DistinctMembers(s[..|s| - 1]);
      assert s == s[..|s| - 1] + [s[|s| - 1]];
    }
  }

  /** The first `i + 1` elements are the first `i` and then element `i`. */
  lemma TakeOneMore<T>(s: seq<T>, i: int)
    requires 0 <= i < |s|
    ensures s[..i + 1] == s[..i] + [s[i]]
  {
  }

  lemma MapSnoc<T, U>(s: seq<T>, x: T, f: T -> U)
    ensures Map(s + [x], f) == Map(s, f) + [f(x)]
  {
  }

  lemma CountKeySnoc<T, K>(s: seq<T>, x: T, key: T -> K, k: K)
    ensures CountKey(s + [x], key, k) == CountKey(s, key, k) + if key(x) == k then 1 else 0
  {
    assert (s + [x])[..|s|] == s;
  }

  lemma SumWhereSnoc<T, K>(s: seq<T>, x: T, key: T -> K, k: K, val: T -> int)
    ensures SumWhere(s + [x], key, k, val) == SumWhere(s, key, k, val) + if key(x) == k then val(x) else 0
  {
    assert (s + [x])[..|s|] == s;
  }

  /** The elements filed under key `k`, in list order. */
  function Where<T, K(==)>(s: seq<T>, key: T -> K, k: K): (r: seq<T>)
    ensures |r| == CountKey(s, key, k)
  {
    if |s| == 0 then []
    else Where(s[..|s| - 1], key, k) + if key(s[|s| - 1]) == k then [s[|s| - 1]] else []
  }

  /** A key no element has files nothing. */
  lemma {:induction false} WhereAbsent<T, K>(s: seq<T>, key: T -> K, k: K)
    requires forall i :: 0 <= i < |s| ==> key(s[i]) != k
    ensures Where(s, key, k) == []
    decreases |s|
  {
    if |s| > 0 {
      WhereAbsent(s[..|s| - 1], key, k);
    }
  }

  /** Nothing filed under `k` means no element has key `k`. */
  lemma {:induction false} WhereEmpty<T, K>(s: seq<T>, key: T -> K, k: K)
    requires Where(s, key, k) == []
    ensures forall i :: 0 <= i < |s| ==> key(s[i]) != k
    decreases |s|
  {
    if |s| > 0 {
      WhereEmpty(s[..|s| - 1], key, k);
    }
  }

  /** The elements filed under a key are exactly the list's elements with that key. */
  lemma {:induction false} WhereMembers<T, K>(s: seq<T>, key: T -> K, k: K)
    ensures forall x :: x in Where(s, key, k) <==> x in s && key(x) == k
    decreases |s|
  {
    if |s| > 0 {
      WhereMembers(s[..|s| - 1], key, k);
      assert s == s[..|s| - 1] + [s[|s| - 1]];
    }
  }

  /** `s.reduce((acc, x) => { (acc[key(x)] ||= []).push(x); return acc; }, {})`. */
  function GroupBy<T, K(==)>(s: seq<T>, key: T -> K): map<K, seq<T>>
  {
    if |s| == 0 then map[]
    else
      var acc := GroupBy(s[..|s| - 1], key);
      var x := s[|s| - 1];
      acc[key(x) := (if key(x) in acc then acc[key(x)] else []) + [x]]
  }

  lemma GroupBySnoc<T, K>(s: seq<T>, x: T, key: T -> K)
    ensures var g := GroupBy(s, key);
      GroupBy(s + [x], key) == g[key(x) := (if key(x) in g then g[key(x)] else []) + [x]]
  {
    assert (s + [x])[..|s|] == s;
  }

  /**
   * The groups are keyed by exactly the keys that occur, each holding that
   * key's elements in list order (so none is empty and, with
   * `PartitionCount`, together they hold every element once).
   */
  lemma {:induction false} GroupByMeaning<T, K>(s: seq<T>, key: T -> K)
    ensures forall i :: 0 <= i < |s| ==> key(s[i]) in GroupBy(s, key)
    ensures forall k :: k in GroupBy(s, key) ==> exists i :: 0 <= i < |s| && key(s[i]) == k
    ensures forall k :: k in GroupBy(s, key) ==> GroupBy(s, key)[k] == Where(s, key, k) && |Where(s, key, k)| > 0
    decreases |s|
  {
    if |s| > 0 {
      var prefix, x := s[..|s| - 1], s[|s| - 1];
      GroupByMeaning(prefix, key);
      if key(x) !in GroupBy(prefix, key) {
        WhereAbsent(prefix, key, key(x));
      }
      forall i | 0 <= i < |s|
        ensures key(s[i]) in GroupBy(s, key)
      {
        if i < |prefix| {
          assert s[i] == prefix[i];
        }
      }
      forall k | k in GroupBy(s, key)
        ensures exists i :: 0 <= i < |s| && key(s[i]) == k
      {
        if k != key(x) {
          var i :| 0 <= i < |prefix| && key(prefix[i]) == k;
          assert s[i] == prefix[i];
        }
      }
    }
  }

  /** The groups are keyed by exactly the keys that occur. */
  lemma GroupByKeys<T, K>(s: seq<T>, key: T -> K)
    ensures forall k :: k in GroupBy(s, key) <==> k in Map(s, key)
  {
    forall k
      ensures k in GroupBy(s, key) <==> k in Map(s, key)
    {
      GroupByHas(s, key, k);
    }
  }

  lemma GroupByHas<T, K>(s: seq<T>, key: T -> K, k: K)
    ensures k in GroupBy(s, key) <==> k in Map(s, key)
  {
    GroupByMeaning(s, key);
    if k in Map(s, key) {
      var i :| 0 <= i < |s| && Map(s, key)[i] == k;
      assert key(s[i]) in GroupBy(s, key);
    }
  }

  /** The distinct keys grow by the new element's key exactly when it opens a group. */
  lemma DistinctKeysSnoc<T, K>(s: seq<T>, x: T, key: T -> K)
    ensures Distinct(Map(s + [x], key)) ==
      if key(x) in GroupBy(s, key) then Distinct(Map(s, key)) else Distinct(Map(s, key)) + [key(x)]
  {
    MapSnoc(s, x, key);
    DistinctSnoc(Map(s, key), key(x));
    GroupByHas(s, key, key(x));
  }
}

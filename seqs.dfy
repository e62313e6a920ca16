/** Sequence helpers shared by the chart transforms: duplicate-freedom and the
    first-seen de-duplication that `[...new Set(xs)]` performs. */
module Seqs {

  /** No element occurs twice. */
  predicate NoDups<T(==)>(s: seq<T>) {
    forall i, j :: 0 <= i < j < |s| ==> s[i] != s[j]
  }

  /** The position of the first occurrence of `x` in `s`. */
  function FirstIndex<T(==)>(s: seq<T>, x: T): (i: nat)
    requires x in s
    ensures i < |s| && s[i] == x && x !in s[..i]
  {
    if s[0] == x then 0
    else
      var i := FirstIndex(s[1..], x);
      assert s[1..][..i] == s[1..i + 1];
      1 + i
  }

  /** The distinct elements of `s`, each kept at its first occurrence: the
      JavaScript idiom `[...new Set(s)]` (a Set iterates in insertion order). */
  function Distinct<T(==,!new)>(s: seq<T>): (d: seq<T>)
    ensures NoDups(d)
    ensures forall x :: x in d <==> x in s
    ensures |d| <= |s|
  {
    if s == [] then []
    else
      var init := Distinct(s[..|s| - 1]);
      var last := s[|s| - 1];
      assert s == s[..|s| - 1] + [last];
      if last in init then init else init + [last]
  }

  lemma DistinctSnoc<T(!new)>(s: seq<T>, x: T)
    ensures Distinct(s + [x]) == if x in s then Distinct(s) else Distinct(s) + [x]
  {
    assert (s + [x])[..|s|] == s;
  }

  /** `FirstIndex` does not move when an element is appended. */
  lemma {:induction false} FirstIndexSnoc<T>(s: seq<T>, x: T, y: T)
    requires y in s
    ensures FirstIndex(s + [x], y) == FirstIndex(s, y)
  {
    if s[0] != y {
      assert (s + [x])[1..] == s[1..] + [x];
      FirstIndexSnoc(s[1..], x, y);
    }
  }

  /** A new element appended to `s` is first seen at the end. */
  lemma {:induction false} FirstIndexOfNew<T>(s: seq<T>, x: T)
    requires x !in s
    ensures FirstIndex(s + [x], x) == |s|
  {
    if s != [] {
      assert (s + [x])[0] == s[0] != x;
      assert (s + [x])[1..] == s[1..] + [x];
      FirstIndexOfNew(s[1..], x);
    }
  }

  /** De-duplication keeps first-appearance order: an element listed earlier in
      `Distinct(s)` first occurs earlier in `s`. */
  lemma {:induction false} DistinctFirstSeenOrder<T(!new)>(s: seq<T>, i: nat, j: nat)
    requires i < j < |Distinct(s)|
    ensures FirstIndex(s, Distinct(s)[i]) < FirstIndex(s, Distinct(s)[j])
  {
    var init := s[..|s| - 1];
    var last := s[|s| - 1];
    assert s == init + [last];
    DistinctSnoc(init, last);
    var d := Distinct(s);
    var d0 := Distinct(init);
    if j < |d0| {
      DistinctFirstSeenOrder(init, i, j);
      FirstIndexSnoc(init, last, d0[i]);
      FirstIndexSnoc(init, last, d0[j]);
    } else {
      // d[j] is the appended last element, which does not occur in init
      assert last !in init && d[j] == last;
      FirstIndexSnoc(init, last, d0[i]);
      FirstIndexOfNew(init, last);
    }
  }

  /** A sequence is ordered by `le` when every earlier element is `le` every later one. */
  ghost predicate SortedBy<T>(le: (T, T) -> bool, s: seq<T>) {
    forall i, j :: 0 <= i < j < |s| ==> le(s[i], s[j])
  }

  /** `le` is total and transitive: what a sort comparator must provide. */
  ghost predicate TotalPreorder<T(!new)>(le: (T, T) -> bool) {
    && (forall a, b :: le(a, b) || le(b, a))
    && (forall a, b, c :: le(a, b) && le(b, c) ==> le(a, c))
  }

  /** `f` applied to `count` consecutive naturals starting at `first`. */
  function Tabulate<T>(first: nat, count: nat, f: nat -> T): (r: seq<T>)
    ensures |r| == count
    ensures forall k :: 0 <= k < count ==> r[k] == f(first + k)
  {
    seq(count, k requires 0 <= k => f(first + k))
  }

  lemma TabulateSnoc<T>(first: nat, count: nat, f: nat -> T)
    ensures Tabulate(first, count + 1, f) == Tabulate(first, count, f) + [f(first + count)]
  {
  }

  lemma TabulateStep<T>(done: seq<T>, first: nat, count: nat, f: nat -> T, x: T)
    requires done == Tabulate(first, count, f) && x == f(first + count)
    ensures done + [x] == Tabulate(first, count + 1, f)
  {
    TabulateSnoc(first, count, f);
  }

  /** An element of a list without duplicates does not occur before its position. */
  lemma NotInPrefix<T>(s: seq<T>, i: nat)
    requires NoDups(s) && i < |s|
    ensures s[i] !in s[..i]
  {
    forall k | 0 <= k < i ensures s[..i][k] != s[i] {
    }
  }

  /** A common prefix cancels. */
  lemma PrefixCancel<T>(p: seq<T>, a: seq<T>, b: seq<T>)
    requires p + a == p + b
    ensures a == b
  {
    assert a == (p + a)[|p|..];
  }

  lemma TakeSnoc<T>(s: seq<T>, k: nat)
    requires k < |s|
    ensures s[..k + 1] == s[..k] + [s[k]]
  {
  }

  /** The elements of `s` whose key is `k`, in their original order. */
  function KeepKey<T(!new), K(==)>(s: seq<T>, key: T -> K, k: K): (r: seq<T>)
    ensures |r| <= |s|
    ensures forall x :: x in r <==> x in s && key(x) == k
    ensures forall x :: multiset(r)[x] == if key(x) == k then multiset(s)[x] else 0
  {
    if s == [] then []
    else
      var init, x := s[..|s| - 1], s[|s| - 1];
      assert s == init + [x];
      var r0 := KeepKey(init, key, k);
      if key(x) == k then r0 + [x] else r0
  }

  lemma KeepKeySnoc<T(!new), K>(s: seq<T>, x: T, key: T -> K, k: K)
    ensures KeepKey(s + [x], key, k) == if key(x) == k then KeepKey(s, key, k) + [x] else KeepKey(s, key, k)
  {
    assert (s + [x])[..|s|] == s;
  }

  /** The key of every element, in order. */
  function Keys<T, K>(s: seq<T>, key: T -> K): (r: seq<K>)
    ensures |r| == |s| && forall i :: 0 <= i < |s| ==> r[i] == key(s[i])
  {
    if s == [] then [] else Keys(s[..|s| - 1], key) + [key(s[|s| - 1])]
  }

  lemma KeysSnoc<T, K>(s: seq<T>, x: T, key: T -> K)
    ensures Keys(s + [x], key) == Keys(s, key) + [key(x)]
  {
    assert (s + [x])[..|s|] == s;
  }

  /** A key occurs among the keys exactly when some element carries it. */
  lemma InKeys<T, K>(s: seq<T>, key: T -> K, k: K)
    ensures k in Keys(s, key) <==> exists i :: 0 <= i < |s| && key(s[i]) == k
  {
    if k in Keys(s, key) {
      var i :| 0 <= i < |s| && Keys(s, key)[i] == k;
    }
  }

  /** No element carries a key that is not among the keys. */
  lemma KeepKeyNone<T(!new), K>(s: seq<T>, key: T -> K, k: K)
    requires k !in Keys(s, key)
    ensures KeepKey(s, key, k) == []
  {
    InKeys(s, key, k);
    if KeepKey(s, key, k) != [] {
      assert false;
    }
  }

  /** Every element's key is among the listed distinct keys. */
  lemma KeysCovered<T(!new), K(!new)>(s: seq<T>, key: T -> K, ks: seq<K>)
    requires ks == Distinct(Keys(s, key))
    ensures forall x :: x in s ==> key(x) in ks
  {
    forall x | x in s ensures key(x) in ks {
      var j :| 0 <= j < |s| && s[j] == x;
      assert Keys(s, key)[j] == key(x);
    }
  }

  /** The sizes of the groups `KeepKey(s, key, k)` for the keys `k` of `ks`, added up. */
  function SumSizes<T(!new), K(==)>(s: seq<T>, key: T -> K, ks: seq<K>): nat {
    if ks == [] then 0 else |KeepKey(s, key, ks[0])| + SumSizes(s, key, ks[1..])
  }

  lemma {:induction false} SumSizesEmpty<T(!new), K>(key: T -> K, ks: seq<K>)
    ensures SumSizes([], key, ks) == 0
  {
    if ks != [] { SumSizesEmpty(key, ks[1..]); }
  }

  /** Appending an element grows exactly one group, when its key is listed once. */
  lemma {:induction false} SumSizesSnoc<T(!new), K>(s: seq<T>, x: T, key: T -> K, ks: seq<K>)
    requires NoDups(ks)
    ensures SumSizes(s + [x], key, ks) == SumSizes(s, key, ks) + if key(x) in ks then 1 else 0
  {
    if ks != [] {
      KeepKeySnoc(s, x, key, ks[0]);
      assert NoDups(ks[1..]);
      assert key(x) in ks <==> key(x) == ks[0] || key(x) in ks[1..];
      assert ks[0] !in ks[1..];
      SumSizesSnoc(s, x, key, ks[1..]);
    }
  }

  /** Grouping by key loses and duplicates nothing: over a duplicate-free list
      covering every element's key, the group sizes add up to `|s|`. */
  lemma {:induction false} PartitionSize<T(!new), K>(s: seq<T>, key: T -> K, ks: seq<K>)
    requires NoDups(ks) && forall x :: x in s ==> key(x) in ks
    ensures SumSizes(s, key, ks) == |s|
  {
    if s == [] {
      SumSizesEmpty(key, ks);
    } else {
      var init, x := s[..|s| - 1], s[|s| - 1];
      assert s == init + [x];
      PartitionSize(init, key, ks);
      SumSizesSnoc(init, x, key, ks);
    }
  }

  /** Two duplicate-free sequences with no element in common concatenate to a
      duplicate-free sequence. */
  lemma NoDupsConcat<T>(a: seq<T>, b: seq<T>)
    requires NoDups(a) && NoDups(b) && forall x :: x in a ==> x !in b
    ensures NoDups(a + b)
  {
    forall i, j | 0 <= i < j < |a + b|
      ensures (a + b)[i] != (a + b)[j]
    {
      if i < |a| <= j {
        assert (a + b)[i] in a && (a + b)[j] == b[j - |a|];
      }
    }
  }

  /** `s.filter(t => t !== x)`: every occurrence of `x` dropped, everything
      else kept in order. */
  function Without<T(==,!new)>(s: seq<T>, x: T): (r: seq<T>)
    ensures x !in r
    ensures forall y :: y != x ==> multiset(r)[y] == multiset(s)[y]
  {
    if s == [] then []
    else
      assert s == [s[0]] + s[1..];
      (if s[0] == x then [] else [s[0]]) + Without(s[1..], x)
  }

  /** Filtering distributes over concatenation, so relative order is kept. */
  lemma {:induction false} WithoutConcat<T(!new)>(a: seq<T>, b: seq<T>, x: T)
    ensures Without(a + b, x) == Without(a, x) + Without(b, x)
  {
    if a != [] {
      assert (a + b)[0] == a[0] && (a + b)[1..] == a[1..] + b;
      WithoutConcat(a[1..], b, x);
    } else {
      assert a + b == b;
    }
  }

  /** Filtering out an absent element changes nothing. */
  lemma {:induction false} WithoutAbsent<T(!new)>(s: seq<T>, x: T)
    requires x !in s
    ensures Without(s, x) == s
  {
    if s != [] {
      WithoutAbsent(s[1..], x);
    }
  }

  /** Filtering keeps a duplicate-free sequence duplicate-free. */
  lemma WithoutNoDups<T(!new)>(s: seq<T>, x: T)
    requires NoDups(s)
    ensures NoDups(Without(s, x))
  {
    var r := Without(s, x);
    forall i, j | 0 <= i < j < |r| ensures r[i] != r[j] {
      if r[i] == r[j] {
        assert r == r[..i] + [r[i]] + r[i + 1..j] + [r[j]] + r[j + 1..];
        assert multiset(r)[r[i]] >= 2;
        CountAtMostOne(s, r[i]);
      }
    }
  }

  /** Permutations of a duplicate-free sequence are duplicate-free. */
  lemma NoDupsPermutation<T>(a: seq<T>, b: seq<T>)
    requires NoDups(a) && multiset(a) == multiset(b)
    ensures NoDups(b)
  {
    forall i, j | 0 <= i < j < |b|
      ensures b[i] != b[j]
    {
      if b[i] == b[j] {
        assert b == b[..i] + [b[i]] + b[i + 1..j] + [b[j]] + b[j + 1..];
        assert multiset(b)[b[i]] >= 2;
        CountAtMostOne(a, b[i]);
      }
    }
  }

  lemma {:induction false} CountAtMostOne<T>(a: seq<T>, x: T)
    requires NoDups(a)
    ensures multiset(a)[x] <= 1
  {
    if a != [] {
      assert a == [a[0]] + a[1..];
      assert NoDups(a[1..]);
      CountAtMostOne(a[1..], x);
      if a[0] == x {
        assert x !in a[1..];
      }
    }
  }

  /** `f` added up over the elements of `ks`. */
  function SumOf<K>(ks: seq<K>, f: K -> nat): nat {
    if ks == [] then 0 else f(ks[0]) + SumOf(ks[1..], f)
  }

  lemma {:induction false} SumOfAppend<K>(a: seq<K>, b: seq<K>, f: K -> nat)
    ensures SumOf(a + b, f) == SumOf(a, f) + SumOf(b, f)
  {
    if a == [] {
      assert a + b == b;
    } else {
      assert (a + b)[1..] == a[1..] + b;
      SumOfAppend(a[1..], b, f);
    }
  }

  lemma {:induction false} SumOfRemove<K>(b: seq<K>, i: nat, f: K -> nat)
    requires i < |b|
    ensures SumOf(b, f) == f(b[i]) + SumOf(b[..i] + b[i + 1..], f)
  {
    if i == 0 {
      assert b[..0] + b[1..] == b[1..];
    } else {
      SumOfRemove(b[1..], i - 1, f);
      assert b[1..][..i - 1] + b[1..][i..] == (b[..i] + b[i + 1..])[1..];
    }
  }

  lemma MultisetRemove<K>(b: seq<K>, i: nat)
    requires i < |b|
    ensures multiset(b[..i] + b[i + 1..]) == multiset(b) - multiset{b[i]}
  {
    assert b == b[..i] + [b[i]] + b[i + 1..];
  }

  /** A sum does not depend on the order of its terms. */
  lemma {:induction false} SumOfPermutation<K>(a: seq<K>, b: seq<K>, f: K -> nat)
    requires multiset(a) == multiset(b)
    ensures SumOf(a, f) == SumOf(b, f)
  {
    if a == [] {
      assert |b| == |multiset(b)| == 0;
    } else {
      assert a[0] in multiset(b);
      var i := FirstIndex(b, a[0]);
      MultisetRemove(b, i);
      assert multiset(a[1..]) == multiset(a) - multiset{a[0]} by {
        assert a == [a[0]] + a[1..];
      }
      SumOfPermutation(a[1..], b[..i] + b[i + 1..], f);
      SumOfRemove(b, i, f);
    }
  }

  /** Group sizes added up with `SumOf` agree with `SumSizes`. */
  lemma {:induction false} SumOfGroupSizes<T(!new), K>(s: seq<T>, key: T -> K, ks: seq<K>, f: K -> nat)
    requires forall k :: k in ks ==> f(k) == |KeepKey(s, key, k)|
    ensures SumOf(ks, f) == SumSizes(s, key, ks)
  {
    if ks != [] {
      SumOfGroupSizes(s, key, ks[1..], f);
    }
  }
}

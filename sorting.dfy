/** Sorting with a JavaScript-style comparator, given here as the "not after"
    relation `le` (`le(a, b)` is `cmp(a, b) <= 0`). `Array.prototype.sort`
    sorts in place and is stable; `SortInPlace` is that operation. `SortBy` is
    the same ordering as a function, for sorts that appear inside pure
    expressions. */
module Sorting {
  import opened Seqs

  method Swap<T>(a: array<T>, i: nat, j: nat)
    requires i < a.Length && j < a.Length
    modifies a
    ensures a[..] == old(a[..])[i := old(a[j])][j := old(a[i])]
    ensures multiset(a[..]) == multiset(old(a[..]))
  {
    a[i], a[j] := a[j], a[i];
  }

  /** The elements of `s` that `le` ranks level with `x` (the comparator gives
      0 both ways), in their order in `s`. A sort is stable when it leaves
      every such subsequence as it was. */
  function Ties<T>(s: seq<T>, x: T, le: (T, T) -> bool): seq<T> {
    if s == [] then []
    else (if le(s[0], x) && le(x, s[0]) then [s[0]] else []) + Ties(s[1..], x, le)
  }

  lemma {:induction false} TiesAppend<T>(a: seq<T>, b: seq<T>, x: T, le: (T, T) -> bool)
    ensures Ties(a + b, x, le) == Ties(a, x, le) + Ties(b, x, le)
  {
    if a != [] {
      assert (a + b)[1..] == a[1..] + b;
      TiesAppend(a[1..], b, x, le);
    } else {
      assert a + b == b;
    }
  }

  /** `s` and `t` have the same ties, class by class: a stable reordering. */
  ghost predicate SameTies<T(!new)>(s: seq<T>, t: seq<T>, le: (T, T) -> bool) {
    forall x :: Ties(s, x, le) == Ties(t, x, le)
  }

  /** Swapping two neighbours that are strictly out of order moves no element
      past one it ties with. */
  lemma SwapKeepsTies<T(!new)>(s: seq<T>, i: nat, le: (T, T) -> bool)
    requires TotalPreorder(le) && i + 1 < |s| && !le(s[i], s[i + 1])
    ensures SameTies(s[i := s[i + 1]][i + 1 := s[i]], s, le)
  {
    forall x ensures Ties(s[i := s[i + 1]][i + 1 := s[i]], x, le) == Ties(s, x, le) {
      SwapTiesAt(s, i, le, x);
    }
  }

  lemma SwapTiesAt<T(!new)>(s: seq<T>, i: nat, le: (T, T) -> bool, x: T)
    requires TotalPreorder(le) && i + 1 < |s| && !le(s[i], s[i + 1])
    ensures Ties(s[i := s[i + 1]][i + 1 := s[i]], x, le) == Ties(s, x, le)
  {
    var t := s[i := s[i + 1]][i + 1 := s[i]];
    var pre, post := s[..i], s[i + 2..];
    var u, v := s[i], s[i + 1];
    assert s == (pre + [u, v]) + post;
    assert t == (pre + [v, u]) + post;
    TiesAppend(pre + [u, v], post, x, le);
    TiesAppend(pre, [u, v], x, le);
    TiesAppend(pre + [v, u], post, x, le);
    TiesAppend(pre, [v, u], x, le);
    // both neighbours tie with x only if they tie with each other
    assert !(le(u, x) && le(x, v));
    assert Ties([u, v], x, le) == Ties([v, u], x, le);
  }

  lemma {:induction false} TiesMember<T>(s: seq<T>, x: T, le: (T, T) -> bool, e: T)
    requires e in Ties(s, x, le)
    ensures e in s
  {
    if s != [] && e != s[0] {
      TiesMember(s[1..], x, le, e);
    }
  }

  /** Stability pins a sort down: two sorted sequences with the same ties,
      class by class, are equal. So every stable sort of the same input gives
      the same result. */
  lemma {:induction false} StableSortUnique<T(!new)>(a: seq<T>, b: seq<T>, le: (T, T) -> bool)
    requires TotalPreorder(le) && SortedBy(le, a) && SortedBy(le, b) && SameTies(a, b, le)
    ensures a == b
  {
    if a == [] || b == [] {
      if a != [] {
        TiesHead(a, le);
        assert false;
      } else if b != [] {
        TiesHead(b, le);
        assert false;
      }
    } else {
      var x, y := a[0], b[0];
      LeadsTies(a, b, le);
      LeadsTies(b, a, le);
      assert Ties(a, x, le)[0] == x && Ties(b, x, le)[0] == y;
      assert x == y;
      forall z ensures Ties(a[1..], z, le) == Ties(b[1..], z, le) {
        var lead := if le(x, z) && le(z, x) then [x] else [];
        assert Ties(a, z, le) == lead + Ties(a[1..], z, le);
        assert Ties(b, z, le) == lead + Ties(b[1..], z, le);
        assert Ties(a, z, le) == Ties(b, z, le);
        assert Ties(a[1..], z, le) == Ties(a, z, le)[|lead|..];
      }
      StableSortUnique(a[1..], b[1..], le);
      assert a == [x] + a[1..] && b == [y] + b[1..];
    }
  }

  /** The first element of a sequence ties with itself. */
  lemma TiesHead<T(!new)>(s: seq<T>, le: (T, T) -> bool)
    requires TotalPreorder(le) && s != []
    ensures Ties(s, s[0], le) != []
  {
    assert le(s[0], s[0]);
  }

  /** The first element of `b` is level with the first of `a`. */
  lemma LeadsTies<T(!new)>(a: seq<T>, b: seq<T>, le: (T, T) -> bool)
    requires TotalPreorder(le) && SortedBy(le, a) && SameTies(a, b, le) && a != [] && b != []
    ensures le(a[0], b[0])
  {
    var y := b[0];
    assert le(y, y);
    assert y in Ties(b, y, le);
    assert y in Ties(a, y, le);
    TiesMember(a, y, le, y);
    var k :| 0 <= k < |a| && a[k] == y;
    if k > 0 {
      assert le(a[0], a[k]);
    }
  }

  /** `arr.sort(cmp)`: insertion sort by adjacent swaps, which keeps equal
      elements in their original order as the built-in does. */
  method SortInPlace<T(!new)>(a: array<T>, le: (T, T) -> bool)
    requires TotalPreorder(le)
    modifies a
    ensures SortedBy(le, a[..])
    ensures multiset(a[..]) == multiset(old(a[..]))
    ensures SameTies(a[..], old(a[..]), le)
  {
    var i := 0;
    while i < a.Length
      invariant 0 <= i <= a.Length
      invariant SortedBy(le, a[..i])
      invariant multiset(a[..]) == multiset(old(a[..]))
      invariant SameTies(a[..], old(a[..]), le)
    {
      ghost var before := a[..];
      SinkInto(a, i, le);
      SameTiesTrans(a[..], before, old(a[..]), le);
      i := i + 1;
    }
    assert a[..a.Length] == a[..];
  }

  /** One pass of the insertion sort: `a[i]` moves left past every element
      strictly after it, so that `a[..i + 1]` is sorted. */
  method SinkInto<T(!new)>(a: array<T>, i: nat, le: (T, T) -> bool)
    requires TotalPreorder(le) && i < a.Length && SortedBy(le, a[..i])
    modifies a
    ensures SortedBy(le, a[..i + 1])
    ensures multiset(a[..]) == multiset(old(a[..]))
    ensures SameTies(a[..], old(a[..]), le)
  {
    var j := i;
    SinkStart(a[..], i, le);
    while 0 < j && !le(a[j - 1], a[j])
      invariant 0 <= j <= i
      invariant multiset(a[..]) == multiset(old(a[..]))
      invariant SameTies(a[..], old(a[..]), le)
      invariant SortedAround(a[..], i, j, le)
    {
      ghost var before := a[..];
      Swap(a, j - 1, j);
      SinkStep(before, i, j, le);
      SwapKeepsTies(before, j - 1, le);
      SameTiesTrans(a[..], before, old(a[..]), le);
      j := j - 1;
    }
    SinkDone(a[..], i, j, le);
  }

  /** While `s[j]` sinks through `s[..i + 1]`: the other elements are in order,
      and `s[j]` is not after anything to its right. */
  ghost predicate SortedAround<T>(s: seq<T>, i: nat, j: nat, le: (T, T) -> bool) {
    && j <= i < |s|
    && (forall p, q :: 0 <= p < q <= i && p != j && q != j ==> le(s[p], s[q]))
    && (forall q :: j < q <= i ==> le(s[j], s[q]))
  }

  lemma SinkStart<T>(s: seq<T>, i: nat, le: (T, T) -> bool)
    requires i < |s| && SortedBy(le, s[..i])
    ensures SortedAround(s, i, i, le)
  {
    forall p, q | 0 <= p < q <= i && p != i && q != i ensures le(s[p], s[q]) {
      assert s[p] == s[..i][p] && s[q] == s[..i][q];
    }
  }

  /** Swapping `s[j]` with a left neighbour that is strictly after it moves the
      sinking element one place left. */
  lemma SinkStep<T(!new)>(s: seq<T>, i: nat, j: nat, le: (T, T) -> bool)
    requires TotalPreorder(le) && 0 < j && SortedAround(s, i, j, le) && !le(s[j - 1], s[j])
    ensures SortedAround(s[j - 1 := s[j]][j := s[j - 1]], i, j - 1, le)
  {
    var t := s[j - 1 := s[j]][j := s[j - 1]];
    assert le(s[j], s[j - 1]);
    forall p, q | 0 <= p < q <= i && p != j - 1 && q != j - 1 ensures le(t[p], t[q]) {
      if p == j {
        assert le(s[j - 1], s[q]);
      } else if q == j {
        assert le(s[p], s[j - 1]);
      }
    }
  }

  /** The sinking element has stopped: the whole prefix `s[..i + 1]` is sorted. */
  lemma SinkDone<T(!new)>(s: seq<T>, i: nat, j: nat, le: (T, T) -> bool)
    requires TotalPreorder(le) && SortedAround(s, i, j, le) && (j == 0 || le(s[j - 1], s[j]))
    ensures SortedBy(le, s[..i + 1])
  {
    forall p, q | 0 <= p < q <= i ensures le(s[p], s[q]) {
      if q == j && p < j - 1 {
        assert le(s[p], s[j - 1]);
      } else if p == j {
        assert le(s[j], s[q]);
      }
    }
  }

  lemma SameTiesTrans<T(!new)>(s: seq<T>, t: seq<T>, u: seq<T>, le: (T, T) -> bool)
    requires SameTies(s, t, le) && SameTies(t, u, le)
    ensures SameTies(s, u, le)
  {
  }

  /** A sorted copy: `s.slice().sort(cmp)`. The input is left as it was; the
      copy is sorted, a permutation of it, and stable. */
  method SortedCopy<T(!new)>(s: seq<T>, le: (T, T) -> bool) returns (r: seq<T>)
    requires TotalPreorder(le)
    ensures SortedBy(le, r)
    ensures multiset(r) == multiset(s)
    ensures SameTies(r, s, le)
  {
    var a := new T[|s|](k requires 0 <= k < |s| => s[k]);
    assert a[..] == s;
    SortInPlace(a, le);
    r := a[..];
  }

  function Insert<T(!new)>(x: T, s: seq<T>, le: (T, T) -> bool): (r: seq<T>)
    requires TotalPreorder(le) && SortedBy(le, s)
    ensures SortedBy(le, r)
    ensures multiset(r) == multiset(s) + multiset{x}
  {
    if s == [] then [x]
    else if le(x, s[0]) then
      assert forall k :: 0 <= k < |s| ==> le(x, s[k]);
      [x] + s
    else
      var t := Insert(x, s[1..], le);
      assert s == [s[0]] + s[1..];
      HeadBelowAll(s, x, t, le);
      [s[0]] + t
  }

  /** The head of a sorted sequence is not after anything in its tail, nor
      after an `x` it is strictly before. */
  lemma HeadBelowAll<T(!new)>(s: seq<T>, x: T, t: seq<T>, le: (T, T) -> bool)
    requires TotalPreorder(le) && SortedBy(le, s) && s != [] && !le(x, s[0])
    requires multiset(t) == multiset(s[1..]) + multiset{x}
    ensures SortedBy(le, t) ==> SortedBy(le, [s[0]] + t)
  {
    forall y | y in multiset(t) ensures le(s[0], y) {
      if y != x {
        assert y in multiset(s[1..]);
        var k :| 0 <= k < |s[1..]| && s[1..][k] == y;
        assert s[k + 1] == y;
      }
    }
    forall k | 0 <= k < |t| ensures le(s[0], t[k]) {
      assert t[k] in multiset(t);
    }
  }

  /** The elements of `s` in `le` order (a sort inside a pure expression). */
  function SortBy<T(!new)>(s: seq<T>, le: (T, T) -> bool): (r: seq<T>)
    requires TotalPreorder(le)
    ensures SortedBy(le, r)
    ensures multiset(r) == multiset(s)
  {
    if s == [] then []
    else
      assert s == [s[0]] + s[1..];
      Insert(s[0], SortBy(s[1..], le), le)
  }
}

/** The bottom-up mergesort of a list, on sequences: runs of a length are merged in pairs, and the
    length doubles until one merge covers the list. */
module ListSort {

  /** `Le(a, b)` is `cmp(a, b) <= 0`. */
  ghost predicate TotalPreorder<T(!new)>(cmp: (T, T) -> int) {
    && (forall a, b :: cmp(a, b) <= 0 || cmp(b, a) <= 0)
    && (forall a, b, c :: cmp(a, b) <= 0 && cmp(b, c) <= 0 ==> cmp(a, c) <= 0)
  }

  ghost predicate SortedBy<T>(s: seq<T>, cmp: (T, T) -> int) {
    forall i, j :: 0 <= i < j < |s| ==> cmp(s[i], s[j]) <= 0
  }

  /** The elements that compare equal to `x`, in their order. */
  ghost function Equals<T>(s: seq<T>, x: T, cmp: (T, T) -> int): (e: seq<T>) {
    if s == [] then []
    else (if cmp(s[0], x) <= 0 && cmp(x, s[0]) <= 0 then [s[0]] else []) + Equals(s[1..], x, cmp)
  }

  /** A rearrangement in order, in which elements that compare equal keep theirs. */
  ghost predicate StableSort<T(!new)>(s: seq<T>, t: seq<T>, cmp: (T, T) -> int) {
    SortedBy(t, cmp) && forall x :: Equals(t, x, cmp) == Equals(s, x, cmp)
  }

  lemma {:induction false} EqualsCounts<T>(s: seq<T>, x: T, cmp: (T, T) -> int)
    requires cmp(x, x) <= 0
    ensures multiset(s)[x] == multiset(Equals(s, x, cmp))[x]
  {
    if s != [] {
      assert s == [s[0]] + s[1..];
      EqualsCounts(s[1..], x, cmp);
    }
  }

  lemma StableSortPermutes<T(!new)>(s: seq<T>, t: seq<T>, cmp: (T, T) -> int)
    requires TotalPreorder(cmp) && StableSort(s, t, cmp)
    ensures multiset(t) == multiset(s)
  {
    forall x ensures multiset(t)[x] == multiset(s)[x] {
      EqualsCounts(s, x, cmp);
      EqualsCounts(t, x, cmp);
      assert Equals(t, x, cmp) == Equals(s, x, cmp);
    }
  }

  // ---------------------------------------------------------------- the sort

  function Merge<T>(p: seq<T>, q: seq<T>, cmp: (T, T) -> int): (m: seq<T>)
    decreases |p| + |q|
  {
    if p == [] then q
    else if q == [] then p
    else if cmp(p[0], q[0]) <= 0 then [p[0]] + Merge(p[1..], q, cmp)
    else [q[0]] + Merge(p, q[1..], cmp)
  }

  function Min(a: nat, b: nat): nat {
    if a < b then a else b
  }

  /** One pass, from position `a`: runs of length `n` merged in pairs. */
  function Pass<T>(s: seq<T>, a: nat, n: nat, cmp: (T, T) -> int): (t: seq<T>)
    requires a <= |s| && n > 0
    decreases |s| - a
  {
    if a == |s| then []
    else
      var mid := Min(a + n, |s|);
      var end := Min(mid + n, |s|);
      Merge(s[a..mid], s[mid..end], cmp) + Pass(s, end, n, cmp)
  }

  /** Passes with doubling runs, the last one over a list of one merge. */
  function Passes<T>(s: seq<T>, n: nat, cmp: (T, T) -> int): (t: seq<T>)
    requires n > 0
    decreases |s| - n
  {
    PassLength(s, 0, n, cmp);
    if |s| <= 2 * n then Pass(s, 0, n, cmp) else Passes(Pass(s, 0, n, cmp), 2 * n, cmp)
  }

  lemma {:induction false} MergeLength<T>(p: seq<T>, q: seq<T>, cmp: (T, T) -> int)
    ensures |Merge(p, q, cmp)| == |p| + |q|
    decreases |p| + |q|
  {
    if p != [] && q != [] {
      if cmp(p[0], q[0]) <= 0 {
        MergeLength(p[1..], q, cmp);
      } else {
        MergeLength(p, q[1..], cmp);
      }
    }
  }

  lemma {:induction false} PassLength<T>(s: seq<T>, a: nat, n: nat, cmp: (T, T) -> int)
    requires a <= |s| && n > 0
    ensures |Pass(s, a, n, cmp)| == |s| - a
    decreases |s| - a
  {
    if a < |s| {
      var mid := Min(a + n, |s|);
      var end := Min(mid + n, |s|);
      MergeLength(s[a..mid], s[mid..end], cmp);
      PassLength(s, end, n, cmp);
    }
  }

  lemma {:induction false} PassesLength<T>(s: seq<T>, n: nat, cmp: (T, T) -> int)
    requires n > 0
    ensures |Passes(s, n, cmp)| == |s|
    decreases |s| - n
  {
    PassLength(s, 0, n, cmp);
    if |s| > 2 * n {
      PassesLength(Pass(s, 0, n, cmp), 2 * n, cmp);
    }
  }

  // ---------------------------------------------------------------- a merge

  lemma {:induction false} MergeMultiset<T>(p: seq<T>, q: seq<T>, cmp: (T, T) -> int)
    ensures multiset(Merge(p, q, cmp)) == multiset(p) + multiset(q)
    decreases |p| + |q|
  {
    if p != [] && q != [] {
      assert p == [p[0]] + p[1..] && q == [q[0]] + q[1..];
      if cmp(p[0], q[0]) <= 0 {
        MergeMultiset(p[1..], q, cmp);
      } else {
        MergeMultiset(p, q[1..], cmp);
      }
    }
  }

  lemma MergeMembers<T>(p: seq<T>, q: seq<T>, cmp: (T, T) -> int, x: T)
    requires x in Merge(p, q, cmp)
    ensures x in p || x in q
  {
    MergeMultiset(p, q, cmp);
    assert x in multiset(Merge(p, q, cmp));
  }

  /** A sorted sequence after an element that comes before all of it. */
  lemma SortedCons<T>(x: T, s: seq<T>, cmp: (T, T) -> int)
    requires SortedBy(s, cmp) && forall y :: y in s ==> cmp(x, y) <= 0
    ensures SortedBy([x] + s, cmp)
  {
  }

  lemma {:induction false} MergeSorted<T(!new)>(p: seq<T>, q: seq<T>, cmp: (T, T) -> int)
    requires TotalPreorder(cmp) && SortedBy(p, cmp) && SortedBy(q, cmp)
    ensures SortedBy(Merge(p, q, cmp), cmp)
    decreases |p| + |q|
  {
    if p != [] && q != [] {
      if cmp(p[0], q[0]) <= 0 {
        MergeSorted(p[1..], q, cmp);
        forall y | y in Merge(p[1..], q, cmp) ensures cmp(p[0], y) <= 0 {
          MergeMembers(p[1..], q, cmp, y);
          assert y in q ==> cmp(q[0], y) <= 0 || y == q[0];
        }
        SortedCons(p[0], Merge(p[1..], q, cmp), cmp);
      } else {
        MergeSorted(p, q[1..], cmp);
        forall y | y in Merge(p, q[1..], cmp) ensures cmp(q[0], y) <= 0 {
          MergeMembers(p, q[1..], cmp, y);
          assert y in p ==> cmp(p[0], y) <= 0 || y == p[0];
        }
        SortedCons(q[0], Merge(p, q[1..], cmp), cmp);
      }
    }
  }

  lemma {:induction false} EqualsConcat<T>(s: seq<T>, t: seq<T>, x: T, cmp: (T, T) -> int)
    ensures Equals(s + t, x, cmp) == Equals(s, x, cmp) + Equals(t, x, cmp)
  {
    if s == [] {
      assert s + t == t;
    } else {
      assert (s + t)[1..] == s[1..] + t;
      EqualsConcat(s[1..], t, x, cmp);
    }
  }

  lemma {:induction false} EqualsNone<T>(s: seq<T>, x: T, cmp: (T, T) -> int)
    requires forall y :: y in s ==> cmp(y, x) > 0
    ensures Equals(s, x, cmp) == []
  {
    if s != [] {
      EqualsNone(s[1..], x, cmp);
    }
  }

  /** Nothing in a run whose first element comes after `z` compares equal to `z`. */
  lemma AllAfter<T(!new)>(p: seq<T>, z: T, x: T, cmp: (T, T) -> int)
    requires TotalPreorder(cmp) && SortedBy(p, cmp) && p != [] && cmp(p[0], z) > 0 && cmp(x, z) <= 0
    ensures forall y :: y in p ==> cmp(y, x) > 0
  {
    forall y | y in p ensures cmp(y, x) > 0 {
      assert y == p[0] || cmp(p[0], y) <= 0;
      assert cmp(y, x) <= 0 ==> cmp(y, z) <= 0;
    }
  }

  /** A merge keeps the elements that compare equal in order, those of the first run first. */
  lemma {:induction false} MergeStable<T(!new)>(p: seq<T>, q: seq<T>, x: T, cmp: (T, T) -> int)
    requires TotalPreorder(cmp) && SortedBy(p, cmp)
    ensures Equals(Merge(p, q, cmp), x, cmp) == Equals(p, x, cmp) + Equals(q, x, cmp)
    decreases |p| + |q|
  {
    if p != [] && q != [] {
      if cmp(p[0], q[0]) <= 0 {
        MergeStable(p[1..], q, x, cmp);
        EqualsCons(p[0], Merge(p[1..], q, cmp), x, cmp);
      } else {
        MergeStable(p, q[1..], x, cmp);
        EqualsCons(q[0], Merge(p, q[1..], cmp), x, cmp);
        if cmp(q[0], x) <= 0 && cmp(x, q[0]) <= 0 {
          AllAfter(p, q[0], x, cmp);
          EqualsNone(p, x, cmp);
        }
      }
    }
  }

  lemma EqualsCons<T>(y: T, s: seq<T>, x: T, cmp: (T, T) -> int)
    ensures Equals([y] + s, x, cmp) == (if cmp(y, x) <= 0 && cmp(x, y) <= 0 then [y] else []) + Equals(s, x, cmp)
  {
    assert ([y] + s)[1..] == s;
  }

  // ---------------------------------------------------------------- a pass

  /** From `a` on, the runs of length `n` are sorted. */
  ghost predicate RunsSorted<T>(s: seq<T>, a: nat, n: nat, cmp: (T, T) -> int)
    requires n > 0
    decreases |s| - a
  {
    a < |s| ==> SortedBy(s[a..Min(a + n, |s|)], cmp) && RunsSorted(s, a + n, n, cmp)
  }

  lemma InThree<T>(s: seq<T>, a: nat, mid: nat, end: nat)
    requires a <= mid <= end <= |s|
    ensures s[a..] == s[a..mid] + s[mid..end] + s[end..]
  {
  }

  lemma {:induction false} PassStable<T(!new)>(s: seq<T>, a: nat, n: nat, x: T, cmp: (T, T) -> int)
    requires TotalPreorder(cmp) && a <= |s| && n > 0 && RunsSorted(s, a, n, cmp)
    ensures Equals(Pass(s, a, n, cmp), x, cmp) == Equals(s[a..], x, cmp)
    decreases |s| - a
  {
    if a < |s| {
      var mid := Min(a + n, |s|);
      var end := Min(mid + n, |s|);
      RunsNext(s, a, n, cmp);
      PassStable(s, end, n, x, cmp);
      MergeStable(s[a..mid], s[mid..end], x, cmp);
      InThree(s, a, mid, end);
      SameEquals(s[a..mid], s[mid..end], s[end..], Merge(s[a..mid], s[mid..end], cmp), Pass(s, end, n, cmp), x, cmp);
    }
  }

  lemma SameEquals<T>(p: seq<T>, q: seq<T>, rest: seq<T>, m: seq<T>, r: seq<T>, x: T, cmp: (T, T) -> int)
    requires Equals(m, x, cmp) == Equals(p, x, cmp) + Equals(q, x, cmp) && Equals(r, x, cmp) == Equals(rest, x, cmp)
    ensures Equals(m + r, x, cmp) == Equals(p + q + rest, x, cmp)
  {
    EqualsConcat(m, r, x, cmp);
    EqualsConcat(p, q, x, cmp);
    EqualsConcat(p + q, rest, x, cmp);
  }

  lemma RunsNext<T>(s: seq<T>, a: nat, n: nat, cmp: (T, T) -> int)
    requires a < |s| && n > 0 && RunsSorted(s, a, n, cmp)
    ensures
      var mid := Min(a + n, |s|);
      var end := Min(mid + n, |s|);
      SortedBy(s[a..mid], cmp) && SortedBy(s[mid..end], cmp) && RunsSorted(s, end, n, cmp)
  {
    assert RunsSorted(s, a + n, n, cmp);
    assert a + n < |s| ==> RunsSorted(s, a + n + n, n, cmp);
  }

  /** The same runs, found in a longer sequence. */
  lemma {:induction false} RunsShift<T>(m: seq<T>, s: seq<T>, a: nat, n: nat, cmp: (T, T) -> int)
    requires n > 0 && RunsSorted(s, a, n, cmp)
    ensures RunsSorted(m + s, |m| + a, n, cmp)
    decreases |s| - a
  {
    if a < |s| {
      assert (m + s)[|m| + a..Min(|m| + a + n, |m + s|)] == s[a..Min(a + n, |s|)];
      RunsShift(m, s, a + n, n, cmp);
    }
  }

  lemma RunsCons<T>(m: seq<T>, rest: seq<T>, n: nat, cmp: (T, T) -> int)
    requires n > 0 && SortedBy(m, cmp) && RunsSorted(rest, 0, n, cmp) && |m| <= n && (rest == [] || |m| == n)
    ensures RunsSorted(m + rest, 0, n, cmp)
  {
    assert (m + rest)[0..Min(n, |m + rest|)] == m;
    if |m| == n {
      RunsShift(m, rest, 0, n, cmp);
    }
  }

  lemma {:induction false} PassDoubles<T(!new)>(s: seq<T>, a: nat, n: nat, cmp: (T, T) -> int)
    requires TotalPreorder(cmp) && a <= |s| && n > 0 && RunsSorted(s, a, n, cmp)
    ensures RunsSorted(Pass(s, a, n, cmp), 0, 2 * n, cmp)
    decreases |s| - a
  {
    if a < |s| {
      var mid := Min(a + n, |s|);
      var end := Min(mid + n, |s|);
      var p, q := s[a..mid], s[mid..end];
      RunsNext(s, a, n, cmp);
      PassDoubles(s, end, n, cmp);
      MergeSorted(p, q, cmp);
      MergeLength(p, q, cmp);
      PassLength(s, end, n, cmp);
      RunsCons(Merge(p, q, cmp), Pass(s, end, n, cmp), 2 * n, cmp);
    }
  }

  lemma {:induction false} UnitRuns<T>(s: seq<T>, a: nat, cmp: (T, T) -> int)
    ensures RunsSorted(s, a, 1, cmp)
    decreases |s| - a
  {
    if a < |s| {
      UnitRuns(s, a + 1, cmp);
    }
  }

  // ---------------------------------------------------------------- the whole sort

  lemma {:induction false} PassesSort<T(!new)>(s: seq<T>, n: nat, cmp: (T, T) -> int)
    requires TotalPreorder(cmp) && n > 0 && RunsSorted(s, 0, n, cmp)
    ensures StableSort(s, Passes(s, n, cmp), cmp)
    decreases |s| - n
  {
    var t := Pass(s, 0, n, cmp);
    PassLength(s, 0, n, cmp);
    PassDoubles(s, 0, n, cmp);
    assert s[0..] == s;
    forall x ensures Equals(t, x, cmp) == Equals(s, x, cmp) {
      PassStable(s, 0, n, x, cmp);
    }
    if |s| <= 2 * n {
      assert t[0..Min(2 * n, |t|)] == t;
    } else {
      PassesSort(t, 2 * n, cmp);
      forall x ensures Equals(Passes(s, n, cmp), x, cmp) == Equals(s, x, cmp) {
        assert Equals(Passes(t, 2 * n, cmp), x, cmp) == Equals(t, x, cmp);
      }
    }
  }

  /** Starting with runs of one element, the passes are a stable sort. */
  lemma SortIsStableSort<T(!new)>(s: seq<T>, cmp: (T, T) -> int)
    requires TotalPreorder(cmp)
    ensures StableSort(s, Passes(s, 1, cmp), cmp) && multiset(Passes(s, 1, cmp)) == multiset(s)
  {
    UnitRuns(s, 0, cmp);
    PassesSort(s, 1, cmp);
    StableSortPermutes(s, Passes(s, 1, cmp), cmp);
  }
}

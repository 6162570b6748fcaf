/** `table.sort` (luajit/lib_table.c): a quicksort in place, under any comparator.  The comparator
    may answer differently each time it is asked. */
module TableSort {
  import opened Bits

  // ---------------------------------------------------------------- permutations of a range

  /** t is s with its elements from l to u rearranged. */
  ghost predicate Perm<V>(s: seq<V>, t: seq<V>, l: int, u: int) {
    && |s| == |t| && 0 <= l <= u + 1 <= |s|
    && multiset(s[l..u + 1]) == multiset(t[l..u + 1])
    && forall k :: (0 <= k < l || u < k < |s|) ==> t[k] == s[k]
  }

  lemma PermRefl<V>(s: seq<V>, l: int, u: int)
    requires 0 <= l <= u + 1 <= |s|
    ensures Perm(s, s, l, u)
  {}

  lemma PermTrans<V>(s: seq<V>, t: seq<V>, r: seq<V>, l: int, u: int)
    requires Perm(s, t, l, u) && Perm(t, r, l, u)
    ensures Perm(s, r, l, u)
  {}

  /** Every element of the rearranged range comes from the range. */
  lemma PermOrigin<V>(s: seq<V>, t: seq<V>, l: int, u: int, k: int) returns (j: int)
    requires Perm(s, t, l, u) && l <= k <= u
    ensures l <= j <= u && s[j] == t[k]
  {
    assert t[l..u + 1][k - l] in multiset(t[l..u + 1]);
    assert t[k] in s[l..u + 1];
    var i :| 0 <= i < |s[l..u + 1]| && s[l..u + 1][i] == t[k];
    j := l + i;
  }

  lemma PermWiden<V>(s: seq<V>, t: seq<V>, l: int, u: int, low: int, high: int)
    requires Perm(s, t, l, u) && 0 <= low <= l && u <= high < |s|
    ensures Perm(s, t, low, high)
  {
    assert s[low..high + 1] == s[low..l] + s[l..u + 1] + s[u + 1..high + 1];
    assert t[low..high + 1] == t[low..l] + t[l..u + 1] + t[u + 1..high + 1];
    assert s[low..l] == t[low..l] && s[u + 1..high + 1] == t[u + 1..high + 1];
  }

  lemma PermSwap<V>(s: seq<V>, i: int, j: int, l: int, u: int)
    requires 0 <= l <= i <= u < |s| && l <= j <= u
    ensures Perm(s, s[i := s[j]][j := s[i]], l, u)
  {
    var t := s[i := s[j]][j := s[i]];
    var p, q := s[l..u + 1], t[l..u + 1];
    assert q == p[i - l := p[j - l]][j - l := p[i - l]];
  }

  // ---------------------------------------------------------------- orders

  ghost predicate StrictWeak<V(!new)>(less: (V, V) -> bool) {
    && (forall x :: !less(x, x))
    && (forall x, y, z :: less(x, y) && less(y, z) ==> less(x, z))
    && (forall x, y, z :: less(x, z) ==> less(x, y) || less(y, z))
  }

  /** The pair of values at p < q is in order. */
  predicate Ordered<V>(less: (V, V) -> bool, s: seq<V>, p: int, q: int)
    requires 0 <= p < |s| && 0 <= q < |s|
  {
    !less(s[q], s[p])
  }

  ghost predicate SortedRange<V>(less: (V, V) -> bool, s: seq<V>, l: int, u: int)
    requires 0 <= l && u < |s|
  {
    forall p, q :: l <= p < q <= u ==> Ordered(less, s, p, q)
  }

  /** All pairs of which one member lies outside of l..u are in order. */
  ghost predicate Settled<V>(less: (V, V) -> bool, s: seq<V>, l0: int, u0: int, l: int, u: int)
    requires 0 <= l0 && u0 < |s|
  {
    forall p, q :: l0 <= p < q <= u0 && (p < l || q > u) ==> Ordered(less, s, p, q)
  }

  /** Nothing up to i - 1 is above s[i], and nothing from i + 1 on is below it. */
  ghost predicate Split<V>(less: (V, V) -> bool, s: seq<V>, l: int, i: int, u: int)
    requires 0 <= l && u < |s|
  {
    l <= i <= u && (forall k :: l <= k < i ==> Ordered(less, s, k, i)) && (forall k :: i < k <= u ==> Ordered(less, s, i, k))
  }

  /** Nothing from l to i is above p, nothing from j to u is below it. */
  ghost predicate Bounds<V>(less: (V, V) -> bool, s: seq<V>, l: int, i: int, j: int, u: int, p: V)
    requires 0 <= l && u < |s|
  {
    && (forall k :: l <= k <= i && k <= u ==> !less(p, s[k]))
    && (forall k :: j <= k <= u && l <= k ==> !less(s[k], p))
  }

  /** The pivot moves between the two parts. */
  lemma SplitAtPivot<V>(less: (V, V) -> bool, s: seq<V>, t: seq<V>, l: int, i: int, u: int, p: V)
    requires 0 <= l < i < u < |s| == |t| && Bounds(less, s, l, i - 1, i, u, p) && s[u - 1] == p
    requires t[i] == p && t[u - 1] == s[i] && forall k :: 0 <= k < |s| && k != i && k != u - 1 ==> t[k] == s[k]
    ensures Split(less, t, l, i, u)
  {}

  /** Rearranging l..u does not unsettle the rest. */
  lemma SettledPerm<V>(less: (V, V) -> bool, s: seq<V>, t: seq<V>, l0: int, u0: int, l: int, u: int)
    requires 0 <= l0 <= l && u <= u0 < |s| && Perm(s, t, l, u) && Settled(less, s, l0, u0, l, u)
    ensures Settled(less, t, l0, u0, l, u)
  {
    forall p, q | l0 <= p < q <= u0 && (p < l || q > u)
      ensures Ordered(less, t, p, q)
    {
      var p1, q1 := p, q;
      if l <= p <= u { p1 := PermOrigin(s, t, l, u, p); }
      if l <= q <= u { q1 := PermOrigin(s, t, l, u, q); }
      assert Ordered(less, s, p1, q1);
    }
  }

  /** After a split at i and sorting one side, only the other side is left. */
  lemma SettledSplit<V(!new)>(less: (V, V) -> bool, s: seq<V>, t: seq<V>, l0: int, u0: int, l: int, i: int, u: int, left: bool)
    requires 0 <= l0 <= l && u <= u0 < |s| && StrictWeak(less)
    requires Settled(less, s, l0, u0, l, u) && Split(less, s, l, i, u)
    requires if left then Perm(s, t, l, i - 1) && SortedRange(less, t, l, i - 1)
             else Perm(s, t, i + 1, u) && SortedRange(less, t, i + 1, u)
    ensures if left then Settled(less, t, l0, u0, i + 1, u) else Settled(less, t, l0, u0, l, i - 1)
  {
    var low, high := if left then l else i + 1, if left then i - 1 else u;
    PermWiden(s, t, low, high, l, u);
    SettledPerm(less, s, t, l0, u0, l, u);
    forall p, q | l0 <= p < q <= u0 && (if left then p < i + 1 || q > u else p < l || q > i - 1)
      ensures Ordered(less, t, p, q)
    {
      if p < l || q > u {
      } else if low <= p && q <= high {
      } else {
        var p1, q1 := p, q;
        if low <= p <= high { p1 := PermOrigin(s, t, low, high, p); }
        if low <= q <= high { q1 := PermOrigin(s, t, low, high, q); }
        assert p1 != i ==> Ordered(less, s, p1, i);
        assert q1 != i ==> Ordered(less, s, i, q1);
      }
    }
  }

  /** Number of elements from l to u, or 1 if there are none. */
  function Size(l: int, u: int): nat { if l <= u then u - l + 1 else 1 }

  class Sorter<V(!new, ==)> {
    const lt: (nat, V, V) -> bool    // what the comparator answers, each time it is asked
    var clock: nat
    const a: array<V>                // the table; index 0 is not used
    ghost const less: (V, V) -> bool

    constructor (lt: (nat, V, V) -> bool, a: array<V>, ghost less: (V, V) -> bool)
      ensures this.lt == lt && this.a == a && this.less == less
    {
      this.lt, this.a, clock, this.less := lt, a, 0, less;
    }

    /** The comparator is consistent with a strict weak order. */
    ghost predicate Follows() {
      StrictWeak(less) && forall t, x, y :: lt(t, x, y) == less(x, y)
    }

    /** `sort_comp`. */
    method SortComp(x: V, y: V) returns (res: bool)
      modifies this`clock
      ensures Follows() ==> res == less(x, y)
    {
      res := lt(clock, x, y);
      clock := clock + 1;
    }

    /** `set2` after two values have been read. */
    method Swap(i: int, j: int, ghost l: int, ghost u: int)
      requires 0 <= l <= i <= u < a.Length && l <= j <= u
      modifies a
      ensures a[i] == old(a[j]) && a[j] == old(a[i])
      ensures forall k :: 0 <= k < a.Length && k != i && k != j ==> a[k] == old(a[k])
      ensures Perm(old(a[..]), a[..], l, u)
    {
      a[i], a[j] := a[j], a[i];
      PermSwap(old(a[..]), i, j, l, u);
    }

    /** Sorts a[l], a[i] and a[u]. */
    method MedianOfThree(l: int, u: int) returns (i: int)
      requires 0 <= l < u < a.Length
      modifies a, this`clock
      ensures Perm(old(a[..]), a[..], l, u) && (if u - l == 1 then i == l else l < i < u && i == (l + u) / 2)
      ensures Follows() ==> !less(a[i], a[l]) && !less(a[u], a[i]) && !less(a[u], a[l])
      ensures Follows() && u - l <= 2 ==> SortedRange(less, a[..], l, u)
    {
      hide Perm;
      PermRefl(a[..], l, u);
      ghost var s0 := a[..];
      var c := SortComp(a[u], a[l]);
      if c { Swap(l, u, l, u); }
      i := l;
      if u - l == 1 { return; }
      i := (l + u) / 2;
      ghost var s1 := a[..];
      PlaceMiddle(l, i, u);
      PermTrans(s0, s1, a[..], l, u);
    }

    /** The second part of `MedianOfThree`: a[l] and a[u] are in order. */
    method PlaceMiddle(l: int, i: int, u: int)
      requires 0 <= l < i < u < a.Length
      requires Follows() ==> !less(a[u], a[l])
      modifies a, this`clock
      ensures Perm(old(a[..]), a[..], l, u)
      ensures Follows() ==> !less(a[i], a[l]) && !less(a[u], a[i]) && !less(a[u], a[l])
    {
      hide Perm;
      var c := SortComp(a[i], a[l]);
      if c {
        Swap(i, l, l, u);
      } else {
        PermRefl(a[..], l, u);
        c := SortComp(a[u], a[i]);
        if c { Swap(i, u, l, u); }
      }
    }

    /** Repeats ++i until a[i] >= p. */
    method ScanUp(i0: int, u: int, p: V) returns (err: bool, i: int)
      requires 0 <= i0 < u < a.Length
      modifies this`clock
      ensures i0 < i <= u
      ensures Follows() ==> (err ==> less(a[u], p)) && forall k :: i0 < k < i ==> less(a[k], p)
      ensures Follows() && !err ==> !less(a[i], p)
    {
      i := i0 + 1;
      var c := SortComp(a[i], p);
      while c
        invariant i0 < i <= u
        invariant Follows() ==> c == less(a[i], p) && forall k :: i0 < k < i ==> less(a[k], p)
        decreases u - i, c
      {
        if i >= u { return true, i; }
        i := i + 1;
        c := SortComp(a[i], p);
      }
      err := false;
    }

    /** Repeats --j until a[j] <= p. */
    method ScanDown(j0: int, l: int, p: V) returns (err: bool, j: int)
      requires 0 <= l < j0 < a.Length
      modifies this`clock
      ensures l <= j < j0
      ensures Follows() ==> (err ==> less(p, a[l])) && forall k :: j < k < j0 ==> less(p, a[k])
      ensures Follows() && !err ==> !less(p, a[j])
    {
      j := j0 - 1;
      var c := SortComp(p, a[j]);
      while c
        invariant l <= j < j0
        invariant Follows() ==> c == less(p, a[j]) && forall k :: j < k < j0 ==> less(p, a[k])
        decreases j - l, c
      {
        if j <= l { return true, j; }
        j := j - 1;
        c := SortComp(p, a[j]);
      }
      err := false;
    }

    /** The inner loops: partitions l..u around the pivot p, which is a[u - 1].  An inconsistent
        comparator is noticed when an index leaves the range. */
    method Partition(l: int, u: int, p: V) returns (err: bool, i: int)
      requires 0 <= l && l + 2 < u < a.Length && p == a[u - 1]
      requires Follows() ==> !less(p, a[l]) && !less(a[u], p)
      modifies a, this`clock
      ensures Perm(old(a[..]), a[..], l, u) && l < i <= u
      ensures Follows() ==> !err && i < u && a[u - 1] == p && Bounds(less, a[..], l, i - 1, i, u, p)
    {
      hide Perm, Follows;
      ghost var s0 := a[..];
      PermRefl(s0, l, u);
      Irreflexive(p);
      i, err := l, false;
      var j := u - 1;
      while true
        invariant l <= i <= j < u && (i == l ==> j == u - 1) && (i > l ==> j < u - 1)
        invariant Perm(s0, a[..], l, u)
        invariant Follows() ==> a[u - 1] == p && Bounds(less, a[..], l, i, j, u, p)
        decreases j - i
      {
        ghost var s, i0, j0 := a[..], i, j;
        err, i := ScanUp(i, u, p);
        if err { return; }
        err, j := ScanDown(j, l, p);
        if err { return; }
        if j < i {
          ScansMet(l, i0, i, j, j0, u, p);
          break;
        }
        Swap(i, j, l, u);
        PermTrans(s0, s, a[..], l, u);
      }
    }

    lemma Irreflexive(p: V)
      ensures Follows() ==> !less(p, p)
      ensures Follows() ==> forall x, y :: less(x, y) ==> !less(y, x)
    {}

    lemma ScansMet(l: int, i0: int, i: int, j: int, j0: int, u: int, p: V)
      requires 0 <= l <= i0 <= j0 < u < a.Length && i0 < i && l <= j < j0 && j < i
      requires Follows() ==> Bounds(less, a[..], l, i0, j0, u, p) && a[u - 1] == p
      requires Follows() ==> i <= u - 1 && (forall k :: i0 < k < i ==> less(a[k], p)) && !less(a[i], p)
      requires Follows() ==> forall k :: j < k < j0 ==> less(p, a[k])
      ensures Follows() ==> Bounds(less, a[..], l, i - 1, i, u, p)
    {
      Irreflexive(p);
    }

    /** What holds between the rounds: the table is rearranged from l0 to u0, and only l..u is left
        to be sorted. */
    ghost predicate Round(s0: seq<V>, s: seq<V>, l0: int, u0: int, l: int, u: int) {
      && 0 <= l0 <= l <= u + 1 && u <= u0 < |s| && Perm(s0, s, l0, u0)
      && (Follows() ==> Settled(less, s, l0, u0, l, u))
    }

    lemma RoundStep(s0: seq<V>, s: seq<V>, t: seq<V>, l0: int, u0: int, l: int, u: int)
      requires Round(s0, s, l0, u0, l, u) && Perm(s, t, l, u)
      ensures Round(s0, t, l0, u0, l, u)
    {
      hide Perm, Settled, Follows;
      PermWiden(s, t, l, u, l0, u0);
      PermTrans(s0, s, t, l0, u0);
      if Follows() { SettledPerm(less, s, t, l0, u0, l, u); }
    }

    lemma RoundDone(s0: seq<V>, s: seq<V>, l0: int, u0: int, l: int, u: int)
      requires Round(s0, s, l0, u0, l, u) && (l >= u || (u - l <= 2 && (Follows() ==> SortedRange(less, s, l, u))))
      ensures Follows() ==> SortedRange(less, s, l0, u0)
    {}

    lemma RoundSplit(s0: seq<V>, s: seq<V>, t: seq<V>, l0: int, u0: int, l: int, i: int, u: int, left: bool)
      requires Round(s0, s, l0, u0, l, u) && l <= i <= u && (Follows() ==> Split(less, s, l, i, u))
      requires var low, high := if left then l else i + 1, if left then i - 1 else u;
               Perm(s, t, low, high) && (Follows() ==> SortedRange(less, t, low, high))
      ensures if left then Round(s0, t, l0, u0, i + 1, u) else Round(s0, t, l0, u0, l, i - 1)
    {
      hide Perm, Settled, Split, SortedRange, StrictWeak;
      var low, high := if left then l else i + 1, if left then i - 1 else u;
      assert |s| == |t| by { PermLength(s, t, low, high); }
      PermWiden(s, t, low, high, l, u);
      RoundStep(s0, s, t, l0, u0, l, u);
      if Follows() { SettledSplit(less, s, t, l0, u0, l, i, u, left); }
    }

    lemma PermLength(s: seq<V>, t: seq<V>, l: int, u: int)
      requires Perm(s, t, l, u)
      ensures |s| == |t|
    {}

    /** The part of a round of `auxsort` before the recursion: sorts up to three elements, or
        splits the range at i. */
    method SplitRange(l: int, u: int) returns (done: bool, err: bool, i: int)
      requires 0 <= l < u < a.Length
      modifies a, this`clock
      ensures Perm(old(a[..]), a[..], l, u) && (done <==> u - l <= 2) && (done ==> !err) && (!done ==> l < i <= u)
      ensures Follows() && done ==> SortedRange(less, a[..], l, u)
      ensures Follows() && !done ==> !err && Split(less, a[..], l, i, u)
    {
      hide Perm, Follows, Split, Bounds;
      ghost var s0 := a[..];
      err := false;
      i := MedianOfThree(l, u);
      done := u - l <= 2;
      if done { return; }
      ghost var s1 := a[..];
      var p := a[i];
      Swap(i, u - 1, l, u);
      PermTrans(s0, s1, a[..], l, u);
      ghost var s2 := a[..];
      err, i := Partition(l, u, p);
      PermTrans(s0, s2, a[..], l, u);
      if err { return; }
      ghost var s3 := a[..];
      Swap(u - 1, i, l, u);
      PermTrans(s0, s3, a[..], l, u);
      if Follows() { SplitAtPivot(less, s3, a[..], l, i, u, p); }
    }

    /** `auxsort`.  Only the smaller part is sorted by a recursive call, so that depth, the number
        of nested calls, is at most the binary logarithm of the number of elements. */
    method AuxSort(l0: int, u0: int) returns (err: bool, depth: nat)
      requires 0 <= l0 <= u0 + 1 <= a.Length
      modifies a, this`clock
      ensures Perm(old(a[..]), a[..], l0, u0) && Pow2(depth) <= Size(l0, u0)
      ensures Follows() ==> !err && SortedRange(less, a[..], l0, u0)
      decreases u0 - l0 + 1
    {
      hide Perm, Follows, SortedRange, Split, Round;
      var l, u := l0, u0;
      ghost var s0 := a[..];
      err, depth := false, 0;
      RoundStart(s0, l0, u0);
      while l < u
        invariant l0 <= l <= u + 1 && u <= u0 && !err && Round(s0, a[..], l0, u0, l, u)
        invariant Pow2(depth) <= Size(l0, u0)
        decreases u - l
      {
        ghost var s := a[..];
        var done, i;
        done, err, i := SplitRange(l, u);
        RoundStep(s0, s, a[..], l0, u0, l, u);
        if done || err { break; }
        s := a[..];
        var j, d;
        ghost var left, m, lm, um := i - l < u - i, i, l, u;
        if i - l < u - i {
          j, i, l := l, i - 1, i + 1;
        } else {
          j, i, u := i + 1, u, i - 1;
        }
        err, d := AuxSort(j, i);
        depth := if d + 1 > depth then d + 1 else depth;
        PermWiden(s, a[..], j, i, lm, um);
        RoundStep(s0, s, a[..], l0, u0, lm, um);
        if err {
          RoundPerm(s0, a[..], l0, u0, lm, um);
          return;
        }
        RoundSplit(s0, s, a[..], l0, u0, lm, m, um, left);
      }
      RoundPerm(s0, a[..], l0, u0, l, u);
      if !err { RoundDone(s0, a[..], l0, u0, l, u); }
    }

    lemma RoundStart(s: seq<V>, l: int, u: int)
      requires 0 <= l <= u + 1 <= |s|
      ensures Round(s, s, l, u, l, u)
    {}

    lemma RoundPerm(s0: seq<V>, s: seq<V>, l0: int, u0: int, l: int, u: int)
      requires Round(s0, s, l0, u0, l, u)
      ensures Perm(s0, s, l0, u0)
    {}
  }

  /** `table_sort` of the values 1..n of a table: whatever the comparator answers, the result is a
      permutation or the order error is raised with the values still all there, and no more than
      log2(n) calls are nested.  A comparator that follows a strict weak order gets a sorted
      table, and no error. */
  method SortTable<V(!new, ==)>(lt: (nat, V, V) -> bool, values: seq<V>, ghost less: (V, V) -> bool)
    returns (err: bool, r: seq<V>, depth: nat)
    ensures multiset(r) == multiset(values) && Pow2(depth) <= Size(1, |values|)
    ensures StrictWeak(less) && (forall t, x, y :: lt(t, x, y) == less(x, y)) ==>
              !err && SortedRange(less, r, 0, |r| - 1)
  {
    if |values| == 0 { return false, [], 0; }
    var n := |values|;
    var a := new V[n + 1](i => if 1 <= i <= n then values[i - 1] else values[0]);
    var sorter := new Sorter(lt, a, less);
    assert a[1..n + 1] == values;
    err, depth := sorter.AuxSort(1, n);
    r := a[1..n + 1];
    if sorter.Follows() {
      forall p, q | 0 <= p < q < n
        ensures Ordered(less, r, p, q)
      {
        assert Ordered(less, a[..], p + 1, q + 1);
      }
    }
  }
}

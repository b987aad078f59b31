/** table.sort: quicksort in place (ltablib.c). Positions count from 1 in Lua and from 0 here. */
module Sort {
  import opened Base

  type Order<!T> = (T, T) -> bool

  /** A strict weak order: what sort needs of its comparison. */
  ghost predicate StrictWeak<T(!new)>(lt: Order<T>)
  {
    && (forall x :: !lt(x, x))
    && (forall x, y, z :: lt(x, z) ==> lt(x, y) || lt(y, z))
    && (forall x, y :: lt(x, y) ==> !lt(y, x))
  }

  /** `x` may stand before `y`. */
  predicate Le<T>(lt: Order<T>, x: T, y: T) { !lt(y, x) }

  lemma LeTrans<T(!new)>(lt: Order<T>, x: T, y: T, z: T)
    requires StrictWeak(lt) && Le(lt, x, y) && Le(lt, y, z)
    ensures Le(lt, x, z)
  {
  }

  ghost predicate SortedIn<T(!new)>(lt: Order<T>, a: seq<T>, l: int, u: int)
  {
    forall i, j :: 0 <= l <= i < j <= u < |a| ==> Le(lt, a[i], a[j])
  }

  /** Rearranged between `l` and `u`, and the same elsewhere. */
  ghost predicate Rearranged<T>(a: seq<T>, b: seq<T>, l: int, u: int)
  {
    && |a| == |b| && 0 <= l && u < |a|
    && (forall i :: 0 <= i < |a| && (i < l || i > u) ==> b[i] == a[i])
    && (l <= u ==> multiset(b[l..u + 1]) == multiset(a[l..u + 1]))
  }

  function Swap<T>(a: seq<T>, i: nat, j: nat): (b: seq<T>)
    requires i < |a| && j < |a|
    ensures |b| == |a| && b[i] == a[j] && b[j] == a[i] && forall k :: 0 <= k < |a| && k != i && k != j ==> b[k] == a[k]
  {
    a[i := a[j]][j := a[i]]
  }

  lemma SwapMultiset<T>(a: seq<T>, i: nat, j: nat)
    requires i < |a| && j < |a|
    ensures multiset(Swap(a, i, j)) == multiset(a)
  {
  }

  lemma SwapRearranges<T>(a: seq<T>, i: nat, j: nat, l: int, u: int)
    requires 0 <= l <= i <= u < |a| && l <= j <= u
    ensures Rearranged(a, Swap(a, i, j), l, u)
  {
    SwapMultiset(a[l..u + 1], i - l, j - l);
    assert Swap(a, i, j)[l..u + 1] == Swap(a[l..u + 1], i - l, j - l);
  }

  lemma RearrangedTrans<T>(a: seq<T>, b: seq<T>, c: seq<T>, l: int, u: int)
    requires Rearranged(a, b, l, u) && Rearranged(b, c, l, u)
    ensures Rearranged(a, c, l, u)
  {
  }

  /** A rearrangement of a part is one of the whole. */
  lemma RearrangedWider<T>(a: seq<T>, b: seq<T>, l: int, u: int, l': int, u': int)
    requires Rearranged(a, b, l, u) && 0 <= l' <= l && u <= u' < |a| && l <= u
    ensures Rearranged(a, b, l', u')
  {
    assert a[l'..u' + 1] == a[l'..l] + a[l..u + 1] + a[u + 1..u' + 1];
    assert b[l'..u' + 1] == b[l'..l] + b[l..u + 1] + b[u + 1..u' + 1];
    assert b[l'..l] == a[l'..l] && b[u + 1..u' + 1] == a[u + 1..u' + 1];
  }

  /** An element of a rearrangement was there before. */
  lemma WasThere<T>(a: seq<T>, b: seq<T>, l: int, u: int, i: int) returns (j: int)
    requires Rearranged(a, b, l, u) && l <= i <= u
    ensures l <= j <= u && a[j] == b[i]
  {
    assert b[l..u + 1][i - l] == b[i];
    assert b[i] in multiset(b[l..u + 1]);
    assert b[i] in a[l..u + 1];
    var k :| 0 <= k < |a[l..u + 1]| && a[l..u + 1][k] == b[i];
    j := l + k;
  }

  /** Up to `i` nothing is greater than the pivot, from `j` on nothing is less. */
  ghost predicate Around<T(!new)>(lt: Order<T>, a: seq<T>, pivot: T, l: int, i: int, j: int, u: int)
  {
    && 0 <= l && u < |a| && (forall k :: l <= k <= i && k < |a| ==> Le(lt, a[k], pivot))
    && forall k :: 0 <= j <= k <= u ==> Le(lt, pivot, a[k])
  }

  lemma AroundSwapped<T(!new)>(lt: Order<T>, a: seq<T>, pivot: T, l: int, i: nat, j: nat, u: int)
    requires 0 <= l <= i <= j <= u < |a| && Around(lt, a, pivot, l, i - 1, j + 1, u) && Le(lt, pivot, a[i])
    requires Le(lt, a[j], pivot)
    ensures Around(lt, Swap(a, i, j), pivot, l, i, j, u)
  {
  }

  /** The pivot takes its place between the two parts. */
  lemma PivotPlaced<T(!new)>(lt: Order<T>, a: seq<T>, pivot: T, l: int, i: nat, j: int, u: int)
    requires 0 <= l < i < u < |a| && j < i && Around(lt, a, pivot, l, i - 1, j + 1, u) && -1 <= j && a[u - 1] == pivot
    ensures var b := Swap(a, u - 1, i);
      (forall k :: l <= k < i ==> Le(lt, b[k], b[i])) && forall k :: i < k <= u ==> Le(lt, b[i], b[k])
  {
  }

  /** In a sort from `l0` to `u0`, all but the part from `l` to `u` is in place. */
  ghost predicate Placed<T(!new)>(lt: Order<T>, a: seq<T>, l0: int, u0: int, l: int, u: int)
  {
    forall i, j :: 0 <= l0 <= i < j <= u0 < |a| && (i < l || j > u) ==> Le(lt, a[i], a[j])
  }

  /** Rearranging the part that is left does not matter to the rest. */
  lemma PlacedKept<T(!new)>(lt: Order<T>, a: seq<T>, b: seq<T>, l0: int, u0: int, l: int, u: int)
    requires Placed(lt, a, l0, u0, l, u) && Rearranged(a, b, l, u) && 0 <= l0 <= l && u <= u0 < |a|
    ensures Placed(lt, b, l0, u0, l, u)
  {
    forall i, j | 0 <= l0 <= i < j <= u0 < |b| && (i < l || j > u) ensures Le(lt, b[i], b[j]) {
      if l <= j <= u {
        var k := WasThere(a, b, l, u, j);
      } else if l <= i <= u {
        var k := WasThere(a, b, l, u, i);
      }
    }
  }

  /** The pivot at `p` has nothing greater before it and nothing less after it. */
  ghost predicate Pivot<T(!new)>(lt: Order<T>, a: seq<T>, l: int, u: int, p: int)
  {
    && 0 <= l <= p <= u < |a|
    && (forall k :: l <= k < p ==> Le(lt, a[k], a[p])) && forall k :: p < k <= u ==> Le(lt, a[p], a[k])
  }

  /** Once the part before the pivot is sorted, only the part after it is left. */
  lemma PlacedLeft<T(!new)>(lt: Order<T>, a: seq<T>, b: seq<T>, l0: int, u0: int, l: int, u: int, p: int)
    requires StrictWeak(lt) && 0 <= l0 <= l && u <= u0 < |a| && Placed(lt, a, l0, u0, l, u) && Pivot(lt, a, l, u, p)
    requires Rearranged(a, b, l, p - 1) && SortedIn(lt, b, l, p - 1) && Placed(lt, b, l0, u0, l, u)
    ensures Placed(lt, b, l0, u0, p + 1, u)
  {
    forall i, j | 0 <= l0 <= i < j <= u0 < |b| && (i < p + 1 || j > u) ensures Le(lt, b[i], b[j]) {
      if l <= i < p && p <= j <= u {
        var k := WasThere(a, b, l, p - 1, i);
        if j > p { LeTrans(lt, a[k], a[p], a[j]); }
      }
    }
  }

  lemma PlacedRight<T(!new)>(lt: Order<T>, a: seq<T>, b: seq<T>, l0: int, u0: int, l: int, u: int, p: int)
    requires StrictWeak(lt) && 0 <= l0 <= l && u <= u0 < |a| && Placed(lt, a, l0, u0, l, u) && Pivot(lt, a, l, u, p)
    requires Rearranged(a, b, p + 1, u) && SortedIn(lt, b, p + 1, u) && Placed(lt, b, l0, u0, l, u)
    ensures Placed(lt, b, l0, u0, l, p - 1)
  {
    forall i, j | 0 <= l0 <= i < j <= u0 < |b| && (i < l || j > p - 1) ensures Le(lt, b[i], b[j]) {
      if l <= i <= p && p < j <= u {
        var k := WasThere(a, b, p + 1, u, j);
        if i < p { LeTrans(lt, a[i], a[p], a[k]); }
      }
    }
  }

  /** A part of a rearranged part. */
  lemma PartRearranged<T>(a: seq<T>, b: seq<T>, l: int, u: int, l': int, u': int)
    requires Rearranged(a, b, l', u') && 0 <= l <= l' && u' <= u < |a| && -1 <= u'
    ensures Rearranged(a, b, l, u)
  {
    if l' <= u' {
      RearrangedWider(a, b, l', u', l, u);
    } else if l <= u {
      assert b[l..u + 1] == a[l..u + 1];
    }
  }

  class Table<T(!new)> {
    var a: seq<T>

    /** set2 after two reads: the elements change places. */
    method Swap2(i: nat, j: nat, ghost l: int, ghost u: int)
      requires 0 <= l <= i <= u < |a| && l <= j <= u
      modifies this
      ensures |a| == |old(a)| && a == Swap(old(a), i, j) && Rearranged(old(a), a, l, u)
    {
      SwapRearranges(a, i, j, l, u);
      a := Swap(a, i, j);
    }

    /** The first, the middle and the last element are put in order. */
    method MedianOfThree(lt: Order<T>, l: nat, u: nat) returns (i: nat)
      requires StrictWeak(lt) && l + 2 <= u < |a|
      modifies this
      ensures |a| == |old(a)| && Rearranged(old(a), a, l, u) && i == (l + u) / 2 && Le(lt, a[l], a[i])
      ensures Le(lt, a[i], a[u])
    {
      hide Rearranged;
      ghost var a0 := a;
      Unchanged(a, l, u);
      if lt(a[u], a[l]) { Swap2(l, u, l, u); }
      i := (l + u) / 2;
      ghost var a1 := a;
      Unchanged(a, l, u);
      if lt(a[i], a[l]) {
        Swap2(i, l, l, u);
      } else if lt(a[u], a[i]) {
        Swap2(i, u, l, u);
      }
      RearrangedTrans(a0, a1, a, l, u);
    }

    /** Two or three elements. */
    method FewElements(lt: Order<T>, l: nat, u: nat)
      requires StrictWeak(lt) && l < u <= l + 2 && u < |a|
      modifies this
      ensures |a| == |old(a)| && Rearranged(old(a), a, l, u) && SortedIn(lt, a, l, u)
    {
      if u - l == 1 {
        Unchanged(a, l, u);
        if lt(a[u], a[l]) { Swap2(l, u, l, u); }
      } else {
        var i := MedianOfThree(lt, l, u);
        LeTrans(lt, a[l], a[i], a[u]);
      }
    }

    /** The scan for an element that is not less than the pivot. */
    method ScanUp(lt: Order<T>, l: nat, i0: nat, j: nat, u: nat, pivot: T) returns (i: nat)
      requires StrictWeak(lt) && l <= i0 <= j < u < |a| && (i0 == j ==> j + 1 < u)
      requires Around(lt, a, pivot, l, i0, j, u)
      ensures i0 < i < u && (i0 < j ==> i <= j) && Le(lt, pivot, a[i]) && forall k :: l <= k < i ==> Le(lt, a[k], pivot)
    {
      i := i0 + 1;
      while lt(a[i], pivot)
        invariant i0 < i < u && (i0 < j ==> i <= j) && (i0 == j ==> i == j + 1)
        invariant forall k :: l <= k < i ==> Le(lt, a[k], pivot)
        decreases u - i
      {
        i := i + 1;
      }
    }

    /** The scan for an element that is not greater than the pivot. */
    method ScanDown(lt: Order<T>, l: nat, i0: nat, j0: nat, u: nat, pivot: T) returns (j: nat)
      requires StrictWeak(lt) && l <= i0 <= j0 <= u < |a| && (i0 == j0 ==> l < i0)
      requires Around(lt, a, pivot, l, i0, j0, u)
      ensures l <= j < j0 && Le(lt, a[j], pivot) && forall k :: j < k <= u ==> Le(lt, pivot, a[k])
    {
      j := j0 - 1;
      while lt(pivot, a[j])
        invariant l <= j < j0 && (i0 < j0 ==> i0 <= j) && (i0 == j0 ==> j == i0 - 1)
        invariant forall k :: j < k <= u ==> Le(lt, pivot, a[k])
        decreases j
      {
        j := j - 1;
      }
    }

    /** Choice of the pivot, and partition. */
    method Split(lt: Order<T>, l: nat, u: nat) returns (i: nat)
      requires StrictWeak(lt) && l + 3 <= u < |a|
      modifies this
      ensures |a| == |old(a)| && Rearranged(old(a), a, l, u) && l < i < u && Pivot(lt, a, l, u, i)
    {
      hide Rearranged, StrictWeak;
      i := MedianOfThree(lt, l, u);
      ghost var mid := a;
      i := Partition(lt, l, u, i);
      RearrangedTrans(old(a), mid, a, l, u);
    }

    /** auxsort. The recursion is on the smaller part, so it is at most log2(n + 1) deep. */
    method AuxSort(lt: Order<T>, l0: nat, u0: int) returns (ghost depth: nat)
      requires StrictWeak(lt) && -1 <= u0 < |a| && l0 <= u0 + 1
      modifies this
      ensures |a| == |old(a)| && Rearranged(old(a), a, l0, u0) && SortedIn(lt, a, l0, u0) && Pow2(depth) <= u0 - l0 + 2
      decreases u0 + 1 - l0, 1
    {
      hide Rearranged, StrictWeak, Placed, SortedIn, Le;
      var l, u := l0, u0;
      depth := 0;
      Unchanged(a, l0, u0);
      assert Placed(lt, a, l0, u0, l0, u0) by { AllLeft(lt, a, l0, u0); }
      while l < u
        invariant l0 <= l <= u + 1 && -1 <= u <= u0 && |a| == |old(a)| && Rearranged(old(a), a, l0, u0)
        invariant Placed(lt, a, l0, u0, l, u)
        invariant Pow2(depth) <= u0 - l0 + 2
        decreases u + 1 - l
      {
        ghost var was := a;
        if u - l <= 2 {
          FewElements(lt, l, u);
          PartRearranged(was, a, l0, u0, l, u);
          RearrangedTrans(old(a), was, a, l0, u0);
          PlacedKept(lt, was, a, l0, u0, l, u);
          NothingLeft(lt, a, l0, u0, l, u);
          return;
        }
        ghost var d;
        ghost var ll, uu := l, u;
        l, u, d := SortSmaller(lt, l0, u0, l, u);
        PartRearranged(was, a, l0, u0, ll, uu);
        RearrangedTrans(old(a), was, a, l0, u0);
        depth := if d > depth then d else depth;
      }
      NothingLeft(lt, a, l0, u0, l, u);
    }

    /** Partition, and the recursive call for the smaller part; the larger part is left. */
    method SortSmaller(lt: Order<T>, ghost l0: nat, ghost u0: int, l: nat, u: int)
      returns (l': nat, u': int, ghost depth: nat)
      requires StrictWeak(lt) && l0 <= l && l + 3 <= u <= u0 < |a| && Placed(lt, a, l0, u0, l, u)
      modifies this
      ensures |a| == |old(a)| && Rearranged(old(a), a, l, u) && Placed(lt, a, l0, u0, l', u')
      ensures l <= l' <= u' + 1 && u' <= u && u' - l' < u - l && Pow2(depth) <= u - l + 2
      decreases u + 1 - l, 0
    {
      hide Rearranged, StrictWeak, Placed, SortedIn, Pivot, Le, Pow2;
      var i := Split(lt, l, u);
      PlacedKept(lt, old(a), a, l0, u0, l, u);
      ghost var part := a;
      ghost var d;
      if i - l < u - i {
        d := AuxSort(lt, l, i - 1);
        PartRearranged(part, a, l, u, l, i - 1);
        PlacedKept(lt, part, a, l0, u0, l, u);
        PlacedLeft(lt, part, a, l0, u0, l, u, i);
        Deeper(d, i - l, u - l + 1);
        l', u' := i + 1, u;
      } else {
        d := AuxSort(lt, i + 1, u);
        PartRearranged(part, a, l, u, i + 1, u);
        PlacedKept(lt, part, a, l0, u0, l, u);
        PlacedRight(lt, part, a, l0, u0, l, u, i);
        Deeper(d, u - i, u - l + 1);
        l', u' := l, i - 1;
      }
      RearrangedTrans(old(a), part, a, l, u);
      depth := d + 1;
    }

    /** sort: the elements in order, each as often as before. */
    method SortAll(lt: Order<T>)
      requires StrictWeak(lt)
      modifies this
      ensures multiset(a) == multiset(old(a)) && forall i, j :: 0 <= i < j < |a| ==> Le(lt, a[i], a[j])
    {
      var depth := AuxSort(lt, 0, |a| - 1);
      if |a| > 0 { assert a[0..|a|] == a && old(a)[0..|a|] == old(a); }
    }

    /** The partition: the pivot ends up at `i`, with nothing greater before it and nothing less
        after it. The scans stay between `l` and `u`. */
    method Partition(lt: Order<T>, l: nat, u: nat, mid: nat) returns (i: nat)
      requires StrictWeak(lt) && l + 3 <= u < |a| && l < mid < u && Le(lt, a[l], a[mid]) && Le(lt, a[mid], a[u])
      modifies this
      ensures |a| == |old(a)| && Rearranged(old(a), a, l, u) && l < i < u
      ensures (forall k :: l <= k < i ==> Le(lt, a[k], a[i])) && forall k :: i < k <= u ==> Le(lt, a[i], a[k])
    {
      hide Rearranged, StrictWeak, Around, Le;
      var pivot := a[mid];
      assert Around(lt, Swap(a, mid, u - 1), pivot, l, l, u - 1, u) by { StartAround(lt, a, l, u, mid); }
      Swap2(mid, u - 1, l, u);
      i := l;
      var j := u - 1;
      while true
        invariant l <= i <= j <= u - 1 && (i == j ==> l < i && j < u - 1) && |a| == |old(a)|
        invariant Rearranged(old(a), a, l, u) && a[u - 1] == pivot
        invariant Around(lt, a, pivot, l, i, j, u)
        decreases j - i + 1
      {
        var i' := ScanUp(lt, l, i, j, u, pivot);
        var j' := ScanDown(lt, l, i, j, u, pivot);
        assert Around(lt, a, pivot, l, i' - 1, j' + 1, u) by { AroundIntro(lt, a, pivot, l, i' - 1, j' + 1, u); }
        i, j := i', j';
        if j < i { break; }
        ghost var was := a;
        AroundSwapped(lt, a, pivot, l, i, j, u);
        Swap2(i, j, l, u);
        RearrangedTrans(old(a), was, a, l, u);
      }
      ghost var was := a;
      PivotPlaced(lt, a, pivot, l, i, j, u);
      Swap2(u - 1, i, l, u);
      RearrangedTrans(old(a), was, a, l, u);
    }
  }

  lemma AroundIntro<T(!new)>(lt: Order<T>, a: seq<T>, pivot: T, l: int, i: int, j: int, u: int)
    requires 0 <= l && i <= u < |a| && 0 <= j && (forall k :: l <= k <= i ==> Le(lt, a[k], pivot))
    requires forall k :: j <= k <= u ==> Le(lt, pivot, a[k])
    ensures Around(lt, a, pivot, l, i, j, u)
  {
  }

  lemma StartAround<T(!new)>(lt: Order<T>, a: seq<T>, l: nat, u: nat, mid: nat)
    requires StrictWeak(lt) && l + 3 <= u < |a| && l < mid < u && Le(lt, a[l], a[mid]) && Le(lt, a[mid], a[u])
    ensures Around(lt, Swap(a, mid, u - 1), a[mid], l, l, u - 1, u)
  {
    Reflexive(lt, a[mid]);
  }

  lemma AllLeft<T(!new)>(lt: Order<T>, a: seq<T>, l: int, u: int)
    ensures Placed(lt, a, l, u, l, u)
  {
  }

  lemma NothingLeft<T(!new)>(lt: Order<T>, a: seq<T>, l0: int, u0: int, l: int, u: int)
    requires Placed(lt, a, l0, u0, l, u) && 0 <= l0 <= l && u <= u0 && (l >= u || SortedIn(lt, a, l, u))
    ensures SortedIn(lt, a, l0, u0)
  {
  }

  /** One level more, over a part less than half the size. */
  lemma Deeper(d: nat, part: int, n: int)
    requires Pow2(d) <= part + 1 && 2 * part + 1 <= n
    ensures Pow2(d + 1) <= n + 1
  {
  }

  lemma Reflexive<T(!new)>(lt: Order<T>, x: T)
    requires StrictWeak(lt)
    ensures Le(lt, x, x)
  {
  }

  lemma Unchanged<T>(a: seq<T>, l: int, u: int)
    requires 0 <= l && u < |a|
    ensures Rearranged(a, a, l, u)
  {
  }
}

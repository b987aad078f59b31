/** How rehash counts the integer keys and picks the size of the array part (ltable.c). */
module TableSizes {
  import opened Base
  import opened Table

  const MAXBITS: nat := 26

  /** ceillog2: the slice (2^(lg-1), 2^lg] that `x` lies in. */
  function CeilLog2(x: nat): (lg: nat)
    requires x >= 1
    ensures Low(lg) < x <= Pow2(lg)
  {
    if x == 1 then 0 else var h := CeilLog2((x + 1) / 2); h + 1
  }

  /** The lower end of a slice. */
  function Low(lg: nat): nat { if lg == 0 then 0 else Pow2(lg - 1) }

  lemma {:induction false} Pow2Monotone(i: nat, j: nat)
    requires i <= j
    ensures Pow2(i) <= Pow2(j) && (i < j ==> Pow2(i) <= Low(j))
  {
    if i < j { Pow2Monotone(i, j - 1); }
  }

  /** The keys of one slice, and the keys up to a bound. */
  ghost function Slice(keys: set<int>, lg: nat): set<int> { set n | n in keys && Low(lg) < n <= Pow2(lg) }

  ghost function UpTo(keys: set<int>, m: int): set<int> { set n | n in keys && 1 <= n <= m }

  lemma UpToSplit(keys: set<int>, lg: nat)
    ensures |UpTo(keys, Pow2(lg))| == |UpTo(keys, Low(lg))| + |Slice(keys, lg)|
  {
    assert UpTo(keys, Pow2(lg)) == UpTo(keys, Low(lg)) + Slice(keys, lg);
  }

  /** At most `m` slots lie in 1..m. */
  lemma {:induction false} UpToBound(keys: set<int>, m: nat)
    ensures |UpTo(keys, m)| <= m
  {
    if m == 0 {
      assert UpTo(keys, 0) == {};
    } else {
      UpToBound(keys, m - 1);
      assert UpTo(keys, m) - {m} == UpTo(keys, m - 1);
    }
  }

  lemma SubsetSize(a: set<int>, b: set<int>)
    requires a <= b
    ensures |a| <= |b|
  {
    assert b == a + (b - a);
  }

  ghost predicate MoreThanHalf(keys: set<int>, i: nat) { |UpTo(keys, Pow2(i))| > Pow2(i) / 2 }

  /** The largest power of two more than half of whose slots are in use, or 0. */
  ghost predicate BestSize(keys: set<int>, size: nat)
  {
    || (size == 0 && forall i: nat :: !MoreThanHalf(keys, i))
    || (exists i: nat :: size == Pow2(i) && MoreThanHalf(keys, i) && forall j: nat :: j > i ==> !MoreThanHalf(keys, j))
  }

  /** `nums` holds the number of keys in each slice. */
  ghost predicate Counts(nums: seq<nat>, keys: set<int>)
  {
    |nums| == MAXBITS + 1 && forall lg :: 0 <= lg <= MAXBITS ==> nums[lg] == |Slice(keys, lg)|
  }

  /** An empty slice cannot carry a size: at most half of the slots lie below it. */
  lemma EmptySlice(keys: set<int>, i: nat)
    requires Slice(keys, i) == {}
    ensures !MoreThanHalf(keys, i)
  {
    UpToSplit(keys, i);
    UpToBound(keys, Low(i));
  }

  /** Beyond twice the number of keys, and beyond the last key, there is no candidate. */
  lemma NoCandidate(keys: set<int>, i: nat, j: nat)
    requires i <= j && (Pow2(i) / 2 >= |keys| || (i < j && forall n :: n in keys ==> n <= Pow2(i)))
    ensures !MoreThanHalf(keys, j)
  {
    Pow2Monotone(i, j);
    if Pow2(i) / 2 >= |keys| {
      SubsetSize(UpTo(keys, Pow2(j)), keys);
    } else {
      assert Slice(keys, j) == {};
      EmptySlice(keys, j);
    }
  }

  /** computesizes. */
  method ComputeSizes(nums: seq<nat>, narray: nat, ghost keys: set<int>) returns (size: nat, na: nat)
    requires Counts(nums, keys) && narray == |keys| && forall n :: n in keys ==> 1 <= n <= Pow2(MAXBITS)
    ensures BestSize(keys, size) && na == |UpTo(keys, size)|
  {
    hide Slice, UpTo, MoreThanHalf, BestSize, Pow2, Low;
    var a := 0;
    na := 0;
    size := 0;
    var i, twotoi := 0, 1;
    ghost var best := -1;
    FirstSlice(keys);
    while twotoi / 2 < narray
      invariant i >= 0 && twotoi == Pow2(i) && a == |UpTo(keys, Low(i))|
      invariant -1 <= best < i && (if best < 0 then size == 0 else size == Pow2(best) && MoreThanHalf(keys, best))
      invariant na == |UpTo(keys, size)| && forall j :: best < j < i ==> !MoreThanHalf(keys, j)
      decreases narray - twotoi / 2
    {
      SliceInRange(keys, i, narray);
      UpToSplit(keys, i);
      NextSlice(keys, i);
      if nums[i] > 0 {
        a := a + nums[i];
        if a > twotoi / 2 {
          size := twotoi;
          na := a;
          best := i;
        }
      } else {
        EmptySlice(keys, i);
      }
      if a == narray {
        AllCounted(keys, i);
        forall j: nat | j >= i + 1 ensures !MoreThanHalf(keys, j) { NoCandidate(keys, i, j); }
        Best(keys, size, best, i + 1);
        return;
      }
      i, twotoi := i + 1, twotoi * 2;
    }
    forall j: nat | j >= i ensures !MoreThanHalf(keys, j) { NoCandidate(keys, i, j); }
    Best(keys, size, best, i);
  }

  lemma FirstSlice(keys: set<int>)
    ensures Pow2(0) == 1 && Low(0) == 0 && |UpTo(keys, 0)| == 0
  {
    assert UpTo(keys, 0) == {};
  }

  /** The step from one slice to the next. */
  lemma NextSlice(keys: set<int>, i: nat)
    ensures Low(i + 1) == Pow2(i) && Pow2(i + 1) == 2 * Pow2(i) && Low(i) < Pow2(i)
    ensures MoreThanHalf(keys, i) <==> |UpTo(keys, Pow2(i))| > Pow2(i) / 2
    ensures |Slice(keys, i)| == 0 ==> Slice(keys, i) == {}
  {
  }

  lemma Best(keys: set<int>, size: nat, best: int, i: nat)
    requires best < i && (if best < 0 then size == 0 else size == Pow2(best) && MoreThanHalf(keys, best))
    requires best >= -1 && (forall j :: best < j < i ==> !MoreThanHalf(keys, j))
    requires forall j: nat :: j >= i ==> !MoreThanHalf(keys, j)
    ensures BestSize(keys, size)
  {
    if best < 0 { assert forall j: nat :: !MoreThanHalf(keys, j); }
  }

  lemma SliceInRange(keys: set<int>, i: nat, narray: nat)
    requires Pow2(i) / 2 < narray == |keys| && forall n :: n in keys ==> 1 <= n <= Pow2(MAXBITS)
    ensures i <= MAXBITS
  {
    assert UpTo(keys, Pow2(MAXBITS)) == keys;
    UpToBound(keys, Pow2(MAXBITS));
    if i > MAXBITS { Pow2Monotone(MAXBITS, i); }
  }

  lemma AllCounted(keys: set<int>, i: nat)
    requires |UpTo(keys, Pow2(i))| == |keys| && forall n :: n in keys ==> 1 <= n
    ensures forall n :: n in keys ==> n <= Pow2(i)
  {
    var u := UpTo(keys, Pow2(i));
    assert keys == u + (keys - u);
  }

  /** The integer keys of the array part with a value, among the first `m` slots. */
  ghost function ArrayKeys(arr: seq<Option<Value>>, m: int): set<int> { set n | 1 <= n <= m && InUse(arr, n) }

  predicate InUse(arr: seq<Option<Value>>, n: int) { 1 <= n <= |arr| && arr[n - 1].Some? }

  lemma ArrayKeysNext(arr: seq<Option<Value>>, i: nat)
    requires 1 <= i <= |arr|
    ensures ArrayKeys(arr, i) == if arr[i - 1].Some? then ArrayKeys(arr, i - 1) + {i} else ArrayKeys(arr, i - 1)
  {
  }

  /** numusearray: the number of keys in each slice, and in all of them. */
  method NumUseArray(arr: seq<Option<Value>>) returns (nums: seq<nat>, ause: nat)
    ensures Counts(nums, ArrayKeys(arr, Pow2(MAXBITS)))
    ensures ause == |ArrayKeys(arr, Pow2(MAXBITS))|
  {
    hide Slice, ArrayKeys, Pow2, Low, InUse;
    nums := seq(MAXBITS + 1, _ => 0);
    ause := 0;
    var lg, ttlg, i := 0, 1, 1;
    NothingYet(arr);
    FirstSlice({});
    while lg <= MAXBITS
      invariant 0 <= lg <= MAXBITS + 1 && ttlg == Pow2(lg)
      invariant i == Min(Low(lg), |arr|) + 1
      invariant |nums| == MAXBITS + 1 && ause == |ArrayKeys(arr, i - 1)|
      invariant forall l :: 0 <= l <= MAXBITS ==> nums[l] == |Slice(ArrayKeys(arr, i - 1), l)|
      decreases MAXBITS + 1 - lg
    {
      var lc, lim := 0, ttlg;
      if lim > |arr| {
        lim := |arr|;
        if i > lim {
          break;
        }
      }
      ghost var i0 := i;
      NoneAbove(arr, i - 1, lg);
      NextSlice({}, lg);
      while i <= lim
        invariant i0 <= i <= lim + 1 && lim <= |arr| && lim <= Pow2(lg) && Low(lg) < i0
        invariant lc == |Slice(ArrayKeys(arr, i - 1), lg)| && ause + lc == |ArrayKeys(arr, i - 1)|
        invariant forall l :: 0 <= l <= MAXBITS && l != lg ==> nums[l] == |Slice(ArrayKeys(arr, i - 1), l)|
      {
        ArrayKeysNext(arr, i);
        if arr[i - 1].Some? {
          forall l: nat
            ensures |Slice(ArrayKeys(arr, i), l)| == |Slice(ArrayKeys(arr, i - 1), l)| + if l == lg then 1 else 0
          {
            OneMore(arr, i, lg, l);
          }
          OneMore(arr, i, lg, lg);
          lc := lc + 1;
        }
        i := i + 1;
      }
      nums := nums[lg := nums[lg] + lc];
      ause := ause + lc;
      lg, ttlg := lg + 1, ttlg * 2;
    }
    if lg <= MAXBITS { Pow2Monotone(lg, MAXBITS); } else { NextSlice({}, MAXBITS); }
    AllSeen(arr, i - 1, Pow2(MAXBITS));
  }

  lemma NothingYet(arr: seq<Option<Value>>)
    ensures ArrayKeys(arr, 0) == {} && forall l: nat :: |Slice(ArrayKeys(arr, 0), l)| == 0
  {
    assert ArrayKeys(arr, 0) == {};
    forall l: nat ensures |Slice(ArrayKeys(arr, 0), l)| == 0 { assert Slice(ArrayKeys(arr, 0), l) == {}; }
  }

  lemma NoneAbove(arr: seq<Option<Value>>, m: int, lg: nat)
    requires m <= Low(lg)
    ensures |Slice(ArrayKeys(arr, m), lg)| == 0
  {
    assert Slice(ArrayKeys(arr, m), lg) == {};
  }

  lemma AllSeen(arr: seq<Option<Value>>, n: int, m: int)
    requires n == m || (n <= m && n == |arr|)
    ensures ArrayKeys(arr, n) == ArrayKeys(arr, m)
  {
  }

  lemma OneMore(arr: seq<Option<Value>>, i: nat, lg: nat, l: nat)
    requires 1 <= i <= |arr| && arr[i - 1].Some? && Low(lg) < i <= Pow2(lg)
    ensures |Slice(ArrayKeys(arr, i), l)| == |Slice(ArrayKeys(arr, i - 1), l)| + if l == lg then 1 else 0
    ensures |ArrayKeys(arr, i)| == |ArrayKeys(arr, i - 1)| + 1
  {
    ArrayKeysNext(arr, i);
    SliceAdd(ArrayKeys(arr, i - 1), i, lg, l);
  }

  /** A new key counts in its own slice only. */
  lemma SliceAdd(keys: set<int>, n: int, lg: nat, l: nat)
    requires Low(lg) < n <= Pow2(lg)
    ensures Slice(keys + {n}, l) == if l == lg then Slice(keys, l) + {n} else Slice(keys, l)
  {
    if l < lg { Pow2Monotone(l, lg); } else if l > lg { Pow2Monotone(lg, l); }
  }

  /** countint counts a key as a candidate for the array part. */
  predicate Candidate(k: NodeKey) { k.Live? && k.k.Num? && 1 <= k.k.n <= Pow2(MAXBITS) }

  /** The candidates among the nodes from `j` on that have a value. */
  ghost function NodeInts(node: seq<Node>, j: nat): set<int>
    decreases |node| - j
  {
    if j >= |node| then {}
    else if node[j].val.Some? && Candidate(node[j].key) then NodeInts(node, j + 1) + {node[j].key.k.n}
    else NodeInts(node, j + 1)
  }

  /** The number of nodes from `j` on that have a value and whose key is not in 1..m. */
  ghost function NodesOut(node: seq<Node>, j: nat, m: nat): nat
    decreases |node| - j
  {
    if j >= |node| then 0
    else
      var out := node[j].val.Some? && !(Candidate(node[j].key) && node[j].key.k.n <= m);
      NodesOut(node, j + 1, m) + if out then 1 else 0
  }

  ghost predicate NoLiveTwice(node: seq<Node>)
  {
    forall i, j :: 0 <= i < j < |node| && node[i].key.Live? ==> node[i].key != node[j].key
  }

  lemma {:induction false} NodeIntsFrom(node: seq<Node>, j: nat, n: int)
    requires n in NodeInts(node, j)
    ensures 1 <= n <= Pow2(MAXBITS) && exists i :: j <= i < |node| && node[i].key == Live(Num(n))
    decreases |node| - j
  {
    if node[j].val.Some? && Candidate(node[j].key) && n == node[j].key.k.n {
    } else {
      NodeIntsFrom(node, j + 1, n);
    }
  }

  /** numusehash: adds the candidates of the hash part to the counts, and counts its values. */
  method NumUseHash(node: seq<Node>, nums: seq<nat>, nasize: nat, ghost keys: set<int>)
    returns (nums': seq<nat>, nasize': nat, totaluse: nat)
    requires Counts(nums, keys) && nasize == |keys| && NoLiveTwice(node)
    requires forall i :: 0 <= i < |node| && node[i].key.Live? && node[i].key.k.Num? ==> node[i].key.k.n !in keys
    ensures Counts(nums', keys + NodeInts(node, 0)) && nasize' == |keys + NodeInts(node, 0)|
    ensures totaluse == NodesOut(node, 0, 0)
  {
    hide Counts, NoLiveTwice, Pow2, Low;
    nums', totaluse := nums, 0;
    var ause, i := 0, |node|;
    assert keys + NodeInts(node, |node|) == keys;
    while i > 0
      invariant 0 <= i <= |node|
      invariant Counts(nums', keys + NodeInts(node, i)) && nasize + ause == |keys + NodeInts(node, i)|
      invariant totaluse == NodesOut(node, i, 0)
    {
      i := i - 1;
      if node[i].val.Some? {
        if Candidate(node[i].key) {
          var n := node[i].key.k.n;
          var lg := CeilLog2(n);
          FitsSlice(n, lg);
          NewInt(node, i, keys);
          nums' := AddCount(nums', keys + NodeInts(node, i + 1), n, lg);
          assert keys + NodeInts(node, i) == keys + NodeInts(node, i + 1) + {n};
          ause := ause + 1;
        }
        totaluse := totaluse + 1;
      }
    }
    nasize' := nasize + ause;
  }

  lemma FitsSlice(n: nat, lg: nat)
    requires 1 <= n <= Pow2(MAXBITS) && Low(lg) < n
    ensures lg <= MAXBITS
  {
    if lg > MAXBITS { Pow2Monotone(MAXBITS, lg); }
  }

  lemma NewInt(node: seq<Node>, i: nat, keys: set<int>)
    requires i < |node| && NoLiveTwice(node) && Candidate(node[i].key)
    requires forall i :: 0 <= i < |node| && node[i].key.Live? && node[i].key.k.Num? ==> node[i].key.k.n !in keys
    ensures node[i].key.k.n !in keys + NodeInts(node, i + 1)
  {
    var n := node[i].key.k.n;
    if n in NodeInts(node, i + 1) { NodeIntsFrom(node, i + 1, n); }
  }

  /** countint, for one key. */
  method AddCount(nums: seq<nat>, ghost keys: set<int>, n: int, lg: nat) returns (nums': seq<nat>)
    requires Counts(nums, keys) && Low(lg) < n <= Pow2(lg) && lg <= MAXBITS && n !in keys
    ensures Counts(nums', keys + {n}) && |keys + {n}| == |keys| + 1
  {
    nums' := nums[lg := nums[lg] + 1];
    forall l | 0 <= l <= MAXBITS ensures nums'[l] == |Slice(keys + {n}, l)| { SliceAdd(keys, n, lg, l); }
  }

  /** The number of slots from `m` on with a value. */
  ghost function ArrayOut(arr: seq<Option<Value>>, m: nat): nat
    decreases |arr| - m
  {
    if m >= |arr| then 0 else ArrayOut(arr, m + 1) + (if arr[m].Some? then 1 else 0)
  }

  lemma {:induction false} ArrayInOut(arr: seq<Option<Value>>, m: nat)
    ensures |ArrayKeys(arr, |arr|)| == |ArrayKeys(arr, m)| + ArrayOut(arr, m)
    decreases |arr| - m
  {
    if m >= |arr| {
      assert ArrayKeys(arr, m) == ArrayKeys(arr, |arr|);
    } else {
      ArrayInOut(arr, m + 1);
      ArrayKeysNext(arr, m + 1);
    }
  }

  lemma {:induction false} NodesInOut(node: seq<Node>, j: nat, m: nat)
    requires NoLiveTwice(node) && m <= Pow2(MAXBITS)
    ensures NodesOut(node, j, 0) == |UpTo(NodeInts(node, j), m)| + NodesOut(node, j, m)
    decreases |node| - j
  {
    if j >= |node| {
      assert UpTo({}, m) == {};
    } else {
      NodesInOut(node, j + 1, m);
      if node[j].val.Some? && Candidate(node[j].key) {
        var n := node[j].key.k.n;
        NewInt(node, j, {});
        assert UpTo(NodeInts(node, j), m) == if n <= m then UpTo(NodeInts(node, j + 1), m) + {n}
          else UpTo(NodeInts(node, j + 1), m);
      }
    }
  }
}

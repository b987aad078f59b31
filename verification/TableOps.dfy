/** Tables as the interpreter runs them: search, insertion, traversal, with the node vector
    and the array part updated in place (ltable.c). */
module TableOps {
  import opened Base
  import opened Table
  import opened TableSizes
  import opened TableTraverse

  /** A used node that is linked to nothing ends the search for every key whose main position
      leads to it. */
  lemma SearchEnds(t: Table, order: seq<nat>, k: Key, b: nat)
    requires Chains(t, order) && AllPlaced(t, order) && Main(t, k) in order && IndexOf(order, Main(t, k)) <= b < |order|
    requires order[b] < |t.node| && t.node[order[b]].next.None?
    requires forall p :: IndexOf(order, Main(t, k)) <= p <= b && order[p] < |t.node| ==> t.node[order[p]].key != Live(k)
    ensures forall i :: 0 <= i < |t.node| ==> t.node[i].key != Live(k)
  {
    forall i | 0 <= i < |t.node| ensures t.node[i].key != Live(k) {
      if t.node[i].key == Live(k) {
        PlacedFacts(t, order, i);
      }
    }
  }

  /** The walk along a chain from the main position of `k` has come to node `n`, position `b`,
      and has not passed any node that has or had the key. */
  ghost predicate Walking(t: Table, order: seq<nat>, k: Key, b: nat, n: nat)
  {
    && |t.node| > 0 && Main(t, k) in order && IndexOf(order, Main(t, k)) <= b < |order| && order[b] == n < |t.node|
    && forall p :: IndexOf(order, Main(t, k)) <= p < b && order[p] < |t.node| ==> !HasKey(t.node[order[p]], k)
  }

  lemma WalkStarts(t: Table, order: seq<nat>, k: Key)
    requires Chains(t, order) && |t.node| > 0 && t.node[Main(t, k)].key != NilKey
    ensures Main(t, k) in order && Walking(t, order, k, IndexOf(order, Main(t, k)), Main(t, k))
  {
    UsedOnly(t, order, Main(t, k));
  }

  lemma WalkGoesOn(t: Table, order: seq<nat>, k: Key, b: nat, n: nat)
    requires Chains(t, order) && Walking(t, order, k, b, n) && !HasKey(t.node[n], k) && t.node[n].next.Some?
    ensures Walking(t, order, k, b + 1, t.node[n].next.value)
  {
    hide IndexOf;
    assert LinkOk(t, order, b);
    assert LinkOk(t, order, b + 1);
  }

  lemma NotBefore(t: Table, order: seq<nat>, k: Key, b: nat, n: nat, i: nat)
    requires AllPlaced(t, order) && Walking(t, order, k, b, n) && i < |t.node| && HasKey(t.node[i], k)
    ensures i in order && b <= IndexOf(order, i)
  {
    PlacedFacts(t, order, i);
  }

  /** So it finds the first of them, */
  lemma WalkFinds(t: Table, order: seq<nat>, k: Key, b: nat, n: nat)
    requires Chains(t, order) && AllPlaced(t, order) && Walking(t, order, k, b, n) && HasKey(t.node[n], k)
    ensures IsFirst(t, order, k, n)
  {
    hide AllPlaced, IndexOf;
    IndexUnique(order, b);
    forall i | 0 <= i < |t.node| && HasKey(t.node[i], k) && i in order ensures IndexOf(order, n) <= IndexOf(order, i) {
      NotBefore(t, order, k, b, n, i);
    }
  }

  /** and at the end of the chain there is none. */
  lemma WalkEnds(t: Table, order: seq<nat>, k: Key, b: nat, n: nat)
    requires Chains(t, order) && AllPlaced(t, order) && Walking(t, order, k, b, n) && !HasKey(t.node[n], k)
    requires t.node[n].next.None?
    ensures forall i :: 0 <= i < |t.node| ==> !HasKey(t.node[i], k)
  {
    hide Chains, AllPlaced, IndexOf;
    forall i | 0 <= i < |t.node| ensures !HasKey(t.node[i], k) {
      if HasKey(t.node[i], k) {
        NotBefore(t, order, k, b, n, i);
        EndsBefore(t, order, i, b);
      }
    }
  }

  lemma EndsBefore(t: Table, order: seq<nat>, i: nat, b: nat)
    requires Chains(t, order) && AllPlaced(t, order) && i < |t.node| && t.node[i].key != NilKey
    requires IndexOf(order, Main(t, t.node[i].key.k)) <= b < |order| && order[b] < |t.node|
    requires t.node[order[b]].next.None?
    ensures IndexOf(order, i) <= b
  {
    PlacedFacts(t, order, i);
  }

  /** findindex knows the key: it is in the array part, or some node has or had it. */
  ghost predicate Known(t: Table, k: Key)
  {
    InArray(t, k) || exists i :: 0 <= i < |t.node| && HasKey(t.node[i], k)
  }

  lemma ArrayFound(t: Table, order: seq<nat>, k: Key)
    requires InArray(t, k)
    ensures Known(t, k) && FoundAt(t, order, k, k.n - 1) && k.n - 1 < Positions(t)
  {
  }

  lemma HashFound(t: Table, order: seq<nat>, k: Key, i: nat)
    requires !InArray(t, k) && IsFirst(t, order, k, i)
    ensures Known(t, k) && FoundAt(t, order, k, i + |t.arr|) && i + |t.arr| < Positions(t)
  {
  }

  lemma NotKnown(t: Table, k: Key)
    requires !InArray(t, k) && forall i :: 0 <= i < |t.node| ==> !HasKey(t.node[i], k)
    ensures !Known(t, k)
  {
  }

  lemma IndexFacts(t: Table, order: seq<nat>)
    requires Inv(t, order)
    ensures Chains(t, order) && AllPlaced(t, order) && |t.node| > 0
    ensures forall i :: 0 <= i < |t.node| && t.node[i].key.Dead? ==> Collectable(t.node[i].key.k)
  {
  }

  lemma FreeEnds(t: Table, order: seq<nat>, n: nat)
    requires Chains(t, order) && n < |t.node| && t.node[n].next.Some?
    ensures t.node[n].key != NilKey
  {
  }

  lemma WalkingAt(t: Table, order: seq<nat>, k: Key, b: nat, n: nat)
    requires Chains(t, order) && Walking(t, order, k, b, n)
    ensures b < |order| && n < |t.node| && t.node[n].key != NilKey
  {
    assert LinkOk(t, order, b);
  }

  lemma NextStep(t: Table, p: nat)
    requires p < Positions(t) && forall i :: 0 <= i < |t.node| && t.node[i].val.Some? ==> t.node[i].key.Live?
    ensures EntryAt(t, p).Some? ==> NextEntry(t, p) == p
    ensures EntryAt(t, p).None? ==> NextEntry(t, p) == NextEntry(t, p + 1)
    ensures p < |t.arr| ==> EntryAt(t, p) == if t.arr[p].Some? then Some((Num(p + 1), t.arr[p].value)) else None
    ensures p >= |t.arr| ==> var n := t.node[p - |t.arr|];
      EntryAt(t, p) == if n.val.Some? then Some((n.key.k, n.val.value)) else None
  {
  }

  lemma ValuesHaveKeys(t: Table, order: seq<nat>)
    requires Inv(t, order)
    ensures forall i :: 0 <= i < |t.node| && t.node[i].val.Some? ==> t.node[i].key.Live?
  {
  }

  datatype NextResult = InvalidKey | Entry(k: Key, v: Value) | End

  class LuaTable {
    const hash: Key -> nat
    var arr: seq<Option<Value>>
    var node: seq<Node>
    var lastfree: int
    var dummy: bool
    ghost var order: seq<nat>

    function T(): Table
      reads this
    {
      Table(hash, arr, node, lastfree, dummy)
    }

    ghost predicate Valid()
      reads this
    {
      Inv(T(), order) && |arr| <= Pow2(MAXBITS)
    }

    /** luaH_new. */
    constructor (hash: Key -> nat, narray: nat, nhash: nat)
      requires narray <= Pow2(MAXBITS)
      ensures Valid() && this.hash == hash && |arr| == narray && |node| >= nhash && forall k :: Lookup(T(), k) == None
    {
      this.hash := hash;
      arr, node, lastfree, dummy, order := seq(narray, _ => None), [Node(None, NilKey, None)], 0, true, [];
      new;
      hide Inv, Pow2, Lookup;
      SetNodeVector(nhash);
      FreshEmpty(T());
    }

    /** removeentry: the collector clears the key of an entry that has no value. */
    method ClearKey(i: nat)
      requires Valid() && i < |node| && node[i].val.None?
      modifies this`node
      ensures Valid() && (forall k :: Lookup(T(), k) == old(Lookup(T(), k))) && KeepsKeys(old(T()), T())
      ensures node[i].key.Live? ==> !Collectable(node[i].key.k)
    {
      if node[i].key.Live? && Collectable(node[i].key.k) {
        ghost var t := T();
        node := node[i := node[i].(key := Dead(node[i].key.k))];
        StoreInv(t, order, i, T());
        forall k ensures Lookup(T(), k) == Lookup(t, k) { ClearLookup(t, T(), order, i, k); }
      }
    }

    /** The search loop shared by luaH_get, luaH_getstr, luaH_getnum and luaH_next. */
    method Find(k: Key) returns (r: Option<nat>)
      requires Valid()
      ensures r.Some? ==> r.value < |node| && node[r.value].key == Live(k)
      ensures r.None? ==> forall i :: 0 <= i < |node| ==> node[i].key != Live(k)
    {
      hide KeysUnique, Placed, IndexOf;
      var n := Main(T(), k);
      ghost var used := node[n].key != NilKey;
      UsedOnly(T(), order, n);
      ghost var a := if used then IndexOf(order, n) else 0;
      ghost var b := a;
      while true
        invariant n < |node| && (used ==> a <= b < |order| && order[b] == n) && (!used ==> n == Main(T(), k))
        invariant used ==> forall p :: a <= p < b && order[p] < |node| ==> node[order[p]].key != Live(k)
        decreases if used then |order| - b else 0
      {
        if node[n].key == Live(k) {
          return Some(n);
        }
        if used { assert LinkOk(T(), order, b); }
        if node[n].next.None? {
          if used { SearchEnds(T(), order, k, b); } else { NoneBefore(T(), order, k); }
          return None;
        }
        n := node[n].next.value;
        b := b + 1;
        assert LinkOk(T(), order, b);
      }
    }

    /** luaH_get. */
    method Get(k: Key) returns (v: Option<Value>)
      requires Valid()
      ensures v == Lookup(T(), k)
    {
      if InArray(T(), k) {
        return arr[k.n - 1];
      }
      var r := Find(k);
      match r {
        case Some(i) =>
          LookupNode(T(), order, i);
          return node[i].val;
        case None =>
          LookupAbsent(T(), k);
          return None;
      }
    }

    /** getfreepos. */
    method GetFreePos() returns (n: Option<nat>)
      requires Valid() && !dummy
      modifies this`lastfree
      ensures n.Some? ==> n.value < |node| && node[n.value].key == NilKey && lastfree == n.value
      ensures n.Some? ==> forall i :: 0 <= i < |node| && i > n.value ==> node[i].key != NilKey
      ensures n.None? ==> lastfree <= |node| && forall i :: 0 <= i < |node| ==> node[i].key != NilKey
    {
      hide Chains, AllPlaced, KeysUnique;
      while lastfree > 0
        invariant lastfree <= |node|
        invariant forall i :: 0 <= i < |node| && i >= lastfree ==> node[i].key != NilKey
        decreases lastfree
      {
        lastfree := lastfree - 1;
        if node[lastfree].key == NilKey {
          return Some(lastfree);
        }
      }
      lastfree := lastfree - 1;
      return None;
    }

    /** The walk of newkey from the main position of a misplaced key to the node before it. */
    method FindPrevious(first: nat, mp: nat) returns (prev: nat)
      requires Chains(T(), order) && AllPlaced(T(), order)
      requires mp < |node| && node[mp].key.Live? && first == Main(T(), node[mp].key.k) && first != mp
      ensures mp in order && IndexOf(order, mp) > 0 && prev == order[IndexOf(order, mp) - 1]
      ensures prev < |node| && node[prev].next == Some(mp)
    {
      hide KeysUnique, Placed, LinkedUpTo;
      PlacedFacts(T(), order, mp);
      ghost var a, c := IndexOf(order, first), IndexOf(order, mp);
      LinkedSteps(T(), order, a, c);
      prev := first;
      ghost var b := a;
      while node[prev].next != Some(mp)
        invariant a <= b < c < |order| && order[b] == prev < |node|
        decreases c - b
      {
        assert LinkOk(T(), order, b);
        prev := node[prev].next.value;
        b := b + 1;
        assert LinkOk(T(), order, b);
      }
      assert LinkOk(T(), order, b);
      IndexUnique(order, b + 1);
    }

    /** luaH_set with the store that follows it, as far as it goes without a rehash; `ok` is
        false when newkey finds no free node. */
    method TrySet(k: Key, v: Option<Value>) returns (ok: bool)
      requires Valid()
      modifies this`arr, this`node, this`lastfree, this`order
      ensures ok ==> Valid() && (forall k' :: Lookup(T(), k') == if k' == k then v else old(Lookup(T(), k')))
      ensures ok ==> |order| <= old(|order|) + 1
      ensures old(InArray(T(), k)) ==> ok && order == old(order)
      ensures !ok ==> Absent(old(T()), k) && (dummy || forall i :: 0 <= i < |node| ==> node[i].key != NilKey)
      ensures !ok ==> Valid() && T() == old(T()).(lastfree := lastfree) && order == old(order)
      ensures |arr| == old(|arr|) && |node| == old(|node|)
      ensures !Absent(old(T()), k) ==> ok && order == old(order) && KeepsKeys(old(T()), T())
    {
      hide Inv, Lookup, Chains, AllPlaced;
      if InArray(T(), k) {
        ArraySet(T(), order, k, v);
        arr := arr[k.n - 1 := v];
        return true;
      }
      var r := Find(k);
      if r.Some? {
        StoreKeepsInv(T(), order, r.value, v);
        node := node[r.value := node[r.value].(val := v)];
        return true;
      }
      ok := NewKey(k, v);
    }

    /** newkey, when the main position is taken and node `n` is free: a colliding node out of
        its main position moves there, otherwise the new key goes there. */
    method InsertColliding(k: Key, v: Option<Value>, mp: nat, n: nat, ghost t: Table)
      requires Inv(t, order) && !dummy && Absent(t, k) && mp < |node| && mp == Main(t, k) && node[mp].val.Some?
      requires T() == t.(lastfree := n) && n < |node| && node[n].key == NilKey && HasFree(t, n)
      modifies this`node, this`order
      ensures Inv(T(), order) && (forall k' :: Lookup(T(), k') == if k' == k then v else Lookup(t, k'))
      ensures |order| == old(|order|) + 1 && |node| == old(|node|)
    {
      hide Inv, Lookup, Adds, Movable, Moved, Inserted, IndexOf, Chains, AllPlaced, Absent, HasFree;
      ghost var o := order;
      Colliding(t, o, mp, T());
      var first := Main(T(), node[mp].key.k);
      if first != mp {
        var prev := FindPrevious(first, mp);
        MoveDone(t, o, prev, n, k, v);
        ghost var m := Move(T(), prev, mp, n, k, v);
        node := node[prev := node[prev].(next := Some(n))][n := node[mp]][mp := node[mp].(next := None, val := None)];
        node := node[mp := node[mp].(key := Live(k), val := v)];
        order := Moved(o, IndexOf(o, mp), n);
        assert node == m.node;
      } else {
        InsertDone(t, o, n, k, v);
        ghost var m := InsertAfter(T(), mp, n, k, v);
        node := node[n := node[n].(next := node[mp].next)][mp := node[mp].(next := Some(n))];
        node := node[n := node[n].(key := Live(k), val := v)];
        order := Inserted(o, IndexOf(o, mp), n);
        assert node == m.node;
      }
    }

    /** newkey, up to the point where it would rehash. */
    method NewKey(k: Key, v: Option<Value>) returns (ok: bool)
      requires Valid() && Absent(T(), k)
      modifies this`node, this`lastfree, this`order
      ensures ok ==> Valid() && (forall k' :: Lookup(T(), k') == if k' == k then v else old(Lookup(T(), k')))
      ensures ok ==> |order| <= old(|order|) + 1
      ensures !ok ==> dummy || forall i :: 0 <= i < |node| ==> node[i].key != NilKey
      ensures !ok ==> Valid() && T() == old(T()).(lastfree := lastfree) && order == old(order)
      ensures |node| == old(|node|)
    {
      hide Inv, Lookup, Adds, Movable, Moved, Inserted, IndexOf, Chains, AllPlaced;
      ghost var t, o := T(), order;
      Sizes(t, o);
      var mp := Main(T(), k);
      if node[mp].val.Some? || dummy {
        if dummy { return false; }
        var free := GetFreePos();
        if free.None? {
          AllUsed(t, o, T());
          return false;
        }
        InsertColliding(k, v, mp, free.value, t);
      } else {
        order := OccupyDone(t, o, k, v);
        node := node[mp := node[mp].(key := Live(k), val := v)];
      }
      return true;
    }

    /** setnodevector: a fresh hash part with room for `size` keys. */
    method SetNodeVector(size: nat)
      requires |arr| <= Pow2(MAXBITS)
      modifies this`node, this`lastfree, this`dummy, this`order
      ensures Valid() && order == [] && |node| >= size && dummy == (size == 0)
      ensures forall i :: 0 <= i < |node| ==> node[i].key == NilKey
    {
      hide Inv, Pow2, Low;
      var n := if size == 0 then 1 else Pow2(CeilLog2(size));
      node := seq(n, _ => Node(None, NilKey, None));
      lastfree := if size == 0 then 0 else n;
      dummy := size == 0;
      order := [];
      FreshInv(T());
    }

    /** A store that finds room: either the key needs none, or there is a free node. */
    method SetWithRoom(k: Key, v: Option<Value>)
      requires Valid() && (InArray(T(), k) || (!dummy && |order| < |node|))
      modifies this`arr, this`node, this`lastfree, this`order
      ensures Valid() && (forall k' :: Lookup(T(), k') == if k' == k then v else old(Lookup(T(), k')))
      ensures |order| <= old(|order|) + 1 && (old(InArray(T(), k)) ==> order == old(order))
      ensures |arr| == old(|arr|) && |node| == old(|node|)
    {
      hide Inv, Lookup;
      var ok := TrySet(k, v);
      if !ok { Full(T(), order); }
    }

    /** resize: the entries that leave the array part and those of the old hash part are
        inserted again; none of these insertions needs another rehash. */
    method Resize(nasize: nat, nhsize: nat)
      requires Valid() && nasize <= Pow2(MAXBITS) && ArrayOut(arr, nasize) + NodesOut(node, 0, nasize) <= nhsize
      modifies this
      ensures Valid() && (forall k :: Lookup(T(), k) == old(Lookup(T(), k)))
      ensures |arr| == nasize && |node| >= nhsize && dummy == (nhsize == 0)
      ensures |order| <= old(ArrayOut(arr, nasize) + NodesOut(node, 0, nasize))
    {
      hide Inv, Lookup, Copied, NodesOut, ArrayOut, Pow2;
      ghost var t := T();
      var oldarr, oldnode := arr, node;
      ghost var o := order;
      arr := if nasize > |arr| then arr + seq(nasize - |arr|, _ => None) else arr[..nasize];
      SetNodeVector(nhsize);
      FreshLookup(t, T());
      ReinsertSlice(oldarr, nhsize, t);
      ReinsertNodes(oldnode, nhsize, t, o, ArrayOut(oldarr, nasize));
      forall k ensures Lookup(T(), k) == Lookup(t, k) { AllCopied(t, k); }
    }

    /** The vanishing slice of the array part. */
    method ReinsertSlice(oldarr: seq<Option<Value>>, nhsize: nat, ghost t: Table)
      requires Valid() && t.arr == oldarr && ArrayOut(oldarr, |arr|) <= nhsize <= |node| && dummy == (nhsize == 0)
      requires order == []
      requires forall k :: Lookup(T(), k) == if k.Num?
        && 1 <= k.n <= (if |arr| < |oldarr| then |arr| else |oldarr|) then Lookup(t, k) else None
      modifies this`arr, this`node, this`lastfree, this`order
      ensures Valid() && |arr| == old(|arr|) && |node| == old(|node|) && |order| <= ArrayOut(oldarr, |arr|)
      ensures forall k :: Lookup(T(), k) == if InArray(t, k) then Lookup(t, k) else None
    {
      hide Inv, Lookup;
      var i := if |arr| < |oldarr| then |arr| else |oldarr|;
      ghost var total := ArrayOut(oldarr, |arr|);
      while i < |oldarr|
        invariant i <= |oldarr| && Valid() && |arr| == old(|arr|) && |node| == old(|node|)
        invariant (i < |oldarr| ==> |arr| <= i)
        invariant |order| + ArrayOut(oldarr, i) <= total
        invariant forall k :: Lookup(T(), k) == if k.Num? && 1 <= k.n <= i then Lookup(t, k) else None
      {
        ArrayLookup(t, i);
        if oldarr[i].Some? {
          SetWithRoom(Num(i + 1), oldarr[i]);
        }
        i := i + 1;
      }
    }

    /** The old hash part, from the last node to the first. */
    method ReinsertNodes(oldnode: seq<Node>, nhsize: nat, ghost t: Table, ghost o: seq<nat>, ghost start: nat)
      requires Valid() && Inv(t, o) && t.node == oldnode && |arr| <= Pow2(MAXBITS) && |order| <= start
      requires start + NodesOut(oldnode, 0, |arr|) <= nhsize <= |node| && dummy == (nhsize == 0)
      requires forall k :: Lookup(T(), k) == if InArray(t, k) then Lookup(t, k) else None
      modifies this`arr, this`node, this`lastfree, this`order
      ensures Valid() && |arr| == old(|arr|) && |node| == old(|node|) && |order| <= start + NodesOut(oldnode, 0, |arr|)
      ensures forall k :: Lookup(T(), k) == if Copied(t, 0, k) then Lookup(t, k) else None
    {
      hide Inv, Lookup, Copied;
      var i := |oldnode|;
      NoneCopied(t);
      while i > 0
        invariant 0 <= i <= |oldnode| && Valid() && |arr| == old(|arr|) && |node| == old(|node|)
        invariant |order| <= start + NodesOut(oldnode, i, |arr|)
        invariant forall k :: Lookup(T(), k) == if Copied(t, i, k) then Lookup(t, k) else None
      {
        i := i - 1;
        CopyStep(t, o, i);
        NodesOutBound(oldnode, i, |arr|);
        if oldnode[i].val.Some? {
          SetWithRoom(oldnode[i].key.k, oldnode[i].val);
        }
      }
    }

    /** findindex: None is the error of a key that is not in the table. */
    method FindIndex(k: Key) returns (r: Option<nat>)
      requires Valid()
      ensures r.Some? ==> FoundAt(T(), order, k, r.value) && r.value < Positions(T())
      ensures r.Some? <==> Known(T(), k)
    {
      hide Inv, Chains, AllPlaced, Walking, IsFirst, Known, FoundAt, IndexOf, Main, Positions;
      ghost var t, o := T(), order;
      IndexFacts(t, o);
      if InArray(T(), k) {
        ArrayFound(t, o, k);
        return Some(k.n - 1);
      }
      var n: nat := Main(T(), k);
      ghost var b: nat := 0;
      if node[n].key != NilKey {
        WalkStarts(t, o, k);
        b := IndexOf(o, n);
      }
      while true
        invariant n < |node| && b <= |o|
        invariant node[n].key != NilKey ==> Walking(t, o, k, b, n)
        invariant node[n].key == NilKey ==> n == Main(t, k)
        decreases |o| - b
      {
        if node[n].key == Live(k) || (node[n].key.Dead? && Collectable(k) && node[n].key.k == k) {
          WalkFinds(t, o, k, b, n);
          HashFound(t, o, k, n);
          return Some(n + |arr|);
        }
        if node[n].next.None? {
          if node[n].key == NilKey { NoneBefore(t, o, k); } else { WalkEnds(t, o, k, b, n); }
          NotKnown(t, k);
          return None;
        }
        FreeEnds(t, o, n);
        WalkGoesOn(t, o, k, b, n);
        n := node[n].next.value;
        b := b + 1;
        WalkingAt(t, o, k, b, n);
      }
    }

    /** luaH_next. */
    method Next(key: Option<Key>) returns (r: NextResult)
      requires Valid()
      ensures r.InvalidKey? <==> key.Some? && !Known(T(), key.value)
      ensures r.Entry? ==> IsNext(T(), order, key, Some((r.k, r.v)))
      ensures r.End? ==> IsNext(T(), order, key, None)
    {
      hide Inv, FoundAt, EntryAt, NextEntry, Known;
      var i := 0;
      if key.Some? {
        var f := FindIndex(key.value);
        if f.None? { return InvalidKey; }
        i := f.value + 1;
      }
      r := Scan(i);
    }

    /** The loops of luaH_next, from position `start`. */
    method Scan(start: nat) returns (r: NextResult)
      requires Valid() && start <= Positions(T())
      ensures !r.InvalidKey? && (r.End? <==> NextEntry(T(), start) == Positions(T()))
      ensures r.Entry? ==> EntryAt(T(), NextEntry(T(), start)) == Some((r.k, r.v))
    {
      hide Inv, EntryAt, NextEntry;
      ValuesHaveKeys(T(), order);
      var i := start;
      while i < |arr|
        invariant start <= i <= Positions(T()) && (i <= |arr| || i == start)
        invariant NextEntry(T(), i) == NextEntry(T(), start)
      {
        NextStep(T(), i);
        if arr[i].Some? { return Entry(Num(i + 1), arr[i].value); }
        i := i + 1;
      }
      i := i - |arr|;
      while i < |node|
        invariant start <= |arr| + i <= Positions(T()) && 0 <= i
        invariant NextEntry(T(), |arr| + i) == NextEntry(T(), start)
      {
        NextStep(T(), |arr| + i);
        if node[i].val.Some? { return Entry(node[i].key.k, node[i].val.value); }
        i := i + 1;
      }
      return End;
    }

    /** luaH_getn. */
    method GetN() returns (n: nat)
      requires Valid()
      ensures IsBorder(T(), n)
    {
      hide Chains, AllPlaced, KeysUnique;
      var j := |arr|;
      if j > 0 && arr[j - 1].None? {
        n := 0;
        while j - n > 1
          invariant 0 <= n < j <= |arr| && (n > 0 ==> arr[n - 1].Some?) && arr[j - 1].None?
        {
          var m := (n + j) / 2;
          if arr[m - 1].None? { j := m; } else { n := m; }
        }
      } else if dummy {
        LookupAbsent(T(), Num(j + 1));
        n := j;
      } else {
        n := UnboundSearch(j);
      }
    }

    /** unbound_search. */
    method UnboundSearch(j0: nat) returns (n: nat)
      requires Valid() && (j0 > 0 ==> Lookup(T(), Num(j0)).Some?)
      ensures IsBorder(T(), n)
    {
      hide Inv, Lookup;
      n := j0;
      var j := j0 + 1;
      var v := Get(Num(j));
      while v.Some?
        invariant 0 <= n < j && (n > 0 ==> Lookup(T(), Num(n)).Some?) && v == Lookup(T(), Num(j))
        decreases MAX_INT - n
      {
        n := j;
        j := j * 2;
        if j > MAX_INT {
          n := 1;
          v := Get(Num(n));
          while v.Some?
            invariant 1 <= n && v == Lookup(T(), Num(n)) && (n > 1 ==> Lookup(T(), Num(n - 1)).Some?)
            decreases MaxKey(T()) - n
          {
            HasMaxKey(T(), n);
            n := n + 1;
            v := Get(Num(n));
          }
          return n - 1;
        }
        v := Get(Num(j));
      }
      while j - n > 1
        invariant 0 <= n < j && (n > 0 ==> Lookup(T(), Num(n)).Some?) && Lookup(T(), Num(j)).None?
      {
        var m := (n + j) / 2;
        v := Get(Num(m));
        if v.None? { j := m; } else { n := m; }
      }
    }

    /** The integer keys rehash counts: those of both parts and the key about to be inserted. */
    ghost function RehashKeys(ek: Key): set<int>
      reads this
    {
      ArrayKeys(arr, |arr|) + NodeInts(node, 0) + PendingInt(ek)
    }

    /** rehash: the array part gets the largest power of two more than half of whose slots will
        be used, and the hash part has room for the pending key. */
    method Rehash(ek: Key)
      requires Valid() && Absent(T(), ek)
      modifies this
      ensures Valid() && (forall k :: Lookup(T(), k) == old(Lookup(T(), k)))
      ensures BestSize(old(RehashKeys(ek)), |arr|)
      ensures InArray(T(), ek) || (!dummy && |order| < |node|)
    {
      hide Inv, Lookup, Counts, BestSize;
      ghost var a, b, p := ArrayKeys(arr, |arr|), NodeInts(node, 0), PendingInt(ek);
      ArrayBounded(arr);
      RehashDisjoint(T(), order, ek);
      var nums, nasize := NumUseArray(arr);
      var totaluse := nasize;
      var used;
      nums, nasize, used := NumUseHash(node, nums, nasize, a);
      totaluse := totaluse + used;
      if Candidate(Live(ek)) {
        var lg := CeilLog2(ek.n);
        FitsSlice(ek.n, lg);
        nums := AddCount(nums, a + b, ek.n, lg);
        nasize := nasize + 1;
      }
      assert a + b + {} == a + b;
      totaluse := totaluse + 1;
      var na;
      nasize, na := ComputeSizes(nums, nasize, a + b + p);
      RoomNeeded(T(), order, ek, nasize);
      Resize(nasize, totaluse - na);
    }

    /** luaH_set with the store that follows it: the table is the map with `k` updated. */
    method Set(k: Key, v: Option<Value>)
      requires Valid()
      modifies this
      ensures Valid() && (forall k' :: Lookup(T(), k') == if k' == k then v else old(Lookup(T(), k')))
    {
      hide Inv, Lookup, BestSize;
      var ok := TrySet(k, v);
      if !ok {
        FreeLookup(old(T()), T(), order);
        Rehash(k);
        SetWithRoom(k, v);
      }
    }
  }

  /** A border: the last of a stretch of present integer keys, or zero before an absent 1. */
  ghost predicate IsBorder(t: Table, n: nat)
  {
    (n > 0 ==> Lookup(t, Num(n)).Some?) && Lookup(t, Num(n + 1)).None?
  }

  /** A bound of the integer keys. */
  function MaxKey(t: Table): nat { MaxNode(t.node) + |t.arr| }

  function MaxNode(node: seq<Node>): (m: nat)
    ensures forall i :: 0 <= i < |node| && node[i].key.Live? && node[i].key.k.Num? ==> node[i].key.k.n <= m
  {
    if node == [] then 0
    else
      var k := node[0].key;
      assert forall i :: 0 < i < |node| ==> node[i] == node[1..][i - 1];
      (if k.Live? && k.k.Num? && k.k.n > 0 then k.k.n else 0) + MaxNode(node[1..])
  }

  lemma HasMaxKey(t: Table, n: nat)
    requires Lookup(t, Num(n)).Some?
    ensures n <= MaxKey(t)
  {
  }

  lemma ClearLookup(t: Table, t': Table, order: seq<nat>, i: nat, k: Key)
    requires Inv(t, order) && Inv(t', order) && Touches(t, t', i) && t.node[i].val.None? && t'.node[i].key.Dead?
    ensures Lookup(t', k) == Lookup(t, k)
  {
    hide Chains, AllPlaced;
    if !InArray(t, k) {
      if j :| 0 <= j < |t.node| && t.node[j].key == Live(k) {
        LookupNode(t, order, j);
        if j != i {
          LookupNode(t', order, j);
        } else {
          forall x | 0 <= x < |t'.node| ensures t'.node[x].key != Live(k) { if x != i { OnlyOne(t, order, x, i); } }
          LookupAbsent(t', k);
        }
      } else {
        LookupAbsent(t', k);
      }
    }
  }

  ghost function PendingInt(ek: Key): set<int> { if Candidate(Live(ek)) then {ek.n} else {} }

  lemma FreeLookup(t: Table, t': Table, order: seq<nat>)
    requires t' == t.(lastfree := t'.lastfree) && Inv(t, order) && Inv(t', order)
    ensures (forall k :: Lookup(t', k) == Lookup(t, k)) && (forall k :: Absent(t, k) ==> Absent(t', k))
  {
    hide Chains, AllPlaced;
    SameNodesLookup(t, t', order);
  }

  lemma ArrayBounded(arr: seq<Option<Value>>)
    requires |arr| <= Pow2(MAXBITS)
    ensures ArrayKeys(arr, Pow2(MAXBITS)) == ArrayKeys(arr, |arr|)
  {
  }

  /** The three sources of integer keys do not overlap, and all are candidates. */
  lemma RehashDisjoint(t: Table, order: seq<nat>, ek: Key)
    requires Inv(t, order) && Absent(t, ek) && |t.arr| <= Pow2(MAXBITS)
    ensures NoLiveTwice(t.node)
    ensures forall i :: 0 <= i < |t.node| && t.node[i].key.Live? && t.node[i].key.k.Num? ==>
      t.node[i].key.k.n !in ArrayKeys(t.arr, |t.arr|)
    ensures Candidate(Live(ek)) ==> ek.n !in ArrayKeys(t.arr, |t.arr|) + NodeInts(t.node, 0)
    ensures forall n :: n in ArrayKeys(t.arr, |t.arr|) + NodeInts(t.node, 0) + PendingInt(ek) ==>
      1 <= n <= Pow2(MAXBITS)
    ensures ArrayKeys(t.arr, |t.arr|) !! NodeInts(t.node, 0)
  {
    hide Inv, NodeInts, ArrayKeys, Absent, NoLiveTwice, Pow2;
    LiveOnce(t, order);
    HashedOnly(t, order);
    forall n | n in NodeInts(t.node, 0)
      ensures 1 <= n <= Pow2(MAXBITS) && n !in ArrayKeys(t.arr, |t.arr|) && !(ek.Num? && ek.n == n)
    {
      NodeIntsFrom(t.node, 0, n);
      AbsentInt(t, ek, n);
    }
    ArrayInts(t, ek);
  }

  lemma LiveOnce(t: Table, order: seq<nat>)
    requires Inv(t, order)
    ensures NoLiveTwice(t.node)
  {
    hide Chains, AllPlaced;
    forall i, j | 0 <= i < j < |t.node| && t.node[i].key.Live?
      ensures t.node[i].key != t.node[j].key
    {
      OnlyOne(t, order, j, i);
    }
  }

  /** No key of the hash part belongs to the array part. */
  lemma HashedOnly(t: Table, order: seq<nat>)
    requires Inv(t, order)
    ensures forall i :: 0 <= i < |t.node| && t.node[i].key.Live? && t.node[i].key.k.Num? ==>
      t.node[i].key.k.n !in ArrayKeys(t.arr, |t.arr|)
  {
    hide Chains, AllPlaced;
  }

  lemma AbsentInt(t: Table, ek: Key, n: int)
    requires Absent(t, ek) && exists i :: 0 <= i < |t.node| && t.node[i].key == Live(Num(n))
    ensures !(ek.Num? && ek.n == n)
  {
  }

  lemma ArrayInts(t: Table, ek: Key)
    requires Absent(t, ek) && |t.arr| <= Pow2(MAXBITS)
    ensures forall n :: n in ArrayKeys(t.arr, |t.arr|) ==> 1 <= n <= Pow2(MAXBITS)
    ensures ek.Num? ==> ek.n !in ArrayKeys(t.arr, |t.arr|)
  {
  }

  /** The hash part needs room for exactly the entries, with the pending one, that are not
      counted into the array part. */
  lemma RoomNeeded(t: Table, order: seq<nat>, ek: Key, size: nat)
    requires Inv(t, order) && Absent(t, ek) && |t.arr| <= Pow2(MAXBITS)
    requires BestSize(ArrayKeys(t.arr, |t.arr|) + NodeInts(t.node, 0) + PendingInt(ek), size)
    ensures var keys := ArrayKeys(t.arr, |t.arr|) + NodeInts(t.node, 0) + PendingInt(ek);
      && size <= Pow2(MAXBITS)
      && |ArrayKeys(t.arr, |t.arr|)| + NodesOut(t.node, 0, 0) + 1 - |UpTo(keys, size)|
         == ArrayOut(t.arr, size) + NodesOut(t.node, 0, size) + (if ek.Num? && 1 <= ek.n <= size then 0 else 1)
  {
    hide Inv, NodesOut, ArrayOut, NodeInts, ArrayKeys, BestSize, UpTo, PendingInt, Absent;
    RehashDisjoint(t, order, ek);
    var a, b, p := ArrayKeys(t.arr, |t.arr|), NodeInts(t.node, 0), PendingInt(ek);
    PendingDisjoint(t, ek);
    BestBound(a + b + p, size);
    ArrayInOut(t.arr, size);
    NodesInOut(t.node, 0, size);
    ArrayUpTo(t.arr, size);
    UpToUnion(a, b, p, size);
    PendingUpTo(ek, size);
  }

  lemma PendingDisjoint(t: Table, ek: Key)
    requires Candidate(Live(ek)) ==> ek.n !in ArrayKeys(t.arr, |t.arr|) + NodeInts(t.node, 0)
    ensures PendingInt(ek) !! ArrayKeys(t.arr, |t.arr|) && PendingInt(ek) !! NodeInts(t.node, 0)
  {
  }

  lemma UpToUnion(a: set<int>, b: set<int>, c: set<int>, m: int)
    requires a !! b && c !! a && c !! b
    ensures |UpTo(a + b + c, m)| == |UpTo(a, m)| + |UpTo(b, m)| + |UpTo(c, m)|
  {
    assert UpTo(a + b + c, m) == UpTo(a, m) + UpTo(b, m) + UpTo(c, m);
    Disjoint3(UpTo(a, m), UpTo(b, m), UpTo(c, m));
  }

  lemma Disjoint3(a: set<int>, b: set<int>, c: set<int>)
    requires a !! b && a !! c && b !! c
    ensures |a + b + c| == |a| + |b| + |c|
  {
  }

  lemma PendingUpTo(ek: Key, size: nat)
    requires size <= Pow2(MAXBITS)
    ensures |UpTo(PendingInt(ek), size)| == if ek.Num? && 1 <= ek.n <= size then 1 else 0
  {
    if ek.Num? && 1 <= ek.n <= size { assert UpTo(PendingInt(ek), size) == {ek.n}; }
      else { assert UpTo(PendingInt(ek), size) == {}; }
  }

  lemma ArrayUpTo(arr: seq<Option<Value>>, size: nat)
    ensures UpTo(ArrayKeys(arr, |arr|), size) == ArrayKeys(arr, size)
  {
  }

  lemma BestBound(keys: set<int>, size: nat)
    requires BestSize(keys, size) && forall n :: n in keys ==> 1 <= n <= Pow2(MAXBITS)
    ensures size <= Pow2(MAXBITS)
  {
    if size > 0 {
      var i: nat :| size == Pow2(i) && MoreThanHalf(keys, i);
      if i > MAXBITS { NoCandidate(keys, MAXBITS, i); } else { Pow2Monotone(i, MAXBITS); }
    }
  }

  /** The key has been put into the new table once the nodes from `i` on have been. */
  ghost predicate Copied(t: Table, i: nat, k: Key)
  {
    InArray(t, k) || exists j :: i <= j < |t.node| && t.node[j].key == Live(k)
  }

  lemma NoneCopied(t: Table)
    ensures forall k :: Copied(t, |t.node|, k) <==> InArray(t, k)
  {
  }

  lemma AllCopied(t: Table, k: Key)
    ensures !Copied(t, 0, k) ==> Lookup(t, k) == None
  {
  }

  lemma FreshInv(t: Table)
    requires |t.node| > 0 && (if t.dummy then |t.node| == 1 && t.lastfree == 0 else t.lastfree == |t.node|)
    requires forall i :: 0 <= i < |t.node| ==> t.node[i] == Node(None, NilKey, None)
    ensures Inv(t, [])
  {
  }

  lemma FreshEmpty(t: Table)
    requires (forall i :: 0 <= i < |t.node| ==> t.node[i].key == NilKey)
    requires forall i :: 0 <= i < |t.arr| ==> t.arr[i] == None
    ensures forall k :: Lookup(t, k) == None
  {
  }

  lemma FreshLookup(t: Table, t': Table)
    requires forall i :: 0 <= i < |t'.node| ==> t'.node[i].key == NilKey
    requires t'.arr == if |t'.arr| > |t.arr| then t.arr + seq(|t'.arr| - |t.arr|, _ => None) else t.arr[..|t'.arr|]
    ensures forall k :: Lookup(t', k) == if k.Num?
      && 1 <= k.n <= (if |t'.arr| < |t.arr| then |t'.arr| else |t.arr|) then Lookup(t, k) else None
  {
  }

  lemma ArrayLookup(t: Table, i: nat)
    requires i < |t.arr|
    ensures Lookup(t, Num(i + 1)) == t.arr[i]
  {
  }

  lemma {:induction false} NodesOutBound(node: seq<Node>, i: nat, m: nat)
    requires i <= |node|
    ensures NodesOut(node, i, m) <= NodesOut(node, 0, m)
    decreases i
  {
    if i > 0 { NodesOutBound(node, i - 1, m); }
  }

  /** Going down one node adds its key to those copied. */
  lemma CopyStep(t: Table, order: seq<nat>, i: nat)
    requires Inv(t, order) && i < |t.node|
    ensures t.node[i].val.Some? ==> t.node[i].key.Live?
    ensures forall k :: Copied(t, i, k) <==> Copied(t, i + 1, k) || t.node[i].key == Live(k)
    ensures t.node[i].key.Live? ==> Lookup(t, t.node[i].key.k) == t.node[i].val && !InArray(t, t.node[i].key.k)
  {
    hide Chains, AllPlaced;
    if t.node[i].val.Some? { CollidingLive2(t, order, i); }
    if t.node[i].key.Live? { LookupNode(t, order, i); }
  }

  lemma CollidingLive2(t: Table, order: seq<nat>, i: nat)
    requires Inv(t, order) && i < |t.node| && t.node[i].val.Some?
    ensures t.node[i].key.Live?
  {
    CollidingLive(t, order, i);
  }

  /** A list that holds every number below `n` has at least `n` elements. */
  lemma {:induction false} Covers(l: seq<nat>, n: nat)
    requires forall i: nat :: i < n ==> i in l
    ensures |l| >= n
  {
    if n > 0 {
      var p := IndexOf(l, n - 1);
      var l' := l[..p] + l[p + 1..];
      forall i: nat | i < n - 1 ensures i in l' {
        var q := IndexOf(l, i);
        assert l'[if q < p then q else q - 1] == i;
      }
      Covers(l', n - 1);
    }
  }

  /** A full hash part has as many chained nodes as nodes. */
  lemma Full(t: Table, order: seq<nat>)
    requires Inv(t, order) && forall i :: 0 <= i < |t.node| ==> t.node[i].key != NilKey
    ensures |order| >= |t.node|
  {
    hide AllPlaced, KeysUnique;
    forall i: nat | i < |t.node| ensures i in order { UsedOnly(t, order, i); }
    Covers(order, |t.node|);
  }

  lemma AllUsed(t: Table, order: seq<nat>, t': Table)
    requires Inv(t, order) && !t.dummy && t' == t.(lastfree := t'.lastfree) && t'.lastfree <= |t.node|
    requires forall i :: 0 <= i < |t.node| ==> t.node[i].key != NilKey
    ensures Inv(t', order)
  {
    FrameInv(t, order, t');
  }

  lemma Sizes(t: Table, order: seq<nat>)
    requires Inv(t, order)
    ensures |t.node| > 0
  {
  }

  lemma Colliding(t: Table, order: seq<nat>, mp: nat, t': Table)
    requires Inv(t, order) && mp < |t.node| && t.node[mp].val.Some? && t' == t.(lastfree := t'.lastfree)
    ensures t.node[mp].key.Live? && Chains(t', order) && AllPlaced(t', order) && |t.node| > 0
  {
    hide KeysUnique;
    forall p | 0 <= p < |order| ensures LinkOk(t', order, p) { assert LinkOk(t, order, p); }
    forall i | 0 <= i < |t.node| && t.node[i].key != NilKey ensures Placed(t', order, i) { assert Placed(t, order, i); }
    assert t.node[mp].key.Live? by { CollidingLive(t, order, mp); }
  }

  lemma CollidingLive(t: Table, order: seq<nat>, mp: nat)
    requires Inv(t, order) && mp < |t.node| && t.node[mp].val.Some?
    ensures t.node[mp].key.Live?
  {
  }

  /** Where newkey stands once it has a free node: everything above it is in use. */
  predicate HasFree(t: Table, n: nat)
  {
    n < |t.node| && t.node[n].key == NilKey && forall i :: 0 <= i < |t.node| && i > n ==> t.node[i].key != NilKey
  }

  lemma LowerFree(t: Table, order: seq<nat>, n: nat)
    requires Inv(t, order) && n < |t.node| && t.node[n].key != NilKey && !t.dummy && t.lastfree == n + 1
    ensures Inv(t.(lastfree := n), order)
  {
    FrameInv(t, order, t.(lastfree := n));
  }

  lemma MoveDone(t: Table, order: seq<nat>, prev: nat, n: nat, k: Key, v: Option<Value>)
    requires Inv(t, order) && !t.dummy && Absent(t, k) && HasFree(t, n)
    requires var mp := Main(t, k);
      && t.node[mp].key.Live? && Main(t, t.node[mp].key.k) != mp
      && mp in order && IndexOf(order, mp) > 0 && prev == order[IndexOf(order, mp) - 1] && prev < |t.node|
      && t.node[prev].next == Some(mp)
    ensures var mp := Main(t, k);
      var t', order' := Move(t.(lastfree := n), prev, mp, n, k, v), Moved(order, IndexOf(order, mp), n);
      Inv(t', order') && |order'| == |order| + 1 && forall k' :: Lookup(t', k') == if k' == k then v else Lookup(t, k')
  {
    hide Lookup, Inv, IndexOf;
    var mp := Main(t, k);
    var t1 := t.(lastfree := n + 1);
    FreeMoved(t, order, t1, n);
    MoveReady(t1, order, prev, mp, n);
    MoveKeepsInv(t1, order, prev, n, k, v);
    MoveNodes(t1, order, prev, mp, n);
    LowerFree(Move(t1, prev, mp, n, k, v), Moved(order, IndexOf(order, mp), n), n);
    Added(t, Move(t.(lastfree := n), prev, mp, n, k, v), order, Moved(order, IndexOf(order, mp), n), k, v, mp, n);
  }

  lemma MoveNodes(t: Table, order: seq<nat>, prev: nat, mp: nat, n: nat)
    requires Movable(t, order, prev, mp, n)
    ensures prev != n && prev != mp && mp != n
  {
    MoveBounds(t, order, prev, mp, n);
  }

  lemma InsertDone(t: Table, order: seq<nat>, n: nat, k: Key, v: Option<Value>)
    requires Inv(t, order) && !t.dummy && Absent(t, k) && HasFree(t, n)
    requires var mp := Main(t, k); t.node[mp].key.Live? && Main(t, t.node[mp].key.k) == mp
    ensures Main(t, k) in order
    ensures var mp := Main(t, k);
      var t', order' := InsertAfter(t.(lastfree := n), mp, n, k, v), Inserted(order, IndexOf(order, mp), n);
      Inv(t', order') && |order'| == |order| + 1 && forall k' :: Lookup(t', k') == if k' == k then v else Lookup(t, k')
  {
    hide Lookup, Inv, IndexOf;
    var mp := Main(t, k);
    var t1 := t.(lastfree := n + 1);
    FreeMoved(t, order, t1, n);
    InsertAfterKeepsInv(t1, order, n, k, v);
    var a := IndexOf(order, mp);
    InsertedAt(order, a, n);
    FreeHasNoValue(t, order, n);
    LowerFree(InsertAfter(t1, mp, n, k, v), Inserted(order, a, n), n);
    Added(t, InsertAfter(t.(lastfree := n), mp, n, k, v), order, Inserted(order, a, n), k, v, n, n);
  }

  lemma FreeHasNoValue(t: Table, order: seq<nat>, n: nat)
    requires Inv(t, order) && n < |t.node| && t.node[n].key == NilKey
    ensures t.node[n].val.None?
  {
  }

  lemma OccupyDone(t: Table, order: seq<nat>, k: Key, v: Option<Value>) returns (order': seq<nat>)
    requires Inv(t, order) && !t.dummy && Absent(t, k) && t.node[Main(t, k)].val.None?
    ensures var t' := Occupy(t, Main(t, k), k, v);
      Inv(t', order') && |order'| <= |order| + 1 && forall k' :: Lookup(t', k') == if k' == k then v else Lookup(t, k')
  {
    hide Lookup, Inv;
    Sizes(t, order);
    var mp := Main(t, k);
    if t.node[mp].key == NilKey {
      OccupyFree(t, order, k, v);
      order' := order + [mp];
    } else {
      OccupyUsed(t, order, k, v);
      order' := order;
    }
    Added(t, Occupy(t, mp, k, v), order, order', k, v, mp, mp);
  }

  lemma LinkedSteps(t: Table, order: seq<nat>, a: nat, c: nat)
    requires LinkedUpTo(t, order, a, c) && Chains(t, order) && c < |order|
    ensures forall b :: a <= b < c ==> order[b] < |t.node| && t.node[order[b]].next == Some(order[b + 1])
  {
    forall b | a <= b < c ensures order[b] < |t.node| && t.node[order[b]].next == Some(order[b + 1]) {
      assert LinkOk(t, order, b);
    }
  }

  lemma ArraySet(t: Table, order: seq<nat>, k: Key, v: Option<Value>)
    requires Inv(t, order) && InArray(t, k)
    ensures var t' := t.(arr := t.arr[k.n - 1 := v]);
      Inv(t', order) && forall k' :: Lookup(t', k') == if k' == k then v else Lookup(t, k')
  {
    hide Chains, AllPlaced;
    var t' := t.(arr := t.arr[k.n - 1 := v]);
    FrameInv(t, order, t');
    SameNodesLookup(t, t', order);
  }

  lemma SameNodesLookup(t: Table, t': Table, order: seq<nat>)
    requires KeysUnique(t, order) && KeysUnique(t', order) && t'.node == t.node && |t'.arr| == |t.arr|
    ensures forall k :: !InArray(t, k) ==> Lookup(t', k) == Lookup(t, k)
  {
    forall k | !InArray(t, k) ensures Lookup(t', k) == Lookup(t, k) {
      if i :| 0 <= i < |t.node| && t.node[i].key == Live(k) {
        LookupNode(t, order, i);
        LookupNode(t', order, i);
      }
    }
  }

  /** The shape does not depend on `lastfree` beyond the free nodes, nor on array values. */
  lemma FrameInv(t: Table, order: seq<nat>, t': Table)
    requires Inv(t, order) && t' == t.(lastfree := t'.lastfree, arr := t'.arr) && |t'.arr| == |t.arr| && FreeBelow(t')
    ensures Inv(t', order)
  {
    hide Chains, AllPlaced, KeysUnique;
    FrameChains(t, order, t');
    FramePlaced(t, order, t');
    FrameUnique(t, order, t');
  }

  lemma FrameChains(t: Table, order: seq<nat>, t': Table)
    requires Chains(t, order) && t'.node == t.node
    ensures Chains(t', order)
  {
    forall p | 0 <= p < |order| ensures LinkOk(t', order, p) { assert LinkOk(t, order, p); }
  }

  lemma FramePlaced(t: Table, order: seq<nat>, t': Table)
    requires AllPlaced(t, order) && t'.node == t.node && t'.hash == t.hash
    ensures AllPlaced(t', order)
  {
    hide Placed;
    forall i | 0 <= i < |t.node| && t.node[i].key != NilKey ensures Placed(t', order, i) { PlacedAt(t, order, t', i); }
  }

  lemma PlacedAt(t: Table, order: seq<nat>, t': Table, i: nat)
    requires |t.node| > 0 && i < |t.node| && t.node[i].key != NilKey && Placed(t, order, i) && t'.node == t.node
    requires t'.hash == t.hash
    ensures Placed(t', order, i)
  {
  }

  lemma FrameUnique(t: Table, order: seq<nat>, t': Table)
    requires KeysUnique(t, order) && t'.node == t.node && |t'.arr| == |t.arr|
    ensures KeysUnique(t', order)
  {
    forall i, j | SameLive(t', i, j) ensures i == j { assert SameLive(t, i, j); }
    forall p, q | 0 <= p < |order| && 0 <= q < |order| && Same(t', order[p], order[q])
      ensures p < q
    {
      assert Same(t, order[p], order[q]);
    }
  }

  /** getfreepos only moves `lastfree`, past nodes in use. */
  lemma FreeMoved(t: Table, order: seq<nat>, t': Table, n: nat)
    requires Inv(t, order) && t' == t.(lastfree := n + 1) && HasFree(t, n) && !t.dummy
    ensures Inv(t', order)
  {
    FrameInv(t, order, t');
  }

  lemma MoveReady(t: Table, order: seq<nat>, prev: nat, mp: nat, n: nat)
    requires Inv(t, order) && mp < |t.node| && t.node[mp].key.Live? && Main(t, t.node[mp].key.k) != mp
    requires mp in order && IndexOf(order, mp) > 0 && prev == order[IndexOf(order, mp) - 1] && prev < |t.node|
    requires t.node[prev].next == Some(mp)
    requires n < |t.node| && t.node[n].key == NilKey
    ensures Movable(t, order, prev, mp, n)
  {
    UsedOnly(t, order, n);
  }

  lemma Added(t: Table, t': Table, order: seq<nat>, order': seq<nat>, k: Key, v: Option<Value>, at: nat, to: nat)
    requires Inv(t, order) && Inv(t', order') && Adds(t, t', k, v, at, to)
    ensures forall k' :: Lookup(t', k') == if k' == k then v else Lookup(t, k')
  {
    hide Chains, AllPlaced;
    forall k' ensures Lookup(t', k') == if k' == k then v else Lookup(t, k') {
      AddsLookup(t, t', order, order', k, v, at, to, k');
    }
  }
}

/** Traversal with luaH_next and the length operator (ltable.c). */
module TableTraverse {
  import opened Base
  import opened Table

  /** findindex accepts a key the collector has cleared meanwhile. */
  predicate HasKey(n: Node, k: Key) { n.key == Live(k) || n.key == Dead(k) }

  /** Node `i` is the first in the chains that holds or held the key `k`. */
  ghost predicate IsFirst(t: Table, order: seq<nat>, k: Key, i: nat)
  {
    && i < |t.node| && HasKey(t.node[i], k) && i in order
    && forall j :: 0 <= j < |t.node| && HasKey(t.node[j], k) && j in order ==> IndexOf(order, i) <= IndexOf(order, j)
  }

  lemma FirstUnique(t: Table, order: seq<nat>, k: Key, i: nat, j: nat)
    requires IsFirst(t, order, k, i) && IsFirst(t, order, k, j)
    ensures i == j
  {
  }

  /** What may happen to a table during a traversal: values change, and keys die. Neither
      part is resized and no new key comes in. */
  ghost predicate KeepsKeys(t: Table, t': Table)
  {
    && |t'.arr| == |t.arr| && |t'.node| == |t.node|
    && forall i :: 0 <= i < |t.node| ==> KeptKey(t.node[i].key, t'.node[i].key)
  }

  predicate KeptKey(k: NodeKey, k': NodeKey) { k' == k || (k.Live? && k' == Dead(k.k)) }

  lemma KeepsTrans(t: Table, t': Table, t'': Table)
    requires KeepsKeys(t, t') && KeepsKeys(t', t'')
    ensures KeepsKeys(t, t'')
  {
    forall i | 0 <= i < |t.node| ensures KeptKey(t.node[i].key, t''.node[i].key) {
      assert KeptKey(t.node[i].key, t'.node[i].key) && KeptKey(t'.node[i].key, t''.node[i].key);
    }
  }

  /** A key that was live stays the one findindex finds, even if it dies, and even if another
      node still shows the same key from an earlier life. */
  lemma LiveIsFirst(t: Table, order: seq<nat>, t': Table, i: nat)
    requires Inv(t, order) && KeepsKeys(t, t') && i < |t.node| && t.node[i].key.Live?
    ensures IsFirst(t', order, t.node[i].key.k, i)
  {
    hide AllPlaced;
    var k := t.node[i].key.k;
    UsedOnly(t, order, i);
    assert KeptKey(t.node[i].key, t'.node[i].key);
    forall j | 0 <= j < |t'.node| && HasKey(t'.node[j], k) && j in order
      ensures IndexOf(order, i) <= IndexOf(order, j)
    {
      assert KeptKey(t.node[j].key, t'.node[j].key);
      if j != i {
        OnlyOne(t, order, j, i);
        assert Same(t, order[IndexOf(order, i)], order[IndexOf(order, j)]);
      }
    }
  }

  /** The entry at a position: first the array part, then the nodes. */
  function EntryAt(t: Table, p: nat): (e: Option<(Key, Value)>)
    ensures e.Some? ==> p < |t.arr| + |t.node|
  {
    if p < |t.arr| then (if t.arr[p].Some? then Some((Num(p + 1), t.arr[p].value)) else None)
    else if p - |t.arr| < |t.node| && t.node[p - |t.arr|].val.Some? && t.node[p - |t.arr|].key.Live?
    then Some((t.node[p - |t.arr|].key.k, t.node[p - |t.arr|].val.value)) else None
  }

  function Positions(t: Table): nat { |t.arr| + |t.node| }

  /** The first entry at or after a position, or the number of positions. */
  function NextEntry(t: Table, p: nat): (q: nat)
    requires p <= Positions(t)
    ensures p <= q <= Positions(t) && (q < Positions(t) ==> EntryAt(t, q).Some?)
    ensures forall r :: p <= r < q ==> EntryAt(t, r).None?
    decreases Positions(t) - p
  {
    if p == Positions(t) || EntryAt(t, p).Some? then p else NextEntry(t, p + 1)
  }

  /** Position `p` is where findindex finds the key `k`. */
  ghost predicate FoundAt(t: Table, order: seq<nat>, k: Key, p: nat)
  {
    if InArray(t, k) then p == k.n - 1 else p >= |t.arr| && IsFirst(t, order, k, p - |t.arr|)
  }

  lemma EntryFound(t: Table, order: seq<nat>, t': Table, p: nat)
    requires Inv(t, order) && KeepsKeys(t, t') && EntryAt(t, p).Some?
    ensures FoundAt(t', order, EntryAt(t, p).value.0, p)
  {
    hide Chains, AllPlaced, IsFirst;
    if p >= |t.arr| {
      LiveIsFirst(t, order, t', p - |t.arr|);
    }
  }

  lemma FoundUnique(t: Table, order: seq<nat>, k: Key, p: nat, q: nat)
    requires FoundAt(t, order, k, p) && FoundAt(t, order, k, q)
    ensures p == q
  {
    if !InArray(t, k) { FirstUnique(t, order, k, p - |t.arr|, q - |t.arr|); }
  }

  /** luaH_next: the entry after the one with key `prev`, or the first one; None at the end. */
  ghost predicate IsNext(t: Table, order: seq<nat>, prev: Option<Key>, r: Option<(Key, Value)>)
  {
    exists p {:trigger NextEntry(t, p)} :: 0 <= p <= Positions(t)
      && (if prev.None? then p == 0 else p > 0 && FoundAt(t, order, prev.value, p - 1))
      && r == if NextEntry(t, p) == Positions(t) then None else EntryAt(t, NextEntry(t, p))
  }

  /** A traversal: `es[j]` is what next returns in table `ts[j]`, after `es[j - 1]`, and in the
      last table it returns nothing more. */
  ghost predicate Traversal(ts: seq<Table>, order: seq<nat>, es: seq<(Key, Value)>)
  {
    && |ts| == |es| + 1
    && (forall j :: 0 <= j < |ts| ==> Inv(ts[j], order))
    && (forall i, j :: 0 <= i < j < |ts| ==> KeepsKeys(ts[i], ts[j]))
    && (forall j :: 0 <= j < |ts| ==>
       IsNext(ts[j], order, if j == 0 then None else Some(es[j - 1].0), if j < |es| then Some(es[j]) else None))
  }

  ghost predicate AlwaysAt(ts: seq<Table>, p: nat) { forall j :: 0 <= j < |ts| ==> EntryAt(ts[j], p).Some? }

  ghost predicate AlwaysHas(ts: seq<Table>, k: Key) { forall j :: 0 <= j < |ts| ==> Lookup(ts[j], k).Some? }

  predicate Reported(es: seq<(Key, Value)>, k: Key) { exists j :: 0 <= j < |es| && es[j].0 == k }

  /** One call of next in a changed table goes on right after the position of the last entry. */
  lemma NextAfter(t: Table, t': Table, order: seq<nat>, p: nat, r: Option<(Key, Value)>)
    requires Inv(t, order) && KeepsKeys(t, t') && EntryAt(t, p).Some?
    requires IsNext(t', order, Some(EntryAt(t, p).value.0), r)
    ensures p < Positions(t')
    ensures r == if NextEntry(t', p + 1) == Positions(t') then None else EntryAt(t', NextEntry(t', p + 1))
  {
    hide Inv, FoundAt, NextEntry, KeepsKeys;
    var k := EntryAt(t, p).value.0;
    EntryFound(t, order, t', p);
    var q :| 0 <= q <= Positions(t') && q > 0 && FoundAt(t', order, k, q - 1)
      && r == if NextEntry(t', q) == Positions(t') then None else EntryAt(t', NextEntry(t', q));
    FoundUnique(t', order, k, p, q - 1);
  }

  /** The positions a traversal visits go up, and it misses no position that has an entry in
      all the tables of the traversal. */
  lemma PositionsVisited(ts: seq<Table>, order: seq<nat>, es: seq<(Key, Value)>) returns (ps: seq<nat>)
    requires Traversal(ts, order, es)
    ensures |ps| == |es| && forall j :: 0 <= j < |es| ==> EntryAt(ts[j], ps[j]) == Some(es[j])
    ensures forall i, j :: 0 <= i < j < |ps| ==> ps[i] < ps[j]
    ensures forall q: nat :: AlwaysAt(ts, q) ==> q in ps
  {
    hide Inv, FoundAt, EntryAt, NextEntry, IsNext, KeepsKeys;
    ps := [];
    var next := 0;
    for n := 0 to |es|
      invariant |ps| == n && forall j :: 0 <= j < n ==> EntryAt(ts[j], ps[j]) == Some(es[j])
      invariant forall i, j :: 0 <= i < j < n ==> ps[i] < ps[j]
      invariant forall j :: 0 <= j < n ==> ps[j] < next
      invariant n == 0 ==> next == 0
      invariant n > 0 ==> next == ps[n - 1] + 1
      invariant forall q: nat :: q < next && AlwaysAt(ts, q) ==> q in ps
    {
      var q := Next(ts, order, es, ps, n);
      assert forall p: nat :: AlwaysAt(ts, p) ==> EntryAt(ts[n], p).Some?;
      ps, next := ps + [q], q + 1;
    }
    var q := Next(ts, order, es, ps, |es|);
    forall p: nat | AlwaysAt(ts, p) ensures p in ps {
      assert EntryAt(ts[|es|], p).Some? && p < q;
    }
  }

  lemma Next(ts: seq<Table>, order: seq<nat>, es: seq<(Key, Value)>, ps: seq<nat>, n: nat) returns (q: nat)
    requires Traversal(ts, order, es) && n < |ts| && |ps| == n
    requires forall j :: 0 <= j < n ==> EntryAt(ts[j], ps[j]) == Some(es[j])
    ensures n > 0 ==> q > ps[n - 1]
    ensures n < |es| ==> EntryAt(ts[n], q) == Some(es[n])
    ensures n == |es| ==> q == Positions(ts[n])
    ensures forall p :: (if n == 0 then 0 else ps[n - 1] + 1) <= p < q ==> EntryAt(ts[n], p).None?
  {
    hide Inv, FoundAt;
    var r := if n < |es| then Some(es[n]) else None;
    assert IsNext(ts[n], order, if n == 0 then None else Some(es[n - 1].0), r);
    if n == 0 {
      q := NextEntry(ts[0], 0);
    } else {
      assert Inv(ts[n - 1], order);
      NextAfter(ts[n - 1], ts[n], order, ps[n - 1], r);
      q := NextEntry(ts[n], ps[n - 1] + 1);
    }
  }

  lemma EntryLookup(t: Table, order: seq<nat>, p: nat)
    requires Inv(t, order) && EntryAt(t, p).Some?
    ensures Lookup(t, EntryAt(t, p).value.0) == Some(EntryAt(t, p).value.1)
  {
    hide Chains, AllPlaced, FreeBelow;
    if p >= |t.arr| { LookupNode(t, order, p - |t.arr|); }
  }

  lemma LookupEntry(t: Table, order: seq<nat>, k: Key) returns (p: nat)
    requires Inv(t, order) && Lookup(t, k).Some?
    ensures EntryAt(t, p) == Some((k, Lookup(t, k).value))
  {
    if InArray(t, k) {
      p := k.n - 1;
    } else {
      var i :| 0 <= i < |t.node| && t.node[i].key == Live(k);
      LookupNode(t, order, i);
      p := i + |t.arr|;
    }
  }

  /** However values change and keys die under it, a traversal reports what the table holds,
      never reports a key twice, and reports every key that has a value all along. */
  lemma TraversalVisitsOnce(ts: seq<Table>, order: seq<nat>, es: seq<(Key, Value)>)
    requires Traversal(ts, order, es)
    ensures forall j :: 0 <= j < |es| ==> Lookup(ts[j], es[j].0) == Some(es[j].1)
    ensures forall i, j :: 0 <= i < j < |es| ==> es[i].0 != es[j].0
    ensures forall k :: AlwaysHas(ts, k) ==> Reported(es, k)
  {
    hide Inv, FoundAt;
    var ps := PositionsVisited(ts, order, es);
    forall j | 0 <= j < |es| ensures Lookup(ts[j], es[j].0) == Some(es[j].1) {
      assert Inv(ts[j], order);
      EntryLookup(ts[j], order, ps[j]);
    }
    forall i, j | 0 <= i < j < |es| ensures es[i].0 != es[j].0 {
      assert Inv(ts[i], order) && Inv(ts[j], order);
      SamePosition(ts[i], ts[j], order, ps[i], ps[j]);
    }
    forall k | AlwaysHas(ts, k) ensures Reported(es, k) {
      Visited(ts, order, es, ps, k);
    }
  }

  lemma SamePosition(t: Table, t': Table, order: seq<nat>, p: nat, q: nat)
    requires Inv(t, order) && Inv(t', order) && KeepsKeys(t, t') && EntryAt(t, p).Some? && EntryAt(t', q).Some?
    ensures EntryAt(t, p).value.0 == EntryAt(t', q).value.0 ==> p == q
  {
    hide Inv;
    if EntryAt(t, p).value.0 == EntryAt(t', q).value.0 {
      EntryFound(t, order, t', p);
      EntryFound(t', order, t', q);
      FoundUnique(t', order, EntryAt(t, p).value.0, p, q);
    }
  }

  lemma Visited(ts: seq<Table>, order: seq<nat>, es: seq<(Key, Value)>, ps: seq<nat>, k: Key)
    requires Traversal(ts, order, es)
    requires |ps| == |es| && forall j :: 0 <= j < |es| ==> EntryAt(ts[j], ps[j]) == Some(es[j])
    requires forall q: nat :: AlwaysAt(ts, q) ==> q in ps
    requires AlwaysHas(ts, k)
    ensures Reported(es, k)
  {
    hide Inv, FoundAt;
    assert Inv(ts[0], order);
    var p := LookupEntry(ts[0], order, k);
    forall j | 0 <= j < |ts| ensures EntryAt(ts[j], p).Some? && EntryAt(ts[j], p).value.0 == k {
      assert Inv(ts[j], order);
      var q := LookupEntry(ts[j], order, k);
      if j > 0 { SamePosition(ts[0], ts[j], order, p, q); }
    }
    assert AlwaysAt(ts, p);
    var j :| 0 <= j < |ps| && ps[j] == p;
    assert es[j].0 == k;
  }
}

/** Lua tables: an array part and a hash part that is a chained scatter table with Brent's
    variation (ltable.c). This module is the data model and its invariant. */
module Table {
  import opened Base

  /** Table keys. Numbers with an integer value are `Num`; every other number is a `Frac`. */
  datatype Key = Num(n: int) | Frac(id: int) | Bool(b: bool) | Light(ptr: int) | Str(str: int) | Obj(obj: int)

  /** Any value but nil; nil is None. */
  type Value = int

  predicate Collectable(k: Key) { k.Str? || k.Obj? }

  /** A key slot: never used, a key, or a key the collector has cleared but left in place. */
  datatype NodeKey = NilKey | Live(k: Key) | Dead(k: Key)

  datatype Node = Node(val: Option<Value>, key: NodeKey, next: Option<nat>)

  /** `hash` is the hash of a key before it is reduced to the size of the table; `dummy` says
      that the hash part is the shared empty node. */
  datatype Table = Table(hash: Key -> nat, arr: seq<Option<Value>>, node: seq<Node>, lastfree: int, dummy: bool)

  /** mainposition: zero goes to the first node, strings and booleans are reduced by the
      size, everything else by an odd number. */
  function MainPosition(hash: Key -> nat, k: Key, size: nat): (m: nat)
    requires size > 0
    ensures m < size
  {
    if k == Num(0) then 0
    else if k.Str? || k.Bool? then hash(k) % size
    else hash(k) % (if size == 1 then 1 else size - 1)
  }

  function Main(t: Table, k: Key): (m: nat)
    requires |t.node| > 0
    ensures m < |t.node|
  {
    MainPosition(t.hash, k, |t.node|)
  }

  predicate InArray(t: Table, k: Key) { k.Num? && 1 <= k.n <= |t.arr| }

  /** What the table holds, as a mathematical map: the array slot of the key, or the value
      of the node that has the key. */
  ghost function Lookup(t: Table, k: Key): Option<Value>
  {
    if InArray(t, k) then t.arr[k.n - 1]
    else if exists i :: 0 <= i < |t.node| && t.node[i].key == Live(k) then
      var i :| 0 <= i < |t.node| && t.node[i].key == Live(k);
      t.node[i].val
    else None
  }

  function IndexOf(l: seq<nat>, x: nat): (p: nat)
    requires x in l
    ensures p < |l| && l[p] == x
  {
    if l[0] == x then 0 else 1 + IndexOf(l[1..], x)
  }

  /** From position `a` of `order` to position `b` the nodes are linked to one another. */
  ghost predicate LinkedUpTo(t: Table, order: seq<nat>, a: nat, b: nat)
  {
    forall p :: a <= p < b && p < |order| && order[p] < |t.node| ==> t.node[order[p]].next.Some?
  }

  /** The node at position `p` of `order` is a used one, linked to the next or to nothing. */
  predicate LinkOk(t: Table, order: seq<nat>, p: nat)
    requires p < |order|
  {
    && order[p] < |t.node| && t.node[order[p]].key != NilKey
    && (t.node[order[p]].next.None? || (p + 1 < |order| && t.node[order[p]].next == Some(order[p + 1])))
  }

  /** `order` lists the used nodes, chain after chain: a link only ever leads to the node
      that comes next, so links are acyclic and no node has two predecessors. */
  ghost predicate Chains(t: Table, order: seq<nat>)
  {
    && Distinct(order)
    && (forall p :: 0 <= p < |order| ==> LinkOk(t, order, p))
    && (forall x: nat :: x < |t.node| && t.node[x].key != NilKey ==> x in order)
    && (forall i :: 0 <= i < |t.node| && t.node[i].key == NilKey ==> t.node[i].next.None? && t.node[i].val.None?)
  }

  /** A used node is reached from the main position of its key, and if that is another node,
      then the key there is in its own main position. */
  ghost predicate Placed(t: Table, order: seq<nat>, i: nat)
    requires |t.node| > 0 && i < |t.node| && t.node[i].key != NilKey
  {
    var m := Main(t, t.node[i].key.k);
    && i in order && m in order
    && IndexOf(order, m) <= IndexOf(order, i) && LinkedUpTo(t, order, IndexOf(order, m), IndexOf(order, i))
    && (t.node[m].key != NilKey && Main(t, t.node[m].key.k) == m)
  }

  ghost predicate AllPlaced(t: Table, order: seq<nat>)
  {
    |t.node| > 0 && forall i :: 0 <= i < |t.node| && t.node[i].key != NilKey ==> Placed(t, order, i)
  }

  predicate SameLive(t: Table, i: nat, j: nat)
  {
    i < |t.node| && j < |t.node| && t.node[i].key.Live? && t.node[i].key == t.node[j].key
  }

  /** Node `i` holds a key that node `j` held before the collector cleared it. */
  predicate Same(t: Table, i: nat, j: nat)
  {
    i < |t.node| && j < |t.node| && t.node[i].key.Live? && t.node[j].key == Dead(t.node[i].key.k)
  }

  /** No key is there twice, no key of the array part is in a node, and a cleared node with
      the same key comes later in the chain than a used one. */
  ghost predicate KeysUnique(t: Table, order: seq<nat>)
  {
    && (forall i, j :: SameLive(t, i, j) ==> i == j)
    && (forall i :: 0 <= i < |t.node| && t.node[i].key.Live? ==> !InArray(t, t.node[i].key.k))
    && (forall p, q :: 0 <= p < |order| && 0 <= q < |order| && Same(t, order[p], order[q]) ==> p < q)
    && (forall i :: 0 <= i < |t.node| && t.node[i].key.Dead? ==> t.node[i].val.None? && Collectable(t.node[i].key.k))
  }

  /** Free nodes lie below `lastfree`; the shared empty node is never used. */
  ghost predicate FreeBelow(t: Table)
  {
    if t.dummy then |t.node| == 1 && t.node[0].key == NilKey && t.lastfree == 0
    else t.lastfree <= |t.node| && forall i :: 0 <= i < |t.node| && i >= t.lastfree ==> t.node[i].key != NilKey
  }

  ghost predicate Inv(t: Table, order: seq<nat>)
  {
    Chains(t, order) && AllPlaced(t, order) && KeysUnique(t, order) && FreeBelow(t)
  }

  lemma IndexUnique(l: seq<nat>, p: nat)
    requires Distinct(l) && p < |l|
    ensures l[p] in l && IndexOf(l, l[p]) == p
  {
  }

  /** The value of a node is what the table holds for its key. */
  lemma LookupNode(t: Table, order: seq<nat>, i: nat)
    requires KeysUnique(t, order) && i < |t.node| && t.node[i].key.Live?
    ensures Lookup(t, t.node[i].key.k) == t.node[i].val
  {
    assert forall j :: 0 <= j < |t.node| && t.node[j].key == t.node[i].key ==> SameLive(t, i, j);
  }

  lemma LookupAbsent(t: Table, k: Key)
    requires !InArray(t, k) && forall i :: 0 <= i < |t.node| ==> t.node[i].key != Live(k)
    ensures Lookup(t, k) == None
  {
  }

  /** newkey's last step: `k` takes over a node, with value `v`; the link stays. */
  function Occupy(t: Table, mp: nat, k: Key, v: Option<Value>): Table
    requires mp < |t.node|
  {
    t.(node := t.node[mp := t.node[mp].(key := Live(k), val := v)])
  }

  /** The key is new to the table. */
  ghost predicate Absent(t: Table, k: Key)
  {
    !InArray(t, k) && forall i :: 0 <= i < |t.node| ==> t.node[i].key != Live(k)
  }

  lemma IndexPrefix(a: seq<nat>, b: seq<nat>, x: nat)
    requires x in a
    ensures x in a + b && IndexOf(a + b, x) == IndexOf(a, x)
  {
    if a[0] != x {
      assert (a + b)[1..] == a[1..] + b;
      IndexPrefix(a[1..], b, x);
    }
  }

  lemma UsedOnly(t: Table, order: seq<nat>, x: nat)
    requires Chains(t, order)
    ensures x in order <==> x < |t.node| && t.node[x].key != NilKey
  {
    if x in order { assert LinkOk(t, order, IndexOf(order, x)); }
  }

  lemma OccupyFreeChains(t: Table, order: seq<nat>, mp: nat, k: Key, v: Option<Value>)
    requires Chains(t, order) && mp < |t.node| && t.node[mp].key == NilKey
    ensures Chains(Occupy(t, mp, k, v), order + [mp]) && mp !in order
    ensures IndexOf(order + [mp], mp) == |order|
  {
    var t', order' := Occupy(t, mp, k, v), order + [mp];
    assert forall p :: 0 <= p < |order| ==> order'[p] == order[p];
    assert order'[|order|] == mp;
    assert mp !in order by { UsedOnly(t, order, mp); }
    IndexUnique(order', |order|);
    forall p | 0 <= p < |order'| ensures LinkOk(t', order', p) { if p < |order| { assert LinkOk(t, order, p); } }
    forall x: nat | x < |t'.node| && t'.node[x].key != NilKey ensures x in order' { if x != mp { assert x in order; } }
  }

  lemma OccupyFreePlaced(t: Table, order: seq<nat>, mp: nat, k: Key, v: Option<Value>, i: nat)
    requires Chains(t, order) && AllPlaced(t, order) && mp < |t.node| && t.node[mp].key == NilKey && i < |t.node|
    requires i != mp
    requires t.node[i].key != NilKey
    ensures Placed(Occupy(t, mp, k, v), order + [mp], i)
  {
    assert Placed(t, order, i);
    var m := Main(t, t.node[i].key.k);
    IndexPrefix(order, [mp], i);
    IndexPrefix(order, [mp], m);
  }

  /** A free main position is taken, and starts a chain. */
  lemma OccupyFree(t: Table, order: seq<nat>, k: Key, v: Option<Value>)
    requires Inv(t, order) && !t.dummy && Absent(t, k) && t.node[Main(t, k)].key == NilKey
    ensures Inv(Occupy(t, Main(t, k), k, v), order + [Main(t, k)])
  {
    var mp := Main(t, k);
    var t', order' := Occupy(t, mp, k, v), order + [mp];
    OccupyFreeChains(t, order, mp, k, v);
    forall i | 0 <= i < |t'.node| && t'.node[i].key != NilKey ensures Placed(t', order', i) {
      if i != mp { OccupyFreePlaced(t, order, mp, k, v, i); }
    }
    NoneBefore(t, order, k);
    OccupyKeys(t, order, mp, k, v, order');
  }

  /** If the main position of `k` does not hold a key that belongs there, no node was ever
      used for `k`. */
  lemma NoneBefore(t: Table, order: seq<nat>, k: Key)
    requires AllPlaced(t, order)
    requires t.node[Main(t, k)].key == NilKey || Main(t, t.node[Main(t, k)].key.k) != Main(t, k)
    ensures forall i :: 0 <= i < |t.node| ==> t.node[i].key != Dead(k) && t.node[i].key != Live(k)
  {
    forall i | 0 <= i < |t.node| ensures t.node[i].key != Dead(k) && t.node[i].key != Live(k) {
      if t.node[i].key != NilKey { assert Placed(t, order, i); }
    }
  }

  /** The uniqueness of keys when a key that was never there takes over a node. */
  lemma OccupyKeys(t: Table, order: seq<nat>, mp: nat, k: Key, v: Option<Value>, order': seq<nat>)
    requires KeysUnique(t, order) && Absent(t, k) && mp < |t.node|
    requires forall i :: 0 <= i < |t.node| ==> t.node[i].key != Dead(k)
    requires order' == order || order' == order + [mp]
    ensures KeysUnique(Occupy(t, mp, k, v), order')
  {
    var t' := Occupy(t, mp, k, v);
    forall p, q | 0 <= p < |order'| && 0 <= q < |order'| && Same(t', order'[p], order'[q]) ensures p < q {
      assert order'[p] != mp && order'[q] != mp;
      assert Same(t, order[p], order[q]);
    }
    forall i, j | SameLive(t', i, j) ensures i == j { if i != mp && j != mp { assert SameLive(t, i, j); } }
  }

  /** A main position whose value is nil is taken over in place; its link stays, so the
      chain it was in now runs through it. */
  lemma OccupyUsed(t: Table, order: seq<nat>, k: Key, v: Option<Value>)
    requires Inv(t, order) && !t.dummy && Absent(t, k)
    requires t.node[Main(t, k)].key != NilKey && t.node[Main(t, k)].val.None?
    ensures Inv(Occupy(t, Main(t, k), k, v), order)
  {
    hide Chains, KeysUnique, Placed;
    var mp := Main(t, k);
    var t' := Occupy(t, mp, k, v);
    OccupyUsedChains(t, order, mp, k, v);
    forall i | 0 <= i < |t'.node| && t'.node[i].key != NilKey ensures Placed(t', order, i) {
      OccupyUsedPlaced(t, order, k, v, i);
    }
    OccupyUsedKeys(t, order, k, v);
  }

  lemma OccupyUsedChains(t: Table, order: seq<nat>, mp: nat, k: Key, v: Option<Value>)
    requires Chains(t, order) && mp < |t.node| && t.node[mp].key != NilKey
    ensures Chains(Occupy(t, mp, k, v), order)
  {
    forall p | 0 <= p < |order| ensures LinkOk(Occupy(t, mp, k, v), order, p) { assert LinkOk(t, order, p); }
  }

  lemma OccupyUsedPlaced(t: Table, order: seq<nat>, k: Key, v: Option<Value>, i: nat)
    requires AllPlaced(t, order) && t.node[Main(t, k)].key != NilKey && i < |t.node| && t.node[i].key != NilKey
    ensures Placed(Occupy(t, Main(t, k), k, v), order, i)
  {
    assert Placed(t, order, i);
  }

  lemma OccupyUsedKeys(t: Table, order: seq<nat>, k: Key, v: Option<Value>)
    requires Inv(t, order) && Absent(t, k) && t.node[Main(t, k)].key != NilKey
    ensures KeysUnique(Occupy(t, Main(t, k), k, v), order)
  {
    hide AllPlaced, Chains;
    var t' := Occupy(t, Main(t, k), k, v);
    forall p, q | 0 <= p < |order| && 0 <= q < |order| && Same(t', order[p], order[q]) ensures p < q {
      OccupyUsedOrder(t, order, k, v, p, q);
    }
    forall i, j | SameLive(t', i, j)
      ensures i == j
    {
      if i != Main(t, k) && j != Main(t, k) { assert SameLive(t, i, j); }
    }
  }

  lemma OccupyUsedOrder(t: Table, order: seq<nat>, k: Key, v: Option<Value>, p: nat, q: nat)
    requires Inv(t, order) && Absent(t, k) && t.node[Main(t, k)].key != NilKey
    requires p < |order| && q < |order| && Same(Occupy(t, Main(t, k), k, v), order[p], order[q])
    ensures p < q
  {
    var mp := Main(t, k);
    if order[p] == mp {
      assert Placed(t, order, order[q]);
      IndexUnique(order, p);
      IndexUnique(order, q);
    } else {
      assert Same(t, order[p], order[q]);
    }
  }

  /** The new key goes to the free node `n`, chained right after its main position. */
  function InsertAfter(t: Table, mp: nat, n: nat, k: Key, v: Option<Value>): Table
    requires mp < |t.node| && n < |t.node|
  {
    t.(node := t.node[n := Node(v, Live(k), t.node[mp].next)][mp := t.node[mp].(next := Some(n))])
  }

  function Inserted(order: seq<nat>, a: nat, n: nat): seq<nat>
    requires a < |order|
  {
    order[..a + 1] + [n] + order[a + 1..]
  }

  lemma InsertedIndex(order: seq<nat>, a: nat, n: nat, x: nat)
    requires Distinct(order) && a < |order| && n !in order && x in order
    ensures Distinct(Inserted(order, a, n)) && x in Inserted(order, a, n) && n in Inserted(order, a, n)
    ensures IndexOf(Inserted(order, a, n), x) == if IndexOf(order, x) <= a then IndexOf(order, x)
      else IndexOf(order, x) + 1
    ensures IndexOf(Inserted(order, a, n), n) == a + 1
  {
    var r := Inserted(order, a, n);
    InsertedAt(order, a, n);
    var p := IndexOf(order, x);
    IndexUnique(r, if p <= a then p else p + 1);
    IndexUnique(r, a + 1);
  }

  lemma InsertedAt(order: seq<nat>, a: nat, n: nat)
    requires a < |order|
    ensures var r := Inserted(order, a, n);
      && |r| == |order| + 1
      && forall p :: 0 <= p < |r| ==> r[p] == if p <= a then order[p] else if p == a + 1 then n else order[p - 1]
    ensures Distinct(order) && n !in order ==> Distinct(Inserted(order, a, n))
    ensures forall x :: x in Inserted(order, a, n) <==> x == n || x in order
  {
    assert order == order[..a + 1] + order[a + 1..];
  }

  lemma InsertChains(t: Table, order: seq<nat>, mp: nat, n: nat, k: Key, v: Option<Value>)
    requires Chains(t, order) && mp in order && n < |t.node| && t.node[n].key == NilKey
    ensures mp < |t.node| && n !in order && Chains(InsertAfter(t, mp, n, k, v), Inserted(order, IndexOf(order, mp), n))
  {
    hide IndexOf, Inserted;
    UsedOnly(t, order, n);
    UsedOnly(t, order, mp);
    var a := IndexOf(order, mp);
    var t', order' := InsertAfter(t, mp, n, k, v), Inserted(order, a, n);
    InsertedAt(order, a, n);
    assert order[a] == mp && LinkOk(t, order, a);
    forall p | 0 <= p < |order'| ensures LinkOk(t', order', p) {
      if p < a {
        assert order[p] != mp && order'[p] == order[p] && order'[p + 1] == order[p + 1] && LinkOk(t, order, p);
      } else if p == a {
        assert order'[p] == mp && order'[p + 1] == n;
      } else if p == a + 1 {
        assert order'[p] == n && t'.node[n].next == t.node[mp].next;
        assert p + 1 < |order'| ==> order'[p + 1] == order[a + 1];
      } else {
        assert order[p - 1] != mp && order'[p] == order[p - 1] && LinkOk(t, order, p - 1);
        assert p + 1 < |order'| ==> order'[p + 1] == order[p];
      }
    }
    forall x: nat | x < |t'.node| && t'.node[x].key != NilKey
      ensures x in order'
    {
      if x != n && x != mp { assert x in order; }
    }
  }

  lemma InsertPlaced(t: Table, order: seq<nat>, mp: nat, n: nat, k: Key, v: Option<Value>, i: nat)
    requires Distinct(order) && AllPlaced(t, order) && mp in order && n < |t.node| && t.node[n].key == NilKey
    requires n !in order
    requires mp < |t.node| && i < |t.node| && t.node[i].key != NilKey
    requires forall p :: 0 <= p < |order| ==> order[p] < |t.node|
    ensures Placed(InsertAfter(t, mp, n, k, v), Inserted(order, IndexOf(order, mp), n), i)
  {
    hide LinkedUpTo, Inserted, IndexOf;
    var a := IndexOf(order, mp);
    PlacedFacts(t, order, i);
    hide Placed, AllPlaced;
    var m := Main(t, t.node[i].key.k);
    InsertedIndex(order, a, n, i);
    InsertedIndex(order, a, n, m);
    InsertLinked(t, order, mp, n, k, v, IndexOf(order, m), IndexOf(order, i));
    PlacedIntro(InsertAfter(t, mp, n, k, v), Inserted(order, a, n), i);
  }

  lemma PlacedFacts(t: Table, order: seq<nat>, i: nat)
    requires AllPlaced(t, order) && i < |t.node| && t.node[i].key != NilKey
    ensures var m := Main(t, t.node[i].key.k);
      && i in order && m in order
      && IndexOf(order, m) <= IndexOf(order, i) && LinkedUpTo(t, order, IndexOf(order, m), IndexOf(order, i))
      && t.node[m].key != NilKey && Main(t, t.node[m].key.k) == m
  {
    assert Placed(t, order, i);
  }

  lemma PlacedIntro(t: Table, order: seq<nat>, i: nat)
    requires |t.node| > 0 && i < |t.node| && t.node[i].key != NilKey
    requires var m := Main(t, t.node[i].key.k);
      && i in order && m in order
      && IndexOf(order, m) <= IndexOf(order, i) && LinkedUpTo(t, order, IndexOf(order, m), IndexOf(order, i))
      && t.node[m].key != NilKey && Main(t, t.node[m].key.k) == m
    ensures Placed(t, order, i)
  {
  }

  lemma InsertLinked(t: Table, order: seq<nat>, mp: nat, n: nat, k: Key, v: Option<Value>, b: nat, c: nat)
    requires Distinct(order) && mp in order && n < |t.node| && n !in order && mp < |t.node| && b <= c < |order|
    requires forall p :: 0 <= p < |order| ==> order[p] < |t.node|
    requires LinkedUpTo(t, order, b, c)
    ensures var a := IndexOf(order, mp);
      LinkedUpTo(InsertAfter(t, mp, n, k, v), Inserted(order, a, n), if b <= a then b else b + 1, if c <= a then c
        else c + 1)
  {
    var a := IndexOf(order, mp);
    var t', order' := InsertAfter(t, mp, n, k, v), Inserted(order, a, n);
    InsertedAt(order, a, n);
    forall p | (if b <= a then b else b + 1) <= p < (if c <= a then c else c + 1)
      ensures t'.node[order'[p]].next.Some?
    {
      if p <= a {
        assert t.node[order[p]].next.Some?;
      } else if p == a + 1 {
        assert t.node[order[a]].next.Some?;
      } else {
        assert t.node[order[p - 1]].next.Some?;
      }
    }
  }

  lemma InsertKeys(t: Table, order: seq<nat>, mp: nat, n: nat, k: Key, v: Option<Value>)
    requires Inv(t, order) && Absent(t, k) && mp == Main(t, k) && mp in order && n < |t.node| && t.node[n].key == NilKey
    requires n !in order
    requires t.node[mp].key.Live?
    ensures KeysUnique(InsertAfter(t, mp, n, k, v), Inserted(order, IndexOf(order, mp), n))
  {
    hide AllPlaced, Chains, Inserted, IndexOf;
    var a := IndexOf(order, mp);
    var t', order' := InsertAfter(t, mp, n, k, v), Inserted(order, a, n);
    InsertedAt(order, a, n);
    forall p, q | 0 <= p < |order'| && 0 <= q < |order'| && Same(t', order'[p], order'[q]) ensures p < q {
      InsertSame(t, order, mp, n, k, v, p, q);
    }
    InsertLive(t, mp, n, k, v);
  }

  lemma InsertLive(t: Table, mp: nat, n: nat, k: Key, v: Option<Value>)
    requires (forall i, j :: SameLive(t, i, j) ==> i == j) && Absent(t, k) && mp < |t.node| && n < |t.node|
    requires t.node[n].key == NilKey
    requires mp != n
    ensures var t' := InsertAfter(t, mp, n, k, v); forall i, j :: SameLive(t', i, j) ==> i == j
  {
    var t' := InsertAfter(t, mp, n, k, v);
    forall i, j | SameLive(t', i, j) ensures i == j { if i != n && j != n { assert SameLive(t, i, j); } }
  }

  lemma InsertSame(t: Table, order: seq<nat>, mp: nat, n: nat, k: Key, v: Option<Value>, p: nat, q: nat)
    requires Inv(t, order) && mp == Main(t, k) && mp in order && n < |t.node| && t.node[n].key == NilKey && n !in order
    requires t.node[mp].key.Live? && p <= |order| && q <= |order|
    requires var r := Inserted(order, IndexOf(order, mp), n); Same(InsertAfter(t, mp, n, k, v), r[p], r[q])
    ensures p < q
  {
    hide AllPlaced, Chains, IndexOf, Inserted;
    var a := IndexOf(order, mp);
    InsertedAt(order, a, n);
    var x, y := Inserted(order, a, n)[p], Inserted(order, a, n)[q];
    assert mp != n && y != n && y != mp;
    if x == n { InsertFirst(t, order, mp, n, k, q); InsertedOnly(order, a, n, p); }
      else { InsertOrder(t, order, a, n, p, q); }
  }

  lemma InsertedOnly(order: seq<nat>, a: nat, n: nat, p: nat)
    requires a < |order| && n !in order && p <= |order| && Inserted(order, a, n)[p] == n
    ensures p == a + 1
  {
    InsertedAt(order, a, n);
  }

  lemma InsertFirst(t: Table, order: seq<nat>, mp: nat, n: nat, k: Key, q: nat)
    requires Inv(t, order) && mp == Main(t, k) && mp in order && n !in order && q <= |order|
    requires var r := Inserted(order, IndexOf(order, mp), n);
      r[q] < |t.node| && t.node[r[q]].key == Dead(k) && r[q] != n
    requires mp < |t.node| && t.node[mp].key.Live?
    ensures IndexOf(order, mp) + 1 < q
  {
    hide KeysUnique;
    var a := IndexOf(order, mp);
    InsertedAt(order, a, n);
    var j := Inserted(order, a, n)[q];
    assert j in Inserted(order, a, n);
    assert Placed(t, order, j);
    InsertedIndex(order, a, n, j);
    IndexUnique(Inserted(order, a, n), q);
    IndexUnique(order, a);
  }

  lemma InsertOrder(t: Table, order: seq<nat>, a: nat, n: nat, p: nat, q: nat)
    requires KeysUnique(t, order) && a < |order| && p <= |order| && q <= |order|
    requires var r := Inserted(order, a, n); r[p] != n && r[q] != n && Same(t, r[p], r[q])
    ensures p < q
  {
    InsertedAt(order, a, n);
    var p', q' := if p <= a then p else p - 1, if q <= a then q else q - 1;
    assert Same(t, order[p'], order[q']);
  }

  lemma InsertAfterKeepsInv(t: Table, order: seq<nat>, n: nat, k: Key, v: Option<Value>)
    requires Inv(t, order) && !t.dummy && Absent(t, k) && n < |t.node| && t.node[n].key == NilKey
    requires var mp := Main(t, k); t.node[mp].key.Live? && Main(t, t.node[mp].key.k) == mp
    ensures Main(t, k) in order
    ensures Inv(InsertAfter(t, Main(t, k), n, k, v), Inserted(order, IndexOf(order, Main(t, k)), n))
  {
    hide KeysUnique, LinkedUpTo, IndexOf, Inserted;
    var mp := Main(t, k);
    assert mp in order;
    forall p | 0 <= p < |order| ensures order[p] < |t.node| { assert LinkOk(t, order, p); }
    var a := IndexOf(order, mp);
    var t', order' := InsertAfter(t, mp, n, k, v), Inserted(order, a, n);
    InsertChains(t, order, mp, n, k, v);
    InsertKeys(t, order, mp, n, k, v);
    forall i | 0 <= i < |t'.node| && t'.node[i].key != NilKey ensures Placed(t', order', i) {
      if i != n { InsertPlaced(t, order, mp, n, k, v, i); } else { NewPlaced(t, order, mp, n, k, v); }
    }
  }

  lemma NewPlaced(t: Table, order: seq<nat>, mp: nat, n: nat, k: Key, v: Option<Value>)
    requires Chains(t, order) && |t.node| > 0 && mp == Main(t, k) && mp in order && n < |t.node| && n !in order
    requires t.node[mp].key != NilKey && Main(t, t.node[mp].key.k) == mp
    ensures Placed(InsertAfter(t, mp, n, k, v), Inserted(order, IndexOf(order, mp), n), n)
  {
    var a := IndexOf(order, mp);
    InsertedIndex(order, a, n, mp);
    InsertedAt(order, a, n);
  }

  /** The colliding node, which is out of its main position, moves to the free node `n`; the
      new key takes its place. */
  function Move(t: Table, prev: nat, mp: nat, n: nat, k: Key, v: Option<Value>): Table
    requires prev < |t.node| && mp < |t.node| && n < |t.node|
  {
    t.(node := t.node[prev := t.node[prev].(next := Some(n))][n := t.node[mp]][mp := Node(v, Live(k), None)])
  }

  function Moved(order: seq<nat>, a: nat, n: nat): seq<nat>
    requires a < |order|
  {
    order[a := n] + [order[a]]
  }

  lemma MovedAt(order: seq<nat>, a: nat, n: nat)
    requires a < |order|
    ensures var r := Moved(order, a, n);
      && |r| == |order| + 1
      && forall p :: 0 <= p < |r| ==> r[p] == if p == a then n else if p == |order| then order[a] else order[p]
    ensures forall x :: x in Moved(order, a, n) <==> x == n || x in order
    ensures Distinct(order) && n !in order ==> Distinct(Moved(order, a, n))
  {
    var r := Moved(order, a, n);
    forall x | x in order ensures x in r {
      var p := IndexOf(order, x);
      if p == a { assert r[|order|] == x; } else { assert r[p] == x; }
    }
    assert r[a] == n;
  }

  lemma MovedIndex(order: seq<nat>, a: nat, n: nat, x: nat)
    requires Distinct(order) && a < |order| && n !in order && x in order
    ensures x in Moved(order, a, n) && n in Moved(order, a, n)
    ensures IndexOf(Moved(order, a, n), x) == if x == order[a] then |order| else IndexOf(order, x)
    ensures IndexOf(Moved(order, a, n), n) == a
  {
    var r := Moved(order, a, n);
    MovedAt(order, a, n);
    IndexUnique(r, a);
    IndexUnique(r, if x == order[a] then |order| else IndexOf(order, x));
  }

  /** The situation in which newkey moves a node. */
  ghost predicate Movable(t: Table, order: seq<nat>, prev: nat, mp: nat, n: nat)
  {
    && Chains(t, order) && AllPlaced(t, order) && mp < |t.node| && n < |t.node| && t.node[mp].key.Live?
    && t.node[n].key == NilKey
    && mp in order && n !in order && IndexOf(order, mp) > 0 && prev == order[IndexOf(order, mp) - 1] && prev < |t.node|
    && t.node[prev].next == Some(mp) && Main(t, t.node[mp].key.k) != mp
  }

  lemma MoveChains(t: Table, order: seq<nat>, prev: nat, mp: nat, n: nat, k: Key, v: Option<Value>)
    requires Movable(t, order, prev, mp, n)
    ensures Chains(Move(t, prev, mp, n, k, v), Moved(order, IndexOf(order, mp), n))
  {
    hide IndexOf, Moved, AllPlaced;
    var a := IndexOf(order, mp);
    var t', order' := Move(t, prev, mp, n, k, v), Moved(order, a, n);
    MovedAt(order, a, n);
    assert order[a] == mp && LinkOk(t, order, a) && prev != mp && prev != n && mp != n;
    forall p | 0 <= p < |order'| ensures LinkOk(t', order', p) {
      if p == a - 1 {
        assert order'[p] == prev && order'[p + 1] == n;
      } else if p == a {
        assert order'[p] == n;
        assert p + 1 < |order| ==> order'[p + 1] == order[p + 1];
      } else if p == |order| {
        assert order'[p] == mp;
      } else {
        MoveOther(t, order, prev, mp, n, k, v, p);
      }
    }
    forall x: nat | x < |t'.node| && t'.node[x].key != NilKey
      ensures x in order'
    {
      if x != n && x != mp { assert x in order; }
    }
  }

  lemma MoveOther(t: Table, order: seq<nat>, prev: nat, mp: nat, n: nat, k: Key, v: Option<Value>, p: nat)
    requires Movable(t, order, prev, mp, n) && p < |order| && p != IndexOf(order, mp) && p != IndexOf(order, mp) - 1
    ensures LinkOk(Move(t, prev, mp, n, k, v), Moved(order, IndexOf(order, mp), n), p)
  {
    hide IndexOf, Moved, AllPlaced;
    var a := IndexOf(order, mp);
    MovedAt(order, a, n);
    assert LinkOk(t, order, p);
    assert order[p] != mp && order[p] != prev && order[p] != n;
  }

  lemma MoveLinked(t: Table, order: seq<nat>, prev: nat, mp: nat, n: nat, k: Key, v: Option<Value>, b: nat, c: nat)
    requires Movable(t, order, prev, mp, n) && b <= c < |order| && LinkedUpTo(t, order, b, c)
    ensures LinkedUpTo(Move(t, prev, mp, n, k, v), Moved(order, IndexOf(order, mp), n), b, c)
  {
    hide IndexOf, Moved, AllPlaced;
    var a := IndexOf(order, mp);
    var t', order' := Move(t, prev, mp, n, k, v), Moved(order, a, n);
    MovedAt(order, a, n);
    MoveBounds(t, order, prev, mp, n);
    forall p | b <= p < c ensures order'[p] < |t'.node| && t'.node[order'[p]].next.Some? {
      assert LinkOk(t, order, p);
      assert t.node[order[p]].next.Some?;
      if p != a { assert order[p] != mp && order[p] != n; }
    }
  }

  lemma MovePlaced(t: Table, order: seq<nat>, prev: nat, mp: nat, n: nat, k: Key, v: Option<Value>, i: nat)
    requires Movable(t, order, prev, mp, n) && i < |t.node| && t.node[i].key != NilKey && |t.node| > 0
    ensures var t', order', j := Move(t, prev, mp, n, k, v), Moved(order, IndexOf(order, mp), n), if i == mp then n
      else i;
      Placed(t', order', j)
  {
    hide IndexOf, Moved, LinkedUpTo, Placed, Chains;
    MoveBounds(t, order, prev, mp, n);
    PlacedFacts(t, order, i);
    var a := IndexOf(order, mp);
    var m := Main(t, t.node[i].key.k);
    assert m != mp;
    MovedIndex(order, a, n, i);
    MovedIndex(order, a, n, m);
    MoveLinked(t, order, prev, mp, n, k, v, IndexOf(order, m), IndexOf(order, i));
    PlacedIntro(Move(t, prev, mp, n, k, v), Moved(order, a, n), if i == mp then n else i);
  }

  lemma MoveBounds(t: Table, order: seq<nat>, prev: nat, mp: nat, n: nat)
    requires Movable(t, order, prev, mp, n)
    ensures Distinct(order) && prev != n && prev != mp && mp != n && t.node[prev].key != NilKey
    ensures forall p :: 0 <= p < |order| ==> order[p] < |t.node|
  {
    assert LinkOk(t, order, IndexOf(order, mp) - 1);
    forall p | 0 <= p < |order| ensures order[p] < |t.node| { assert LinkOk(t, order, p); }
  }

  lemma MoveSame(t: Table, order: seq<nat>, prev: nat, mp: nat, n: nat, k: Key, v: Option<Value>, p: nat, q: nat)
    requires Movable(t, order, prev, mp, n) && KeysUnique(t, order) && p <= |order| && q <= |order|
    requires forall i :: 0 <= i < |t.node| ==> t.node[i].key != Dead(k)
    requires var r := Moved(order, IndexOf(order, mp), n); Same(Move(t, prev, mp, n, k, v), r[p], r[q])
    ensures p < q
  {
    hide AllPlaced, Chains, IndexOf, Moved;
    MoveBounds(t, order, prev, mp, n);
    var a := IndexOf(order, mp);
    MovedAt(order, a, n);
    assert p != |order| && q != |order|;
    assert Same(t, order[p], order[q]);
  }

  lemma MoveLive(t: Table, prev: nat, mp: nat, n: nat, k: Key, v: Option<Value>)
    requires (forall i, j :: SameLive(t, i, j) ==> i == j) && Absent(t, k) && prev < |t.node| && mp < |t.node|
    requires n < |t.node|
    requires t.node[n].key == NilKey && mp != n && prev != mp && prev != n
    ensures var t' := Move(t, prev, mp, n, k, v); forall i, j :: SameLive(t', i, j) ==> i == j
  {
    var t' := Move(t, prev, mp, n, k, v);
    forall i, j | SameLive(t', i, j) ensures i == j {
      if i != mp && j != mp { assert SameLive(t, if i == n then mp else i, if j == n then mp else j); }
    }
  }

  lemma MoveKeepsInv(t: Table, order: seq<nat>, prev: nat, n: nat, k: Key, v: Option<Value>)
    requires Inv(t, order) && !t.dummy && Absent(t, k) && Movable(t, order, prev, Main(t, k), n)
    ensures Inv(Move(t, prev, Main(t, k), n, k, v), Moved(order, IndexOf(order, Main(t, k)), n))
  {
    hide IndexOf, Moved, LinkedUpTo, Placed, Chains;
    var mp := Main(t, k);
    var a := IndexOf(order, mp);
    var t', order' := Move(t, prev, mp, n, k, v), Moved(order, a, n);
    MoveBounds(t, order, prev, mp, n);
    MoveChains(t, order, prev, mp, n, k, v);
    NoneBefore(t, order, k);
    forall i | 0 <= i < |t'.node| && t'.node[i].key != NilKey ensures Placed(t', order', i) {
      if i == mp { MovedNew(t, order, prev, n, k, v); }
      else { MovePlaced(t, order, prev, mp, n, k, v, if i == n then mp else i); }
    }
    MovedAt(order, a, n);
    forall p, q | 0 <= p < |order'| && 0 <= q < |order'| && Same(t', order'[p], order'[q]) ensures p < q {
      MoveSame(t, order, prev, mp, n, k, v, p, q);
    }
    MoveLive(t, prev, mp, n, k, v);
  }

  lemma MovedNew(t: Table, order: seq<nat>, prev: nat, n: nat, k: Key, v: Option<Value>)
    requires |t.node| > 0 && Movable(t, order, prev, Main(t, k), n)
    ensures Placed(Move(t, prev, Main(t, k), n, k, v), Moved(order, IndexOf(order, Main(t, k)), n), Main(t, k))
  {
    hide IndexOf, Moved, Chains;
    MoveBounds(t, order, prev, Main(t, k), n);
    MovedIndex(order, IndexOf(order, Main(t, k)), n, Main(t, k));
  }

  /** `t'` differs from `t` in that node `at` has key `k` and value `v`; what was there went to
      node `to`, or was without value and is gone if `to` is `at`. */
  ghost predicate Adds(t: Table, t': Table, k: Key, v: Option<Value>, at: nat, to: nat)
  {
    && t'.arr == t.arr && |t'.node| == |t.node| && at < |t.node| && to < |t.node| && Absent(t, k)
    && t'.node[at].key == Live(k) && t'.node[at].val == v
    && (forall i :: 0 <= i < |t.node| && i != at && i != to ==>
       t'.node[i].key == t.node[i].key && t'.node[i].val == t.node[i].val)
    && (if to == at then t.node[at].val.None?
        else t.node[to].key == NilKey && t'.node[to].key == t.node[at].key && t'.node[to].val == t.node[at].val)
  }

  /** Adding a key changes the map at that key and nowhere else. */
  lemma AddsLookup(t: Table, t': Table, order: seq<nat>, order': seq<nat>, k: Key, v: Option<Value>, at: nat, to: nat,
      k': Key)
    requires KeysUnique(t, order) && KeysUnique(t', order') && Adds(t, t', k, v, at, to)
    ensures Lookup(t', k') == if k' == k then v else Lookup(t, k')
  {
    if k' == k {
      LookupNode(t', order', at);
    } else if !InArray(t, k') {
      if i :| 0 <= i < |t.node| && t.node[i].key == Live(k') {
        LookupNode(t, order, i);
        if i != at {
          LookupNode(t', order', i);
        } else if to != at {
          LookupNode(t', order', to);
        } else {
          LookupGone(t, t', k, v, at, k');
        }
      } else {
        LookupAbsent(t, k');
        LookupAbsent(t', k');
      }
    }
  }

  lemma LookupGone(t: Table, t': Table, k: Key, v: Option<Value>, at: nat, k': Key)
    requires Adds(t, t', k, v, at, at) && k' != k && !InArray(t, k') && t.node[at].key == Live(k')
    requires forall i, j :: SameLive(t, i, j) ==> i == j
    ensures Lookup(t', k') == None
  {
    forall i | 0 <= i < |t'.node| ensures t'.node[i].key != Live(k') {
      if t'.node[i].key == Live(k') { assert SameLive(t, at, i); }
    }
    LookupAbsent(t', k');
  }

  /** Storing a value in a node that has the key. */
  lemma StoreKeepsInv(t: Table, order: seq<nat>, i: nat, v: Option<Value>)
    requires Inv(t, order) && i < |t.node| && t.node[i].key.Live?
    ensures var t' := t.(node := t.node[i := t.node[i].(val := v)]); Inv(t', order)
    ensures var t' := t.(node := t.node[i := t.node[i].(val := v)]);
      forall k :: Lookup(t', k) == if k == t.node[i].key.k then v else Lookup(t, k)
  {
    var t' := t.(node := t.node[i := t.node[i].(val := v)]);
    StoreInv(t, order, i, t');
    hide Chains, AllPlaced;
    forall k ensures Lookup(t', k) == if k == t.node[i].key.k then v else Lookup(t, k) {
      if InArray(t, k) {
      } else if j :| 0 <= j < |t.node| && t.node[j].key == Live(k) {
        LookupNode(t, order, j);
        LookupNode(t', order, j);
        if k == t.node[i].key.k { assert SameLive(t, i, j); }
      } else {
        LookupAbsent(t, k);
        LookupAbsent(t', k);
      }
    }
  }

  /** Node `i` keeps its link, and keeps its key or has it cleared, being without value. */
  ghost predicate Touches(t: Table, t': Table, i: nat)
  {
    && i < |t.node| == |t'.node| && t' == t.(node := t.node[i := t'.node[i]])
    && t.node[i].key.Live? && t'.node[i].next == t.node[i].next
    && (t'.node[i].key == t.node[i].key
        || (t'.node[i].key == Dead(t.node[i].key.k) && t'.node[i].val.None? && Collectable(t.node[i].key.k)))
  }

  /** Values play no part in the shape; a key may also be cleared once its value is nil. */
  lemma StoreInv(t: Table, order: seq<nat>, i: nat, t': Table)
    requires Inv(t, order) && Touches(t, t', i)
    ensures Inv(t', order)
  {
    hide IndexOf, Placed, KeysUnique;
    forall p | 0 <= p < |order| ensures LinkOk(t', order, p) { assert LinkOk(t, order, p); }
    forall j | 0 <= j < |t'.node| && t'.node[j].key != NilKey
      ensures Placed(t', order, j)
    {
      StorePlaced(t, order, i, t', j);
    }
    StoreKeys(t, order, i, t');
  }

  lemma StorePlaced(t: Table, order: seq<nat>, i: nat, t': Table, j: nat)
    requires AllPlaced(t, order) && Touches(t, t', i) && j < |t.node| && t.node[j].key != NilKey
    ensures Placed(t', order, j)
  {
    assert Placed(t, order, j);
  }

  lemma StoreKeys(t: Table, order: seq<nat>, i: nat, t': Table)
    requires KeysUnique(t, order) && Touches(t, t', i)
    ensures KeysUnique(t', order)
  {
    forall j, l | SameLive(t', j, l) ensures j == l { assert SameLive(t, j, l); }
    forall p, q | 0 <= p < |order| && 0 <= q < |order| && Same(t', order[p], order[q]) ensures p < q {
      if order[q] == i { OnlyOne(t, order, order[p], i); } else { assert Same(t, order[p], order[q]); }
    }
  }

  lemma OnlyOne(t: Table, order: seq<nat>, x: nat, i: nat)
    requires KeysUnique(t, order) && x < |t.node| && i < |t.node| && t.node[i].key.Live? && x != i
    ensures t.node[x].key != t.node[i].key
  {
    assert SameLive(t, i, x) ==> i == x;
  }
}

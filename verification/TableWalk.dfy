/** A traversal in place: luaH_next from the first entry to the end, while the program changes and
    erases entries and the collector clears keys (ltable.c, lgc.c). */
module TableWalk {
  import opened Base
  import opened Table
  import opened TableTraverse
  import opened TableOps
  import opened TableRun

  function Stored(c: Change): Option<Value> { if c.Put? then Some(c.v) else None }

  /** What a table holds after a change: only a store to a key that it has changes that. */
  ghost function Changed(t: Table, c: Change, k: Key): Option<Value>
  {
    if !c.Clear? && c.k == k && !Absent(t, k) then Stored(c) else Lookup(t, k)
  }

  /** What may be done to a table between two calls of next: stores to keys that it has, and clearing of
      keys without a value. A store to a key that it does not have is not taken. */
  method Modify(t: LuaTable, c: Change)
    requires t.Valid()
    modifies t
    ensures t.Valid() && t.order == old(t.order) && KeepsKeys(old(t.T()), t.T())
    ensures forall k :: Lookup(t.T(), k) == Changed(old(t.T()), c, k)
  {
    hide Inv, Lookup;
    match c
    case Clear(i) => if i < |t.node| && t.node[i].val.None? { t.ClearKey(i); }
    case _ =>
      var there := InArray(t.T(), c.k);
      if !there {
        var r := t.Find(c.k);
        there := r.Some?;
      }
      if there { var _ := t.TrySet(c.k, Stored(c)); }
  }

  predicate Erases(cs: seq<Change>, k: Key) { Erase(k) in cs }

  method ModifyAll(t: LuaTable, cs: seq<Change>)
    requires t.Valid()
    modifies t
    ensures t.Valid() && t.order == old(t.order) && KeepsKeys(old(t.T()), t.T())
    ensures forall k :: old(Lookup(t.T(), k)).Some? && !Erases(cs, k) ==> Lookup(t.T(), k).Some?
  {
    hide Inv, Lookup, KeepsKeys;
    ghost var was := t.T();
    KeepsSelf(was);
    for i := 0 to |cs|
      invariant t.Valid() && t.order == old(t.order) && KeepsKeys(was, t.T())
      invariant forall k :: Lookup(was, k).Some? && !Erases(cs, k) ==> Lookup(t.T(), k).Some?
    {
      ghost var before := t.T();
      assert cs[i] in cs;
      Modify(t, cs[i]);
      KeepsTrans(was, before, t.T());
    }
  }

  lemma KeepsSelf(t: Table)
    ensures KeepsKeys(t, t)
  {
  }

  /** A traversal that has not come to its end. */
  ghost predicate Walked(ts: seq<Table>, order: seq<nat>, es: seq<(Key, Value)>)
  {
    && |ts| == |es| + 1
    && (forall j :: 0 <= j < |ts| ==> Inv(ts[j], order))
    && (forall i, j :: 0 <= i < j < |ts| ==> KeepsKeys(ts[i], ts[j]))
    && (forall j :: 0 <= j < |es| ==> IsNext(ts[j], order, KeyBefore(es, j), Some(es[j])))
  }

  /** The key that next is given for entry `j`. */
  function KeyBefore(es: seq<(Key, Value)>, j: nat): Option<Key>
    requires j <= |es|
  {
    if j == 0 then None else Some(es[j - 1].0)
  }

  function LastKey(es: seq<(Key, Value)>): Option<Key> { KeyBefore(es, |es|) }

  /** `next` is the position after the last entry. */
  ghost predicate UpTo(ts: seq<Table>, es: seq<(Key, Value)>, next: nat)
    requires |ts| == |es| + 1
  {
    if es == [] then next == 0 else next > 0 && EntryAt(ts[|es| - 1], next - 1) == Some(es[|es| - 1])
  }

  /** The last key is known to findindex, whatever happened to it. */
  lemma StillKnown(ts: seq<Table>, order: seq<nat>, es: seq<(Key, Value)>, next: nat)
    requires Walked(ts, order, es) && UpTo(ts, es, next) && es != []
    ensures Known(ts[|es|], es[|es| - 1].0)
  {
    hide Inv, IsNext;
    var t, t' := ts[|es| - 1], ts[|es|];
    assert KeepsKeys(t, t') && Inv(t, order);
    EntryFound(t, order, t', next - 1);
  }

  /** The next entry is further on. */
  lemma Further(ts: seq<Table>, order: seq<nat>, es: seq<(Key, Value)>, next: nat, e: (Key, Value)) returns (p: nat)
    requires Walked(ts, order, es) && UpTo(ts, es, next) && IsNext(ts[|es|], order, LastKey(es), Some(e))
    ensures next <= p < Positions(ts[|es|]) && EntryAt(ts[|es|], p) == Some(e)
  {
    hide Inv, EntryAt, FoundAt;
    var t' := ts[|es|];
    if es == [] {
      p := NextEntry(t', 0);
    } else {
      var t := ts[|es| - 1];
      assert KeepsKeys(t, t') && Inv(t, order);
      NextAfter(t, t', order, next - 1, Some(e));
      p := NextEntry(t', next);
    }
  }

  lemma WalkedOn(ts: seq<Table>, order: seq<nat>, es: seq<(Key, Value)>, e: (Key, Value), t: Table)
    requires Walked(ts, order, es) && IsNext(ts[|es|], order, LastKey(es), Some(e))
    requires Inv(t, order) && KeepsKeys(ts[|es|], t)
    ensures Walked(ts + [t], order, es + [e])
  {
    hide Inv, KeepsKeys, IsNext;
    var ts', es' := ts + [t], es + [e];
    forall i, j | 0 <= i < j < |ts'| ensures KeepsKeys(ts'[i], ts'[j]) {
      if j == |ts| && i < |es| { KeepsTrans(ts[i], ts[|es|], t); }
    }
    forall j | 0 <= j < |es'|
      ensures IsNext(ts'[j], order, KeyBefore(es', j), Some(es'[j]))
    {
      assert KeyBefore(es', j) == KeyBefore(es, j);
      if j < |es| { assert IsNext(ts[j], order, KeyBefore(es, j), Some(es[j])); }
    }
  }

  /** Calls of next from nil on until there is no more; `changes[j]` is done after the call that gave
      entry `j`. Whatever is done, a key is reported with the value it has then, never twice, and
      every key is reported that is there from beginning to end; so every key of the table is that
      is not erased meanwhile. No call raises an error, and there is an end. */
  method Traverse(t: LuaTable, changes: seq<seq<Change>>) returns (es: seq<(Key, Value)>, ghost ts: seq<Table>)
    requires t.Valid()
    modifies t
    ensures t.Valid() && Traversal(ts, t.order, es) && ts[0] == old(t.T()) && ts[|es|] == t.T()
    ensures forall j :: 0 <= j < |es| ==> Lookup(ts[j], es[j].0) == Some(es[j].1)
    ensures forall i, j :: 0 <= i < j < |es| ==> es[i].0 != es[j].0
    ensures forall k :: AlwaysHas(ts, k) ==> Reported(es, k)
    ensures forall k :: old(Lookup(t.T(), k)).Some? && (forall j :: 0 <= j < |changes| ==> !Erases(changes[j], k)) ==>
      Reported(es, k)
  {
    hide Inv, Lookup, IsNext, KeepsKeys, EntryAt, Walked, UpTo, Traversal, Known;
    es, ts := [], [t.T()];
    ghost var next: nat := 0;
    StartWalk(t.T(), t.order);
    while true
      invariant t.Valid() && t.order == old(t.order) && |ts| == |es| + 1 && Walked(ts, t.order, es)
      invariant UpTo(ts, es, next) && ts[0] == old(t.T()) && ts[|es|] == t.T() && next <= Positions(t.T())
      invariant forall k :: Lookup(ts[0], k).Some? && (forall j :: 0 <= j < |changes| ==> !Erases(changes[j], k)) ==>
        AlwaysHas(ts, k)
      decreases Positions(t.T()) - next
    {
      var r := t.Next(LastKey(es));
      match r
      case InvalidKey =>
        StillKnown(ts, t.order, es, next);
        assert false;
      case End =>
        WalkEnded(ts, t.order, es);
        TraversalVisitsOnce(ts, t.order, es);
        return;
      case Entry(k, v) =>
        ghost var p := Further(ts, t.order, es, next, (k, v));
        ghost var was := ts;
        ModifyAll(t, if |es| < |changes| then changes[|es|] else []);
        WalkedOn(ts, t.order, es, (k, v), t.T());
        SamePlaces(ts[|es|], t.T());
        UpToNext(ts, es, (k, v), p, t.T());
        ts := ts + [t.T()];
        es := es + [(k, v)];
        next := p + 1;
        forall k | AlwaysHas(was, k) && Lookup(t.T(), k).Some? ensures AlwaysHas(ts, k) { HasOn(was, t.T(), k); }
    }
  }

  lemma StartWalk(t: Table, order: seq<nat>)
    requires Inv(t, order)
    ensures Walked([t], order, []) && UpTo([t], [], 0) && forall k :: Lookup(t, k).Some? ==> AlwaysHas([t], k)
  {
  }

  lemma WalkEnded(ts: seq<Table>, order: seq<nat>, es: seq<(Key, Value)>)
    requires Walked(ts, order, es) && IsNext(ts[|es|], order, LastKey(es), None)
    ensures Traversal(ts, order, es)
  {
    hide Inv, KeepsKeys, IsNext;
  }

  lemma SamePlaces(t: Table, t': Table)
    requires KeepsKeys(t, t')
    ensures Positions(t') == Positions(t)
  {
  }

  lemma UpToNext(ts: seq<Table>, es: seq<(Key, Value)>, e: (Key, Value), p: nat, t: Table)
    requires |ts| == |es| + 1 && EntryAt(ts[|es|], p) == Some(e)
    ensures UpTo(ts + [t], es + [e], p + 1)
  {
  }

  lemma HasOn(ts: seq<Table>, t: Table, k: Key)
    requires AlwaysHas(ts, k) && Lookup(t, k).Some?
    ensures AlwaysHas(ts + [t], k)
  {
  }
}

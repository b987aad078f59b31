/** Tables over whole histories: any sequence of stores and erasures by a program, and of keys
    cleared by the collector. */
module TableRun {
  import opened Base
  import opened Table
  import opened TableSizes
  import opened TableOps

  datatype Change =
    | Put(k: Key, v: Value)
    | Erase(k: Key)
    | Clear(i: nat)     // the collector clears the key of node `i`, if its value is nil

  function Applied(m: map<Key, Value>, c: Change): map<Key, Value>
  {
    match c
    case Put(k, v) => m[k := v]
    case Erase(k) => m - {k}
    case Clear(_) => m
  }

  /** The history as a mathematical map. */
  function After(changes: seq<Change>): map<Key, Value>
  {
    if changes == [] then map[] else Applied(After(changes[..|changes| - 1]), changes[|changes| - 1])
  }

  function Held(m: map<Key, Value>, k: Key): Option<Value> { if k in m then Some(m[k]) else None }

  lemma AfterNext(changes: seq<Change>, i: nat)
    requires i < |changes|
    ensures After(changes[..i + 1]) == Applied(After(changes[..i]), changes[i])
  {
    assert changes[..i + 1][..i] == changes[..i];
  }

  /** Through collisions, moves, reused nodes and rehashes, the table holds what the map holds. */
  method Replay(hash: Key -> nat, changes: seq<Change>) returns (t: LuaTable)
    ensures fresh(t) && t.Valid() && forall k :: Lookup(t.T(), k) == Held(After(changes), k)
  {
    hide Lookup, Inv, After;
    t := new LuaTable(hash, 0, 0);
    NothingYet();
    assert changes[..0] == [];
    for i := 0 to |changes|
      invariant fresh(t) && t.Valid() && forall k :: Lookup(t.T(), k) == Held(After(changes[..i]), k)
    {
      AfterNext(changes, i);
      match changes[i]
      case Put(k, v) => t.Set(k, Some(v));
      case Erase(k) => t.Set(k, None);
      case Clear(n) => if n < |t.node| && t.node[n].val.None? { t.ClearKey(n); }
    }
    assert changes[..|changes|] == changes;
  }

  lemma NothingYet()
    ensures After([]) == map[]
  {
  }

  /** And so does every lookup, and the length is a border of the map. */
  method Answers(hash: Key -> nat, changes: seq<Change>, k: Key) returns (v: Option<Value>, n: nat)
    ensures v == Held(After(changes), k)
    ensures (n > 0 ==> Num(n) in After(changes)) && Num(n + 1) !in After(changes)
  {
    hide Lookup, Inv, After;
    var t := Replay(hash, changes);
    v := t.Get(k);
    n := t.GetN();
    assert n > 0 ==> Lookup(t.T(), Num(n)).Some?;
  }
}

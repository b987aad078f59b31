/** The string table: interning and resizing (lstring.c). */
module GcStrings {
  import opened Base
  import opened GcHeap
  import opened GcMark
  import opened GcInvariant

  const MINSTRTABSIZE := 32

  function CountStrings(strt: seq<seq<Id>>): nat
  {
    if strt == [] then 0 else |strt[0]| + CountStrings(strt[1..])
  }

  function BytesOf(h: Heap, o: Id): seq<bv8> { if o in h then h[o].bytes else [] }

  /** Moves the strings of one list, head first, to the front of their new buckets. */
  function Relink(h: Heap, ids: seq<Id>, table: seq<seq<Id>>): (r: seq<seq<Id>>)
    requires |table| > 0
    ensures |r| == |table|
    decreases |ids|
  {
    if ids == [] then table
    else
      var o := ids[0];
      var b := Bucket(BytesOf(h, o), |table|);
      Relink(h, ids[1..], table[b := [o] + table[b]])
  }

  function RelinkAll(h: Heap, strt: seq<seq<Id>>, table: seq<seq<Id>>): (r: seq<seq<Id>>)
    requires |table| > 0
    ensures |r| == |table|
    decreases |strt|
  {
    if strt == [] then table
    else
      RelinkAll(h, strt[1..], Relink(h, strt[0], table))
  }

  ghost predicate InTable(table: seq<seq<Id>>, o: Id) { exists i :: 0 <= i < |table| && o in table[i] }

  /** The buckets are duplicate-free and hold strings that belong there. */
  ghost predicate Table(h: Heap, table: seq<seq<Id>>)
  {
    && |table| > 0
    && (forall i :: 0 <= i < |table| ==> Distinct(table[i]))
    && (forall i, o :: 0 <= i < |table| && o in table[i] ==>
       o in h && h[o].kind.String? && Bucket(h[o].bytes, |table|) == i)
  }

  lemma {:induction false} RelinkTable(h: Heap, ids: seq<Id>, table: seq<seq<Id>>)
    requires Table(h, table) && Distinct(ids)
    requires forall o :: o in ids ==> o in h && h[o].kind.String? && !InTable(table, o)
    ensures Table(h, Relink(h, ids, table))
    ensures forall o :: InTable(Relink(h, ids, table), o) <==> InTable(table, o) || o in ids
    decreases |ids|
  {
    if ids != [] {
      var o := ids[0];
      assert o in ids;
      var b := Bucket(h[o].bytes, |table|);
      var table1 := table[b := [o] + table[b]];
      assert o !in table[b];
      assert Table(h, table1) by {
        DistinctConcat([o], table[b]);
        forall i, x | 0 <= i < |table1| && x in table1[i]
          ensures x in h && h[x].kind.String? && Bucket(h[x].bytes, |table1|) == i
        {
          if i == b && x != o { assert x in table[b]; }
        }
      }
      Linked(table, b, o);
      forall x | x in ids[1..] ensures !InTable(table1, x) { assert x in ids && x != o; }
      RelinkTable(h, ids[1..], table1);
      assert forall x :: x in ids <==> x == o || x in ids[1..];
    }
  }

  lemma Linked(table: seq<seq<Id>>, b: nat, o: Id)
    requires b < |table|
    ensures forall x :: InTable(table[b := [o] + table[b]], x) <==> x == o || InTable(table, x)
  {
    var table1 := table[b := [o] + table[b]];
    forall x ensures InTable(table1, x) <==> x == o || InTable(table, x) {
      if InTable(table, x) {
        var i :| 0 <= i < |table| && x in table[i];
        assert x in table1[i];
      }
      if x == o { assert x in table1[b]; }
      if InTable(table1, x) {
        var i :| 0 <= i < |table1| && x in table1[i];
        if x != o { assert x in table[i]; }
      }
    }
  }

  /** The lists of the old table that are still to be moved. */
  ghost predicate Pending(h: Heap, strt: seq<seq<Id>>, table: seq<seq<Id>>)
  {
    && (forall i :: 0 <= i < |strt| ==> Distinct(strt[i]))
    && (forall i, o :: 0 <= i < |strt| && o in strt[i] ==> o in h && h[o].kind.String? && !InTable(table, o))
    && (forall i, j, o :: 0 <= i < j < |strt| && o in strt[i] ==> o !in strt[j])
  }

  lemma {:induction false} RelinkAllTable(h: Heap, strt: seq<seq<Id>>, table: seq<seq<Id>>)
    requires Table(h, table) && Pending(h, strt, table)
    ensures Table(h, RelinkAll(h, strt, table))
    ensures forall o :: InTable(RelinkAll(h, strt, table), o) <==> InTable(table, o) || InTable(strt, o)
    decreases |strt|
  {
    if strt != [] {
      RelinkTable(h, strt[0], table);
      var table1 := Relink(h, strt[0], table);
      RelinkAllTable(h, strt[1..], table1);
      forall o ensures InTable(strt, o) <==> o in strt[0] || InTable(strt[1..], o) { InTableTail(strt, o); }
    }
  }

  lemma InTableTail(strt: seq<seq<Id>>, o: Id)
    requires strt != []
    ensures InTable(strt, o) <==> o in strt[0] || InTable(strt[1..], o)
  {
    if InTable(strt, o) {
      var i :| 0 <= i < |strt| && o in strt[i];
      if i > 0 { assert strt[1..][i - 1] == strt[i]; }
    }
    if InTable(strt[1..], o) {
      var i :| 0 <= i < |strt[1..]| && o in strt[1..][i];
      assert strt[i + 1] == strt[1..][i];
    }
  }

  /** luaS_resize: nothing happens while the string buckets are being swept. */
  function ResizeStrings(s: State, newsize: nat): State
    requires newsize > 0
  {
    if s.phase.SweepString? then s
    else s.(strt := RelinkAll(s.heap, s.strt, seq(newsize, _ => [])))
  }

  /** Resizing keeps every string interned, in the bucket of the new size. */
  lemma ResizeKeepsTable(s: State, newsize: nat)
    requires StringTable(s.heap, s.strt) && newsize > 0
    ensures StringTable(s.heap, ResizeStrings(s, newsize).strt)
  {
    if !s.phase.SweepString? {
      var empty := seq(newsize, _ => []);
      forall i, j, o | 0 <= i < j < |s.strt| && o in s.strt[i] ensures o !in s.strt[j] {
        assert Bucket(s.heap[o].bytes, |s.strt|) == i;
      }
      RelinkAllTable(s.heap, s.strt, empty);
      var r := RelinkAll(s.heap, s.strt, empty);
      forall o | o in s.heap && s.heap[o].kind.String? ensures o in r[Bucket(s.heap[o].bytes, |r|)] {
        assert InTable(s.strt, o);
        assert InTable(r, o);
      }
    }
  }

  function FindString(h: Heap, ids: seq<Id>, bytes: seq<bv8>): (r: Option<Id>)
    ensures r.Some? ==> r.value in ids && r.value in h && h[r.value].bytes == bytes
    ensures r.None? ==> forall o :: o in ids && o in h ==> h[o].bytes != bytes
    decreases |ids|
  {
    if ids == [] then None
    else
      var o := ids[0];
      assert o in ids;
      if o in h && h[o].bytes == bytes then Some(o) else FindString(h, ids[1..], bytes)
  }

  function NewStringObj(s: State, bytes: seq<bv8>): Obj { Obj(String, White(s.white), false, [], None, [], bytes) }

  /** luaS_newlstr: the string with these bytes, resurrected if it was dead, or a new one. */
  function Intern(s: State, bytes: seq<bv8>, ts: Id): (State, Id)
    requires |s.strt| > 0
  {
    var b := Bucket(bytes, |s.strt|);
    match FindString(s.heap, s.strt[b], bytes)
    case Some(o) => (if IsDead(s, o) then s.(heap := Recolor(s.heap, o, White(s.white))) else s, o)
    case None =>
      var s1 := s.(heap := s.heap[ts := NewStringObj(s, bytes)], strt := s.strt[b := [ts] + s.strt[b]]);
      (if CountStrings(s1.strt) > |s1.strt| && |s1.strt| <= MAX_INT / 2
       then ResizeStrings(s1, 2 * |s1.strt|) else s1, ts)
  }

  lemma NotFound(h: Heap, strt: seq<seq<Id>>, bytes: seq<bv8>)
    requires StringTable(h, strt) && FindString(h, strt[Bucket(bytes, |strt|)], bytes).None?
    ensures forall o :: o in h && h[o].kind.String? ==> h[o].bytes != bytes
  {
    forall o | o in h && h[o].kind.String? ensures h[o].bytes != bytes {
      assert o in strt[Bucket(h[o].bytes, |strt|)];
    }
  }

  lemma AddString(s: State, bytes: seq<bv8>, ts: Id)
    requires StringTable(s.heap, s.strt) && ts !in s.heap
    requires forall o :: o in s.heap && s.heap[o].kind.String? ==> s.heap[o].bytes != bytes
    ensures var b := Bucket(bytes, |s.strt|);
      StringTable(s.heap[ts := NewStringObj(s, bytes)], s.strt[b := [ts] + s.strt[b]])
  {
    hide Bucket;
    var b := Bucket(bytes, |s.strt|);
    var h, strt := s.heap[ts := NewStringObj(s, bytes)], s.strt[b := [ts] + s.strt[b]];
    assert ts !in s.strt[b];
    DistinctConcat([ts], s.strt[b]);
    forall i, o | 0 <= i < |strt| && o in strt[i]
      ensures o in h && h[o].kind.String? && Bucket(h[o].bytes, |strt|) == i
    {
      if o != ts { assert o in s.strt[i]; }
    }
    forall o | o in h && h[o].kind.String? ensures o in strt[Bucket(h[o].bytes, |strt|)] {
      if o != ts { assert o in s.strt[Bucket(h[o].bytes, |strt|)]; }
    }
  }

  /** Interning returns the one string with these bytes, never a dead one, and makes a new
      one only if there was none. */
  lemma InternUnique(s: State, bytes: seq<bv8>, ts: Id)
    requires StringTable(s.heap, s.strt) && ts !in s.heap
    ensures var (r, o) := Intern(s, bytes, ts);
      && StringTable(r.heap, r.strt) && o in r.heap && r.heap[o].kind.String? && r.heap[o].bytes == bytes
      && !IsDead(r, o)
      && (forall o' :: o' in r.heap && r.heap[o'].kind.String? ==> (r.heap[o'].bytes == bytes <==> o' == o))
      && (o == ts <==> forall o' :: o' in s.heap && s.heap[o'].kind.String? ==> s.heap[o'].bytes != bytes)
  {
    var b := Bucket(bytes, |s.strt|);
    var (r, o) := Intern(s, bytes, ts);
    if FindString(s.heap, s.strt[b], bytes).Some? {
      assert o in s.strt[b] && s.heap[o].kind.String?;
      hide StringTable;
      assert SameStrings(s.heap, r.heap);
      StringTableKept(s.heap, r.heap, s.strt);
      InternedOnce(r.heap, r.strt, o);
    } else {
      NotFound(s.heap, s.strt, bytes);
      hide StringTable;
      AddString(s, bytes, ts);
      var s1 := s.(heap := s.heap[ts := NewStringObj(s, bytes)], strt := s.strt[b := [ts] + s.strt[b]]);
      ResizeKeepsTable(s1, 2 * |s1.strt|);
      InternedOnce(r.heap, r.strt, o);
    }
  }

  lemma InternedOnce(h: Heap, strt: seq<seq<Id>>, o: Id)
    requires StringTable(h, strt) && o in h && h[o].kind.String?
    ensures forall o' :: o' in h && h[o'].kind.String? ==> (h[o'].bytes == h[o].bytes <==> o' == o)
  {
  }
}

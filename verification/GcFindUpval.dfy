/** luaF_findupval: the open upvalue of a stack slot, found or made. */
module GcFindUpval {
  import opened Base
  import opened GcHeap
  import opened GcMark
  import opened GcInvariant
  import opened GcUpval
  import opened GcAlloc

  /** How many open upvalues of the list lie above `level`. */
  function Above(h: Heap, l: seq<Id>, level: nat): (k: nat)
    ensures k <= |l|
    ensures forall i :: 0 <= i < k ==> PosOf(h, l[i]) > level
    ensures k < |l| ==> PosOf(h, l[k]) <= level
  {
    if l == [] || PosOf(h, l[0]) <= level then 0 else 1 + Above(h, l[1..], level)
  }

  function NewOpen(s: State, th: Id, level: nat): Obj
  {
    Obj(Upval, White(s.white), false, [], Some(Slot(th, level)), [], [])
  }

  /** A new open upvalue, chained in its place and in front of the ring. */
  function AddOpen(s: State, th: Id, level: nat, uv: Id): State
    requires th in s.heap
  {
    var l := s.heap[th].openupval;
    var k := Above(s.heap, l, level);
    var h := s.heap[th := s.heap[th].(openupval := l[..k] + [uv] + l[k..])];
    s.(heap := h[uv := NewOpen(s, th, level)], uvhead := [uv] + s.uvhead)
  }

  function FindUpval(s: State, th: Id, level: nat, uv: Id): (State, Id)
    requires th in s.heap
  {
    var l := s.heap[th].openupval;
    var k := Above(s.heap, l, level);
    if k < |l| && PosOf(s.heap, l[k]) == level then
      (if IsDead(s, l[k]) then s.(heap := Recolor(s.heap, l[k], White(s.white))) else s, l[k])
    else (AddOpen(s, th, level, uv), uv)
  }

  lemma AboveFrom(h: Heap, l: seq<Id>, k: nat, level: nat)
    requires k <= |l|
    ensures Above(h, l[k..], level) == if k == |l| || PosOf(h, l[k]) <= level then 0
      else 1 + Above(h, l[k + 1..], level)
  {
    if k < |l| { assert l[k..][0] == l[k] && l[k..][1..] == l[k + 1..]; }
  }

  lemma FindUpvalCases(s: State, th: Id, level: nat, uv: Id)
    requires th in s.heap
    ensures var l := s.heap[th].openupval;
      var k := Above(s.heap, l, level);
      && k <= |l|
      && FindUpval(s, th, level, uv) ==
         if k < |l| && PosOf(s.heap, l[k]) == level
         then (if IsDead(s, l[k]) then s.(heap := Recolor(s.heap, l[k], White(s.white))) else s, l[k])
         else
           (s.(heap := s.heap[th := s.heap[th].(openupval := l[..k] + [uv] + l[k..])][uv := NewOpen(s, th, level)],
               uvhead := [uv] + s.uvhead), uv)
  {
  }

  lemma AddOpenList(s: State, th: Id, level: nat, uv: Id)
    requires th in s.heap && s.heap[th].kind.Thread? && OpenList(s.heap, th) && uv !in s.heap
    requires level < |s.heap[th].slots|
    requires forall x :: x in s.heap[th].openupval ==> PosOf(s.heap, x) != level
    ensures OpenList(AddOpen(s, th, level, uv).heap, th)
  {
    var h, h' := s.heap, AddOpen(s, th, level, uv).heap;
    var l, l' := h[th].openupval, h'[th].openupval;
    var k := Above(h, l, level);
    assert forall x :: x in h ==> PosOf(h', x) == PosOf(h, x);
    forall i | 0 <= i < |l| ensures PosOf(h', l[i]) == PosOf(h, l[i]) {
      var x := l[i];
      assert x in l && OpenOn(h, x, th);
    }
    assert PosOf(h', uv) == level;
    assert forall x :: OpenOn(h', x, th) <==> OpenOn(h, x, th) || x == uv;
    InsertMembers(l, k, uv);
    AfterSlot(h, th, k, level);
    InsertOrder(h, h', l, k, uv);
  }

  lemma InsertOrder(h: Heap, h': Heap, l: seq<Id>, k: nat, uv: Id)
    requires k <= |l|
    requires forall i :: 0 <= i < |l| ==> PosOf(h', l[i]) == PosOf(h, l[i])
    requires forall i :: 0 <= i < k ==> PosOf(h, l[i]) > PosOf(h', uv)
    requires forall i :: k <= i < |l| ==> PosOf(h, l[i]) < PosOf(h', uv)
    requires forall i, j :: 0 <= i < j < |l| ==> PosOf(h, l[i]) > PosOf(h, l[j])
    ensures var l' := l[..k] + [uv] + l[k..]; forall i, j :: 0 <= i < j < |l'| ==> PosOf(h', l'[i]) > PosOf(h', l'[j])
  {
    var l' := l[..k] + [uv] + l[k..];
    assert forall i :: 0 <= i < |l'| ==> l'[i] == if i < k then l[i] else if i == k then uv else l[i - 1];
  }

  lemma AfterSlot(h: Heap, th: Id, k: nat, level: nat)
    requires th in h && OpenList(h, th) && k == Above(h, h[th].openupval, level)
    requires forall x :: x in h[th].openupval ==> PosOf(h, x) != level
    ensures forall i :: k <= i < |h[th].openupval| ==> PosOf(h, h[th].openupval[i]) < level
  {
    var l := h[th].openupval;
    if k < |l| {
      var x := l[k];
      assert x in l;
      assert forall i :: k < i < |l| ==> PosOf(h, l[k]) > PosOf(h, l[i]);
    }
  }

  lemma AddOpenUpvals(s: State, th: Id, level: nat, uv: Id)
    requires th in s.heap && s.heap[th].kind.Thread? && Upvals(s.heap, s.uvhead) && uv !in s.heap
    requires level < |s.heap[th].slots|
    requires forall x :: x in s.heap[th].openupval ==> PosOf(s.heap, x) != level
    ensures Upvals(AddOpen(s, th, level, uv).heap, AddOpen(s, th, level, uv).uvhead)
  {
    hide OpenList, Above;
    var r := AddOpen(s, th, level, uv);
    var h, h' := s.heap, r.heap;
    assert forall x :: IsOpen(h', x) <==> IsOpen(h, x) || x == uv;
    assert uv !in s.uvhead;
    AddOpenList(s, th, level, uv);
    forall o | o in h' && h'[o].kind.Thread? && o != th ensures OpenList(h', o) { OtherOpenList(s, th, level, uv, o); }
    assert Distinct(r.uvhead);
  }

  lemma OtherOpenList(s: State, th: Id, level: nat, uv: Id, o: Id)
    requires th in s.heap && uv !in s.heap && o in s.heap && o != th && OpenList(s.heap, o)
    ensures OpenList(AddOpen(s, th, level, uv).heap, o)
  {
    var h, h' := s.heap, AddOpen(s, th, level, uv).heap;
    assert forall x :: x in h ==> PosOf(h', x) == PosOf(h, x);
    assert forall x :: OpenOn(h', x, o) <==> OpenOn(h, x, o);
    SameList(h, h', o);
  }

  lemma AddOpenShape(s: State, th: Id, level: nat, uv: Id)
    requires Shape(s) && th in s.heap && s.heap[th].kind.Thread? && uv !in s.heap && level < |s.heap[th].slots|
    requires forall x :: x in s.heap[th].openupval ==> PosOf(s.heap, x) != level
    ensures Shape(AddOpen(s, th, level, uv))
  {
    hide StringTable, Upvals;
    var r := AddOpen(s, th, level, uv);
    AddOpenUpvals(s, th, level, uv);
    assert SameStrings(s.heap, r.heap);
    StringTableKept(s.heap, r.heap, s.strt);
  }

  /** The thread with its list changed and nothing else. */
  function Relisted(s: State, th: Id, l: seq<Id>): State
    requires th in s.heap
  {
    s.(heap := s.heap[th := s.heap[th].(openupval := l)])
  }

  lemma RelistedKeeps(s: State, th: Id, l: seq<Id>)
    requires AliveClosed(s) && RootsAlive(s) && KindColors(s.heap) && th in s.heap
    ensures var r := Relisted(s, th, l);
      && AliveClosed(r) && RootsAlive(r) && KindColors(r.heap) && (MarkInv(s) ==> MarkInv(r))
      && SameMarks(s.heap, r.heap) && forall o :: IsOpen(r.heap, o) <==> IsOpen(s.heap, o)
  {
    var r := Relisted(s, th, l);
    assert SameMarks(s.heap, r.heap) by {
      forall o | o in s.heap ensures Fields(r.heap, o) == Fields(s.heap, o) {}
    }
    assert Frees(s, r);
    FreesKeepsAlive(s, r);
    forall o | o in r.heap ensures KindColor(r.heap[o]) { assert KindColor(s.heap[o]); }
    if MarkInv(s) { SameMarksKeepsInv(s, r); }
  }

  lemma AddOpenKeepsInv(s: State, th: Id, level: nat, uv: Id)
    requires Inv(s) && Alive(s, th) && s.heap[th].kind.Thread? && uv !in s.heap && level < |s.heap[th].slots|
    requires forall x :: x in s.heap[th].openupval ==> PosOf(s.heap, x) != level
    ensures Inv(AddOpen(s, th, level, uv))
  {
    hide StringTable, Upvals, AliveClosed, KindColors, MarkInv, RootList;
    AddOpenShape(s, th, level, uv);
    var r := AddOpen(s, th, level, uv);
    var m := Relisted(s, th, r.heap[th].openupval);
    RelistedKeeps(s, th, r.heap[th].openupval);
    UpvalHomes(s.heap, s.uvhead);
    assert Adds(m, r, uv);
    forall c | Edge(r.heap, uv, c) ensures Alive(m, c) { OpenValue(s, th, level, c); }
    forall x | IsOpen(m.heap, x) ensures m.heap[x].home.value.thread in m.heap { assert IsOpen(s.heap, x); }
    AddsAlive(m, r, uv);
    if s.phase.Propagate? {
      AddsMarking(m, r, uv);
    } else {
      OpenSwept(s, th, level, uv);
    }
    assert KindColors(r.heap) by { AddsColors(m.heap, r.heap, uv); }
  }

  lemma OpenValue(s: State, th: Id, level: nat, c: Id)
    requires AliveClosed(s) && Alive(s, th) && s.heap[th].home.None? && level < |s.heap[th].slots|
    requires s.heap[th].slots[level] == Some(c)
    ensures Alive(s, c)
  {
    assert Edge(s.heap, th, c);
  }

  lemma AddsColors(h: Heap, h': Heap, o: Id)
    requires KindColors(h) && o in h' && KindColor(h'[o]) && h' == h[o := h'[o]]
    ensures KindColors(h')
  {
    forall x | x in h' ensures KindColor(h'[x]) { if x != o { assert KindColor(h[x]); } }
  }

  lemma OpenSwept(s: State, th: Id, level: nat, uv: Id)
    requires PhaseInv(s) && !s.phase.Propagate? && th in s.heap && uv !in s.heap
    ensures PhaseInv(AddOpen(s, th, level, uv))
  {
    var r := AddOpen(s, th, level, uv);
    assert forall x :: CurrentWhite(s, x) ==> CurrentWhite(r, x);
    assert CurrentWhite(r, uv);
    assert forall x :: IsOpen(r.heap, x) && x != uv ==> IsOpen(s.heap, x) && r.heap[x].home == s.heap[x].home;
  }

  /** luaF_findupval keeps the invariant; what it returns is not dead and stands for the slot. */
  lemma FindUpvalKeepsInv(s: State, th: Id, level: nat, uv: Id)
    requires Inv(s) && Alive(s, th) && s.heap[th].kind.Thread? && uv !in s.heap && level < |s.heap[th].slots|
    ensures var (r, f) := FindUpval(s, th, level, uv);
      && Inv(r) && Alive(r, f) && r.heap[f].home == Some(Slot(th, level))
      && (forall o :: o in s.heap ==> o in r.heap)
      && (f == uv <==> forall x :: OpenOn(s.heap, x, th) ==> PosOf(s.heap, x) != level)
  {
    hide Inv, OpenList;
    var l := s.heap[th].openupval;
    var k := Above(s.heap, l, level);
    OpenListOf(s, th);
    if k < |l| && PosOf(s.heap, l[k]) == level {
      var f := l[k];
      assert f in l && OpenOn(s.heap, f, th);
      forall c | Edge(s.heap, f, c) ensures Alive(s, c) { OpenEdge(s, th, level, f, c); }
      if IsDead(s, f) { ResurrectKeepsInv(s, f); }
      OpenUpvalKind(s, f);
    } else {
      forall x | x in l ensures PosOf(s.heap, x) != level { NoneAt(s, th, level, x); }
      AddOpenKeepsInv(s, th, level, uv);
    }
  }

  lemma OpenListOf(s: State, th: Id)
    requires Inv(s) && th in s.heap && s.heap[th].kind.Thread?
    ensures OpenList(s.heap, th)
    ensures forall x :: x in s.heap[th].openupval <==> OpenOn(s.heap, x, th)
  {
    hide StringTable, AliveClosed, PhaseInv, KindColors;
    assert OpenList(s.heap, th);
  }

  lemma OpenUpvalKind(s: State, f: Id)
    requires Inv(s) && IsOpen(s.heap, f)
    ensures s.heap[f].kind.Upval?
  {
    assert KindColor(s.heap[f]);
  }

  lemma OpenEdge(s: State, th: Id, level: nat, f: Id, c: Id)
    requires Inv(s) && Alive(s, th) && s.heap[th].kind.Thread? && level < |s.heap[th].slots|
    requires OpenOn(s.heap, f, th) && PosOf(s.heap, f) == level && Edge(s.heap, f, c)
    ensures Alive(s, c)
  {
    hide Shape, PhaseInv, AliveClosed;
    assert KindColor(s.heap[th]);
    OpenValue(s, th, level, c);
  }

  lemma NoneAt(s: State, th: Id, level: nat, x: Id)
    requires th in s.heap && OpenList(s.heap, th) && x in s.heap[th].openupval
    requires var l := s.heap[th].openupval; var k := Above(s.heap, l, level); !(k < |l| && PosOf(s.heap, l[k]) == level)
    ensures PosOf(s.heap, x) != level
  {
    var l := s.heap[th].openupval;
    var k := Above(s.heap, l, level);
    var i :| 0 <= i < |l| && l[i] == x;
    if k < i { assert PosOf(s.heap, l[k]) > PosOf(s.heap, l[i]); }
  }
}

/** Open upvalues: finding, closing and linking them (lfunc.c, lgc.c). */
module GcUpval {
  import opened Base
  import opened GcHeap
  import opened GcMark
  import opened GcInvariant

  /** Putting an object in front of `rootgc`: the sweep position moves with the object it
      stands behind, and stays at the front if that is where it was. */
  function LinkFront(s: State, o: Id): State
  {
    s.(rootgc := [o] + s.rootgc, sweepgc := if s.sweepgc > 0 then s.sweepgc + 1 else 0)
  }

  /** luaC_linkupval: a gray upvalue turns black behind a barrier while marking, and white
      while sweeping. */
  function LinkUpval(s: State, uv: Id): State
    requires uv in s.heap
  {
    var l := LinkFront(s, uv);
    if l.heap[uv].color != Gray then l
    else if l.phase.Propagate? then MarkFields(l.(heap := Recolor(l.heap, uv, Black)), l.heap[uv].slots)
    else l.(heap := Recolor(l.heap, uv, White(l.white)))
  }

  /** The topmost open upvalue of `th` leaves its list and the ring and owns its value. */
  function Detach(s: State, th: Id): State
    requires th in s.heap && s.heap[th].openupval != [] && s.heap[th].openupval[0] in s.heap
  {
    var uv := s.heap[th].openupval[0];
    var h := s.heap[uv := s.heap[uv].(slots := Fields(s.heap, uv), home := None)];
    s.(heap := h[th := h[th].(openupval := h[th].openupval[1..])], uvhead := Without(s.uvhead, {uv}))
  }

  /** One turn of luaF_close: a dead upvalue is freed, a live one is closed and linked. */
  function CloseOne(s: State, th: Id): State
    requires th in s.heap && s.heap[th].openupval != [] && s.heap[th].openupval[0] in s.heap
  {
    var uv := s.heap[th].openupval[0];
    var d := Detach(s, th);
    if IsDead(s, uv) then d.(heap := d.heap - {uv}) else LinkUpval(d, uv)
  }

  /** Detaching keeps the lists right, once the upvalue is linked into `rootgc`. */
  lemma DetachShape(s: State, th: Id)
    requires Shape(s) && th in s.heap && s.heap[th].kind.Thread? && s.heap[th].openupval != []
    ensures var uv := s.heap[th].openupval[0];
      && OpenOn(s.heap, uv, th)
      && Shape(LinkFront(Detach(s, th), uv))
  {
    hide Upvals, StringTable;
    var uv := s.heap[th].openupval[0];
    OpenFacts(s.heap, s.uvhead, th);
    var r := LinkFront(Detach(s, th), uv);
    DetachUpvals(s, th, uv);
    assert SameStrings(s.heap, r.heap);
    StringTableKept(s.heap, r.heap, s.strt);
    assert uv !in s.rootgc;
    assert Distinct(r.rootgc);
  }

  lemma DetachUpvals(s: State, th: Id, uv: Id)
    requires Upvals(s.heap, s.uvhead) && th in s.heap && s.heap[th].kind.Thread? && s.heap[th].openupval != []
    requires uv == s.heap[th].openupval[0] && OpenOn(s.heap, uv, th)
    ensures Upvals(Detach(s, th).heap, Detach(s, th).uvhead)
  {
    hide OpenList;
    var r := Detach(s, th);
    WithoutDistinct(s.uvhead, {uv});
    forall o | o in r.heap && r.heap[o].kind.Thread? ensures OpenList(r.heap, o) {
      DetachedList(s, th, uv, o);
    }
  }

  lemma DetachedList(s: State, th: Id, uv: Id, o: Id)
    requires th in s.heap && s.heap[th].openupval != [] && s.heap[th].kind.Thread?
    requires uv == s.heap[th].openupval[0] && OpenOn(s.heap, uv, th) && s.heap[uv].kind.Upval?
    requires o in s.heap && s.heap[o].kind.Thread? && OpenList(s.heap, o)
    ensures OpenList(Detach(s, th).heap, o)
  {
    hide OpenList;
    var h, h' := s.heap, Detach(s, th).heap;
    assert forall x :: x != uv ==> PosOf(h', x) == PosOf(h, x);
    assert forall x :: OpenOn(h', x, o) <==> OpenOn(h, x, o) && x != uv;
    if o == th { ShorterList(h, h', o); } else { SameList(h, h', o); }
  }

  /** A thread whose first open upvalue is closed. */
  lemma ShorterList(h: Heap, h': Heap, th: Id)
    requires th in h && OpenList(h, th) && h[th].openupval != [] && th in h'
    requires h'[th] == h[th].(openupval := h[th].openupval[1..])
    requires forall x :: x != h[th].openupval[0] ==> PosOf(h', x) == PosOf(h, x)
    requires forall x :: OpenOn(h', x, th) <==> OpenOn(h, x, th) && x != h[th].openupval[0]
    ensures OpenList(h', th)
  {
    var l := h[th].openupval;
    assert l == [l[0]] + l[1..];
    assert forall j :: 0 < j < |l| ==> PosOf(h, l[0]) > PosOf(h, l[j]);
    assert l[0] !in l[1..];
  }

  /** Same objects up to the fields the collector does not look at while marking. */
  ghost predicate SameMarks(h: Heap, h': Heap)
  {
    && h'.Keys == h.Keys
    && (forall o :: o in h ==> h'[o].color == h[o].color && h'[o].kind == h[o].kind && Fields(h', o) == Fields(h, o))
  }

  lemma SameMarksKeepsInv(s: State, s': State)
    requires MarkInv(s) && SameMarks(s.heap, s'.heap) && KindColors(s'.heap)
    requires s'.white == s.white && s'.gray == s.gray && s'.grayagain == s.grayagain
    ensures MarkInv(s')
  {
    assert forall o, c :: Edge(s'.heap, o, c) <==> Edge(s.heap, o, c);
  }

  lemma DetachFields(s: State, th: Id)
    requires Upvals(s.heap, s.uvhead) && th in s.heap && s.heap[th].kind.Thread? && s.heap[th].openupval != []
    ensures OpenOn(s.heap, s.heap[th].openupval[0], th)
    ensures SameMarks(s.heap, Detach(s, th).heap)
    ensures Detach(s, th).heap[s.heap[th].openupval[0]].slots == Fields(s.heap, s.heap[th].openupval[0])
  {
    OpenFacts(s.heap, s.uvhead, th);
    var h, h' := s.heap, Detach(s, th).heap;
    assert forall o :: o in h && h[o].kind.Thread? ==> h'[o].slots == h[o].slots && h'[o].home == h[o].home;
    forall o | o in h ensures Fields(h', o) == Fields(h, o) {
      assert IsOpen(h, o) ==> h[h[o].home.value.thread].kind.Thread?;
    }
  }

  /** A closed upvalue that is still gray turns black behind a forward barrier. */
  lemma LinkGrayUpval(s: State, uv: Id)
    requires Closed(s.heap) && NoDead(s) && NoBlackToWhite(s.heap) && GrayLists(s) && s.phase.Propagate?
    requires forall o :: o in s.heap && o != uv ==> KindColor(s.heap[o])
    requires uv in s.heap && s.heap[uv].color == Gray && s.heap[uv].kind.Upval? && s.heap[uv].home.None?
    ensures MarkInv(LinkUpval(s, uv)) && SameShape(s.heap, LinkUpval(s, uv).heap)
    ensures LinkUpval(s, uv) == LinkFront(s, uv).(heap := LinkUpval(s, uv).heap, gray := LinkUpval(s, uv).gray)
    ensures forall o :: NonWhite(s.heap, o) ==> NonWhite(LinkUpval(s, uv).heap, o)
  {
    var b := LinkFront(s, uv).(heap := Recolor(s.heap, uv, Black));
    SameShapeFields(s.heap, b.heap);
    assert forall c :: Some(c) in s.heap[uv].slots <==> Edge(b.heap, uv, c);
    var pushed := MarkFieldsMarks(b, s.heap[uv].slots);
    MarksShape(b, LinkUpval(s, uv), pushed);
    ForwardBarrier(b, uv, LinkUpval(s, uv), pushed);
  }

  /** Removing from list and heap an object that owns no open upvalue keeps the lists right. */
  lemma DropShape(s: State, s': State, o: Id)
    requires Shape(s) && o in s.rootgc && (s.heap[o].kind.Thread? ==> s.heap[o].openupval == []) && o != s.mainthread
    requires s' == s.(heap := s.heap - {o}, rootgc := Without(s.rootgc, {o}), sweepgc := s'.sweepgc)
    requires s'.sweepgc <= |s'.rootgc|
    ensures Shape(s')
  {
    hide StringTable, Upvals;
    WithoutDistinct(s.rootgc, {o});
    assert SameStrings(s.heap, s'.heap);
    StringTableKept(s.heap, s'.heap, s.strt);
    DropUpvals(s.heap, o, s.uvhead);
  }

  lemma DropUpvals(h: Heap, o: Id, uvhead: seq<Id>)
    requires Upvals(h, uvhead) && o in h && h[o].home.None? && (h[o].kind.Thread? ==> h[o].openupval == [])
    ensures Upvals(h - {o}, uvhead)
  {
    var h' := h - {o};
    assert forall x :: x != o ==> PosOf(h', x) == PosOf(h, x);
    assert forall x :: IsOpen(h', x) <==> IsOpen(h, x);
    forall x | IsOpen(h', x) ensures h[x].home.value.thread != o {
      var th := h[x].home.value.thread;
      assert IsOpen(h, x) && OpenList(h, th) && OpenOn(h, x, th);
    }
    forall x | x in h' && h'[x].kind.Thread? ensures OpenList(h', x) {
      assert OpenList(h, x);
      assert forall uv :: OpenOn(h', uv, x) <==> OpenOn(h, uv, x);
    }
  }

  lemma WithoutHead(o: Id, l: seq<Id>)
    requires o !in l
    ensures Without([o] + l, {o}) == l
  {
    assert ([o] + l)[1..] == l;
    WithoutNone(l, {o});
  }

  /** What closing the topmost upvalue of `th` leaves as it was. */
  ghost predicate Closes(s: State, r: State, th: Id)
    requires th in s.heap && s.heap[th].openupval != []
  {
    && th in r.heap && r.heap[th] == s.heap[th].(openupval := s.heap[th].openupval[1..], color := r.heap[th].color)
    && (forall o :: o in s.heap && o != s.heap[th].openupval[0] ==> o in r.heap && r.heap[o].home == s.heap[o].home)
    && (forall o :: o in r.heap ==>
       o in s.heap && r.heap[o].kind == s.heap[o].kind && Fields(r.heap, o) == Fields(s.heap, o))
    && (forall o :: o in r.heap ==> r.heap[o].fixed == s.heap[o].fixed && (Alive(r, o) <==> Alive(s, o)))
    && Frees(s, r) && r.phase == s.phase
  }

  lemma RemoveKeepsFields(h: Heap, o: Id)
    requires forall x :: IsOpen(h, x) ==> h[x].home.value.thread != o
    ensures forall x :: x in h - {o} ==> Fields(h - {o}, x) == Fields(h, x)
  {
    forall x | x in h - {o} ensures Fields(h - {o}, x) == Fields(h, x) {
      if h[x].home.Some? { assert IsOpen(h, x); }
    }
  }

  lemma CloseDeadCloses(s: State, th: Id)
    requires Upvals(s.heap, s.uvhead) && th in s.heap && s.heap[th].kind.Thread? && s.heap[th].openupval != []
    requires IsDead(s, s.heap[th].openupval[0]) && !s.heap[s.heap[th].openupval[0]].fixed
    ensures Closes(s, CloseOne(s, th), th)
  {
    hide Upvals, Fields;
    var uv := s.heap[th].openupval[0];
    OpenFacts(s.heap, s.uvhead, th);
    UpvalHomes(s.heap, s.uvhead);
    DetachFields(s, th);
    var d, r := Detach(s, th), CloseOne(s, th);
    forall x | IsOpen(d.heap, x) ensures d.heap[x].home.value.thread != uv { assert IsOpen(s.heap, x); }
    RemoveKeepsFields(d.heap, uv);
    assert forall o :: o in r.heap ==> r.heap[o] == d.heap[o];
    DetachFrees(s, r, uv, th);
  }

  lemma DetachFrees(s: State, r: State, uv: Id, th: Id)
    requires IsDead(s, uv) && !s.heap[uv].fixed && r.heap.Keys == s.heap.Keys - {uv}
    requires forall o :: o in r.heap ==> SameContents(s.heap, r.heap, o) && r.heap[o].color == s.heap[o].color
    requires r.white == s.white && SameRoots(s, r)
    ensures Frees(s, r)
  {
    hide Fields;
  }

  lemma CloseDeadShape(s: State, th: Id)
    requires Shape(s) && th in s.heap && s.heap[th].kind.Thread? && s.heap[th].openupval != []
    requires IsDead(s, s.heap[th].openupval[0])
    ensures Shape(CloseOne(s, th))
  {
    hide StringTable, Upvals;
    var uv := s.heap[th].openupval[0];
    OpenFacts(s.heap, s.uvhead, th);
    DetachShape(s, th);
    assert uv !in s.rootgc;
    WithoutHead(uv, s.rootgc);
    DropShape(LinkFront(Detach(s, th), uv), CloseOne(s, th), uv);
  }

  lemma CloseDeadSwept(s: State, th: Id)
    requires Upvals(s.heap, s.uvhead) && KindColors(s.heap) && PhaseInv(s)
    requires th in s.heap && s.heap[th].kind.Thread? && s.heap[th].openupval != []
    requires IsDead(s, s.heap[th].openupval[0])
    ensures PhaseInv(CloseOne(s, th)) && KindColors(CloseOne(s, th).heap)
  {
    hide Upvals;
    OpenFacts(s.heap, s.uvhead, th);
    var r := CloseOne(s, th);
    assert forall o :: CurrentWhite(s, o) ==> CurrentWhite(r, o);
    assert forall o :: IsOpen(r.heap, o) ==> IsOpen(s.heap, o) && r.heap[o].home == s.heap[o].home;
  }

  lemma CloseDeadKeepsInv(s: State, th: Id)
    requires Inv(s) && th in s.heap && s.heap[th].kind.Thread? && s.heap[th].openupval != []
    requires IsDead(s, s.heap[th].openupval[0])
    ensures Inv(CloseOne(s, th)) && Closes(s, CloseOne(s, th), th)
  {
    hide StringTable, Upvals, MarkInv, AliveClosed, Frees;
    OpenFacts(s.heap, s.uvhead, th);
    CloseDeadShape(s, th);
    CloseDeadCloses(s, th);
    FreesKeepsAlive(s, CloseOne(s, th));
    CloseDeadSwept(s, th);
  }

  /** A live upvalue leaves the open list: `Detach` and `LinkUpval` away from marking. */
  lemma CloseLiveSweeping(s: State, th: Id)
    requires Inv(s) && th in s.heap && s.heap[th].kind.Thread? && s.heap[th].openupval != [] && !s.phase.Propagate?
    requires !IsDead(s, s.heap[th].openupval[0])
    ensures OpenOn(s.heap, s.heap[th].openupval[0], th)
    ensures Inv(CloseOne(s, th)) && Closes(s, CloseOne(s, th), th)
  {
    hide StringTable, Upvals, MarkInv, AliveClosed, Frees, OpenList;
    var uv := s.heap[th].openupval[0];
    OpenFacts(s.heap, s.uvhead, th);
    DetachShape(s, th);
    DetachFields(s, th);
    var l := LinkFront(Detach(s, th), uv);
    var r := CloseOne(s, th);
    assert SameShape(l.heap, r.heap);
    ShapeKept(l, r);
    SameShapeFields(l.heap, r.heap);
    CloseLiveCloses(s, th, r);
    FreesKeepsAlive(s, r);
    CloseLiveSwept(s, th);
  }

  lemma CloseLiveCloses(s: State, th: Id, r: State)
    requires th in s.heap && s.heap[th].kind.Thread? && s.heap[th].openupval != []
    requires OpenOn(s.heap, s.heap[th].openupval[0], th) && s.heap[th].openupval[0] != th
    requires var d := Detach(s, th); SameMarks(s.heap, d.heap) && SameShape(d.heap, r.heap)
    requires forall o :: Alive(s, o) <==> Alive(r, o)
    requires r.white == s.white && SameRoots(s, r) && r.phase == s.phase
    ensures Closes(s, r, th)
  {
    SameShapeFields(Detach(s, th).heap, r.heap);
  }

  lemma CloseLiveSwept(s: State, th: Id)
    requires Upvals(s.heap, s.uvhead) && KindColors(s.heap) && PhaseInv(s) && !s.phase.Propagate?
    requires th in s.heap && s.heap[th].kind.Thread? && s.heap[th].openupval != []
    requires Alive(s, s.heap[th].openupval[0])
    ensures PhaseInv(CloseOne(s, th)) && KindColors(CloseOne(s, th).heap)
  {
    hide Upvals;
    OpenFacts(s.heap, s.uvhead, th);
    UpvalHomes(s.heap, s.uvhead);
    var uv := s.heap[th].openupval[0];
    var r := CloseOne(s, th);
    assert KindColor(s.heap[uv]) && CurrentWhite(r, uv);
    assert forall o :: CurrentWhite(s, o) ==> CurrentWhite(r, o);
    forall o | IsOpen(r.heap, o)
      ensures IsOpen(s.heap, o) && r.heap[o].home == s.heap[o].home && r.heap[o].home.value.thread != uv
    {
    }
    if s.phase.Sweep? { LinkedSwept(s, r, uv); }
  }

  lemma LinkedSwept(s: State, r: State, uv: Id)
    requires RootsSwept(s) && CurrentWhite(r, uv) && r.rootgc == [uv] + s.rootgc
    requires r.sweepgc == if s.sweepgc > 0 then s.sweepgc + 1 else 0
    requires forall o :: CurrentWhite(s, o) ==> CurrentWhite(r, o)
    requires forall o :: IsOpen(r.heap, o) ==>
      IsOpen(s.heap, o) && r.heap[o].home == s.heap[o].home && r.heap[o].home.value.thread != uv
    ensures RootsSwept(r)
  {
    if s.sweepgc > 0 {
      assert r.rootgc[..r.sweepgc] == [uv] + s.rootgc[..s.sweepgc];
    }
  }

  lemma CloseLiveMarks(s: State, th: Id)
    requires Upvals(s.heap, s.uvhead) && MarkInv(s) && s.phase.Propagate?
    requires th in s.heap && s.heap[th].kind.Thread? && s.heap[th].openupval != []
    ensures Alive(s, s.heap[th].openupval[0])
    ensures var uv, d, r := s.heap[th].openupval[0], Detach(s, th), CloseOne(s, th);
      && MarkInv(r) && SameShape(d.heap, r.heap)
      && r == LinkFront(d, uv).(heap := r.heap, gray := r.gray)
      && forall o :: NonWhite(s.heap, o) ==> NonWhite(r.heap, o)
  {
    hide Upvals;
    OpenFacts(s.heap, s.uvhead, th);
    DetachFields(s, th);
    var uv := s.heap[th].openupval[0];
    var d := Detach(s, th);
    assert forall o, c :: Edge(d.heap, o, c) <==> Edge(s.heap, o, c);
    assert forall o :: o in d.heap && o != uv ==> KindColor(d.heap[o]) by {
      forall o | o in d.heap && o != uv ensures KindColor(d.heap[o]) { assert KindColor(s.heap[o]); }
    }
    assert KindColor(s.heap[uv]);
    if s.heap[uv].color == Gray {
      LinkGrayUpval(d, uv);
    } else {
      SameMarksKeepsInv(s, LinkFront(d, uv));
    }
  }

  /** Closing the topmost open upvalue of a thread keeps the invariant in every phase. */
  lemma CloseOneKeepsInv(s: State, th: Id)
    requires Inv(s) && th in s.heap && s.heap[th].kind.Thread? && s.heap[th].openupval != []
    ensures OpenOn(s.heap, s.heap[th].openupval[0], th) && s.heap[s.heap[th].openupval[0]].kind.Upval?
    ensures Inv(CloseOne(s, th)) && Closes(s, CloseOne(s, th), th)
  {
    hide StringTable, Upvals, MarkInv, AliveClosed, Frees, PhaseInv, RootList, Kinds, Closes;
    OpenFacts(s.heap, s.uvhead, th);
    if IsDead(s, s.heap[th].openupval[0]) {
      CloseDeadKeepsInv(s, th);
    } else if s.phase.Propagate? {
      CloseLiveMarking(s, th);
    } else {
      CloseLiveSweeping(s, th);
    }
  }

  lemma CloseLiveMarking(s: State, th: Id)
    requires Inv(s) && th in s.heap && s.heap[th].kind.Thread? && s.heap[th].openupval != [] && s.phase.Propagate?
    requires OpenOn(s.heap, s.heap[th].openupval[0], th)
    ensures Inv(CloseOne(s, th)) && Closes(s, CloseOne(s, th), th)
  {
    hide StringTable, Upvals, GrayLists, NoBlackToWhite, KindColors, AliveClosed, Frees, OpenList;
    var uv := s.heap[th].openupval[0];
    OpenFacts(s.heap, s.uvhead, th);
    DetachShape(s, th);
    DetachFields(s, th);
    CloseLiveMarks(s, th);
    var l, r := LinkFront(Detach(s, th), uv), CloseOne(s, th);
    ShapeKept(l, r);
    assert forall o :: Alive(s, o) <==> Alive(r, o);
    CloseLiveCloses(s, th, r);
    FreesKeepsAlive(s, r);
  }

  /** luaF_close: close the upvalues of `th` at or above `level`. */
  function Close(s: State, th: Id, level: nat): State
    decreases if th in s.heap then |s.heap[th].openupval| else 0
  {
    if th !in s.heap || s.heap[th].openupval == [] then s
    else if PosOf(s.heap, s.heap[th].openupval[0]) < level then s
    else
      var r := CloseOne(s, th);
      if th in r.heap && |r.heap[th].openupval| < |s.heap[th].openupval| then Close(r, th, level) else r
  }

  /** What luaF_close leaves as it was. */
  ghost predicate ClosesAll(s: State, r: State, th: Id)
  {
    && th in s.heap && th in r.heap && r.heap[th].kind == s.heap[th].kind && r.heap[th].slots == s.heap[th].slots
    && (forall o :: o in s.heap && Alive(s, o) ==> o in r.heap)
    && (forall o :: o in r.heap ==>
       o in s.heap && r.heap[o].kind == s.heap[o].kind && Fields(r.heap, o) == Fields(s.heap, o))
    && (forall o :: o in r.heap ==> r.heap[o].fixed == s.heap[o].fixed && (Alive(r, o) <==> Alive(s, o)))
    && Frees(s, r) && r.phase == s.phase
  }

  lemma CloseStep(s: State, s1: State, r: State, th: Id)
    requires th in s.heap && s.heap[th].openupval != [] && Closes(s, s1, th) && ClosesAll(s1, r, th)
    ensures ClosesAll(s, r, th)
  {
    FreesTrans(s, s1, r);
  }

  /** luaF_close keeps the invariant and every value an upvalue shows, and leaves open
      exactly the cells below `level`. */
  lemma {:induction false} CloseKeepsInv(s: State, th: Id, level: nat) returns (k: nat)
    requires Inv(s) && th in s.heap && s.heap[th].kind.Thread?
    ensures Inv(Close(s, th, level)) && ClosesAll(s, Close(s, th, level), th)
    ensures k <= |s.heap[th].openupval| && Close(s, th, level).heap[th].openupval == s.heap[th].openupval[k..]
    ensures forall i :: 0 <= i < |s.heap[th].openupval| ==> (i < k <==> PosOf(s.heap, s.heap[th].openupval[i]) >= level)
    decreases |s.heap[th].openupval|
  {
    hide StringTable, Upvals, AliveClosed, PhaseInv, RootList, Kinds, KindColors;
    var l := s.heap[th].openupval;
    if l == [] {
      k := 0;
    } else if PosOf(s.heap, l[0]) < level {
      k := 0;
      Descending(s, th);
    } else {
      CloseOneKeepsInv(s, th);
      var s1 := CloseOne(s, th);
      var k1 := CloseKeepsInv(s1, th, level);
      CloseStep(s, s1, Close(s1, th, level), th);
      k := k1 + 1;
      ClosePositions(s, s1, th);
      assert l[1..][k1..] == l[k..];
      forall i | 0 <= i < |l| ensures i < k <==> PosOf(s.heap, l[i]) >= level {
        if i > 0 { assert l[i] == s1.heap[th].openupval[i - 1]; }
      }
    }
  }

  lemma Descending(s: State, th: Id)
    requires Inv(s) && th in s.heap && s.heap[th].kind.Thread?
    ensures var l := s.heap[th].openupval; forall i, j :: 0 <= i < j < |l| ==> PosOf(s.heap, l[i]) > PosOf(s.heap, l[j])
  {
    assert OpenList(s.heap, th);
  }

  lemma InOpenList(s: State, th: Id, i: nat)
    requires Inv(s) && th in s.heap && s.heap[th].kind.Thread? && i < |s.heap[th].openupval|
    ensures OpenOn(s.heap, s.heap[th].openupval[i], th)
  {
    assert OpenList(s.heap, th);
    var uv := s.heap[th].openupval[i];
    assert uv in s.heap[th].openupval;
  }

  lemma ClosePositions(s: State, s1: State, th: Id)
    requires Inv(s) && th in s.heap && s.heap[th].kind.Thread? && s.heap[th].openupval != []
    requires Closes(s, s1, th)
    ensures forall o :: o in s.heap[th].openupval[1..] ==> PosOf(s1.heap, o) == PosOf(s.heap, o)
  {
    hide Frees, Inv;
    var uv := s.heap[th].openupval[0];
    Descending(s, th);
    forall o | o in s.heap[th].openupval[1..] ensures PosOf(s1.heap, o) == PosOf(s.heap, o) {
      var i :| 0 <= i < |s.heap[th].openupval[1..]| && s.heap[th].openupval[1..][i] == o;
      assert o == s.heap[th].openupval[i + 1];
      InOpenList(s, th, i + 1);
      assert o != uv;
    }
  }
}

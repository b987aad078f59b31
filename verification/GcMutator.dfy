/** What a running program does to the heap between two collector steps: allocation,
    stores behind barriers, stack writes, and opening upvalues. */
module GcMutator {
  import opened Base
  import opened GcHeap
  import opened GcMark
  import opened GcInvariant
  import opened GcUpval

  /** A raw store of `v` into slot `i` of `o`; `i` may be one past the end. */
  function Store(h: Heap, o: Id, i: nat, v: Option<Id>): (r: Heap)
    requires o in h && i <= |h[o].slots|
    ensures r.Keys == h.Keys
  {
    h[o := h[o].(slots := if i < |h[o].slots| then h[o].slots[i := v] else h[o].slots + [v])]
  }

  /** The same objects, of the same kinds; strings with the same bytes. */
  ghost predicate SameKinds(h: Heap, h': Heap)
  {
    && h'.Keys == h.Keys
    && forall o :: o in h ==> h'[o].kind == h[o].kind && h'[o].bytes == h[o].bytes && h'[o].fixed == h[o].fixed
  }

  predicate NeedsBarrier(s: State, o: Id, v: Option<Id>)
  {
    v.Some? && IsWhite(s.heap, v.value) && o in s.heap && s.heap[o].color == Black
  }

  /** luaC_barrierback: the table turns gray and waits for atomic. */
  function BarrierBack(s: State, t: Id): State
    requires t in s.heap
  {
    s.(heap := Recolor(s.heap, t, Gray), grayagain := [t] + s.grayagain)
  }

  /** luaC_barrierf: while marking, the value is marked; while sweeping, the object is made
      white to avoid further barriers. */
  function BarrierForward(s: State, o: Id, v: Id): State
    requires o in s.heap && IsWhite(s.heap, v)
  {
    if s.phase.Propagate? then ReallyMark(s, v) else s.(heap := Recolor(s.heap, o, White(s.white)))
  }

  /** A store followed by the barrier of the object's kind; threads need none. */
  function SetSlot(s: State, o: Id, i: nat, v: Option<Id>): State
    requires o in s.heap && i <= |s.heap[o].slots|
  {
    var s1 := s.(heap := Store(s.heap, o, i, v));
    if !NeedsBarrier(s1, o, v) then s1
    else if s.heap[o].kind.Table? then BarrierBack(s1, o)
    else BarrierForward(s1, o, v.value)
  }

  lemma StoreFields(h: Heap, o: Id, i: nat, v: Option<Id>)
    requires o in h && i <= |h[o].slots|
    ensures forall x, c :: Edge(Store(h, o, i, v), x, c) ==> Edge(h, x, c) || v == Some(c)
    ensures forall x, c :: Edge(Store(h, o, i, v), x, c) && x != o && !IsOpen(h, x) ==> Edge(h, x, c)
  {
    var h' := Store(h, o, i, v);
    forall x, c | Edge(h', x, c) ensures Edge(h, x, c) || v == Some(c) {
      StoredValue(h, o, i, v, x, c);
    }
  }

  lemma StoredValue(h: Heap, o: Id, i: nat, v: Option<Id>, x: Id, c: Id)
    requires o in h && i <= |h[o].slots| && Edge(Store(h, o, i, v), x, c)
    ensures Edge(h, x, c) || v == Some(c)
  {
    var h' := Store(h, o, i, v);
    if v != Some(c) {
      match h[x].home
      case None =>
        if x == o {
          var j :| 0 <= j < |h'[o].slots| && h'[o].slots[j] == Some(c);
          assert h[o].slots[j] == Some(c);
        }
      case Some(at) =>
        if at.thread == o { assert Fields(h', x) == [h'[o].slots[at.pos]]; }
    }
  }

  lemma StoreShape(s: State, o: Id, i: nat, v: Option<Id>)
    requires Shape(s) && o in s.heap && i <= |s.heap[o].slots| && !s.heap[o].kind.String? && s.heap[o].home.None?
    ensures Shape(s.(heap := Store(s.heap, o, i, v)))
  {
    hide StringTable, Upvals;
    var h, h' := s.heap, Store(s.heap, o, i, v);
    assert SameStrings(h, h');
    StringTableKept(h, h', s.strt);
    StoreOpen(s, o, i, v);
    UpvalsKept(h, h', s.uvhead);
  }

  lemma StoreOpen(s: State, o: Id, i: nat, v: Option<Id>)
    requires Upvals(s.heap, s.uvhead) && o in s.heap && i <= |s.heap[o].slots|
    ensures SameOpen(s.heap, Store(s.heap, o, i, v))
  {
    var h, h' := s.heap, Store(s.heap, o, i, v);
    forall th, uv | th in h' && h'[th].kind.Thread? && OpenOn(h', uv, th) ensures PosOf(h', uv) < |h'[th].slots| {
      assert OpenList(h, th) && OpenOn(h, uv, th);
    }
  }

  /** A raw store of something that is not dead keeps the liveness half of the invariant. */
  lemma StoreAlive(s: State, o: Id, i: nat, v: Option<Id>)
    requires AliveClosed(s) && RootsAlive(s) && o in s.heap && i <= |s.heap[o].slots| && (v.Some? ==> Alive(s, v.value))
    ensures var s1 := s.(heap := Store(s.heap, o, i, v)); AliveClosed(s1) && RootsAlive(s1)
  {
    var s1 := s.(heap := Store(s.heap, o, i, v));
    StoreFields(s.heap, o, i, v);
    assert forall x :: Alive(s1, x) <==> Alive(s, x);
    RootsKept(s, s1);
  }

  /** Away from marking nothing else can go wrong. */
  lemma StoreSwept(s: State, o: Id, i: nat, v: Option<Id>)
    requires PhaseInv(s) && !s.phase.Propagate? && KindColors(s.heap) && o in s.heap && i <= |s.heap[o].slots|
    ensures var s1 := s.(heap := Store(s.heap, o, i, v)); PhaseInv(s1) && KindColors(s1.heap)
  {
    var s1 := s.(heap := Store(s.heap, o, i, v));
    assert forall x :: CurrentWhite(s, x) ==> CurrentWhite(s1, x);
    assert forall x :: IsOpen(s1.heap, x) ==> IsOpen(s.heap, x) && s1.heap[x].home == s.heap[x].home;
    forall x | x in s1.heap ensures KindColor(s1.heap[x]) { assert KindColor(s.heap[x]); }
  }

  /** While marking, a store can only break the tri-colour invariant at `o`. */
  lemma StoreMarking(s: State, o: Id, i: nat, v: Option<Id>)
    requires MarkInv(s) && o in s.heap && i <= |s.heap[o].slots| && (v.Some? ==> v.value in s.heap)
    ensures var s1 := s.(heap := Store(s.heap, o, i, v));
      && Closed(s1.heap) && KindColors(s1.heap) && NoDead(s1) && GrayLists(s1) && NoBlackToWhiteBut(s1.heap, o)
      && (s.heap[o].color == Black ==> forall c :: Edge(s1.heap, o, c) && v != Some(c) ==> NonWhite(s1.heap, c))
      && (!NeedsBarrier(s1, o, v) ==> NoBlackToWhite(s1.heap))
  {
    var s1 := s.(heap := Store(s.heap, o, i, v));
    StoreFields(s.heap, o, i, v);
    forall x | x in s1.heap ensures KindColor(s1.heap[x]) { assert KindColor(s.heap[x]); }
    forall x, c | x in s1.heap && s1.heap[x].color == Black && Edge(s1.heap, x, c) && (x != o || v != Some(c))
      ensures NonWhite(s1.heap, c)
    {
      assert KindColor(s.heap[x]);
      assert Edge(s.heap, x, c);
    }
  }

  /** A recolouring that keeps who is dead keeps the liveness half of the invariant. */
  lemma RecolorAlive(s: State, s': State)
    requires AliveClosed(s) && RootsAlive(s) && SameShape(s.heap, s'.heap) && SameRoots(s, s')
    requires forall o :: Alive(s, o) <==> Alive(s', o)
    ensures AliveClosed(s') && RootsAlive(s')
  {
    SameShapeFields(s.heap, s'.heap);
    RootsKept(s, s');
  }

  lemma BackBarrierMarks(s: State, t: Id)
    requires Closed(s.heap) && KindColors(s.heap) && NoDead(s) && GrayLists(s) && NoBlackToWhiteBut(s.heap, t)
    requires t in s.heap && s.heap[t].kind.Table? && s.heap[t].color == Black
    ensures MarkInv(BarrierBack(s, t))
  {
    var r := BarrierBack(s, t);
    SameShapeFields(s.heap, r.heap);
    assert t !in s.gray + s.grayagain;
    DistinctMoved(s.gray, s.grayagain, t);
    assert forall x :: x in r.gray + r.grayagain <==> x == t || x in s.gray + s.grayagain;
    forall x | x in r.heap ensures KindColor(r.heap[x]) { assert KindColor(s.heap[x]); }
  }

  lemma ForwardBarrierMarks(s: State, o: Id, v: Id)
    requires Closed(s.heap) && KindColors(s.heap) && NoDead(s) && GrayLists(s) && NoBlackToWhiteBut(s.heap, o)
    requires o in s.heap && s.heap[o].color == Black && IsWhite(s.heap, v) && s.phase.Propagate?
    requires forall c :: Edge(s.heap, o, c) && c != v ==> NonWhite(s.heap, c)
    ensures var r := BarrierForward(s, o, v);
      MarkInv(r) && SameShape(s.heap, r.heap) && r == s.(heap := r.heap, gray := r.gray)
      && forall x :: NonWhite(s.heap, x) ==> NonWhite(r.heap, x)
  {
    var pushed := ReallyMarkMarks(s, v);
    var r := ReallyMark(s, v);
    MarksShape(s, r, pushed);
    ForwardBarrier(s, o, r, pushed);
  }

  predicate Storable(s: State, o: Id, i: nat, v: Option<Id>)
  {
    && o in s.heap && i <= |s.heap[o].slots| && !s.heap[o].kind.String? && s.heap[o].home.None?
    && (v.Some? ==> Alive(s, v.value))
  }

  /** The invariant, but for the edge from `o` to `v`: while marking, `o` may be black and `v` white. */
  ghost predicate InvBut(s: State, o: Id, v: Id)
  {
    && Shape(s) && KindColors(s.heap) && AliveClosed(s) && RootsAlive(s)
    && if s.phase.Propagate? then MarkInvBut(s, o, v) else PhaseInv(s)
  }

  ghost predicate MarkInvBut(s: State, o: Id, v: Id)
  {
    && NonWhite(s.heap, s.mainthread) && NonWhite(s.heap, s.registry)
    && Closed(s.heap) && NoDead(s) && GrayLists(s) && NoBlackToWhiteBut(s.heap, o)
    && forall c :: Edge(s.heap, o, c) && c != v ==> NonWhite(s.heap, c)
  }

  /** A raw store breaks the invariant at most at the edge it makes, and only where the barrier is called. */
  lemma StoreBreaks(s: State, o: Id, i: nat, v: Option<Id>)
    requires Inv(s) && Storable(s, o, i, v)
    ensures var s1 := s.(heap := Store(s.heap, o, i, v));
      if NeedsBarrier(s1, o, v) then InvBut(s1, o, v.value) else Inv(s1)
  {
    hide Shape, KindColors, AliveClosed, GrayLists, NoBlackToWhite, Closed;
    StoreShape(s, o, i, v);
    StoreAlive(s, o, i, v);
    if s.phase.Propagate? {
      StoreMarking(s, o, i, v);
    } else {
      StoreSwept(s, o, i, v);
    }
  }

  /** luaC_barrierback restores it. */
  lemma BackKeepsInv(s: State, t: Id, v: Id)
    requires InvBut(s, t, v) && t in s.heap && s.heap[t].kind.Table? && s.heap[t].color == Black
    ensures Inv(BarrierBack(s, t)) && SameShape(s.heap, BarrierBack(s, t).heap)
    ensures SameRoots(s, BarrierBack(s, t))
  {
    hide Shape, KindColors, AliveClosed, GrayLists, NoBlackToWhite, Closed, RootsAlive;
    var r := BarrierBack(s, t);
    ShapeFacts(s);
    ShapeKept(s, r);
    assert forall x :: Alive(s, x) <==> Alive(r, x);
    RecolorAlive(s, r);
    if s.phase.Propagate? { BackBarrierMarks(s, t); } else { BarrierSwept(s, t, r); }
  }

  /** luaC_barrierf restores it. */
  lemma ForwardKeepsInv(s: State, o: Id, v: Id)
    requires InvBut(s, o, v) && o in s.heap && s.heap[o].color == Black && IsWhite(s.heap, v)
    ensures Inv(BarrierForward(s, o, v)) && SameShape(s.heap, BarrierForward(s, o, v).heap)
    ensures SameRoots(s, BarrierForward(s, o, v))
  {
    hide Shape, KindColors, AliveClosed, GrayLists, NoBlackToWhite, Closed, RootsAlive, ReallyMark;
    var r := BarrierForward(s, o, v);
    ShapeFacts(s);
    if s.phase.Propagate? { ForwardBarrierMarks(s, o, v); } else { BarrierSwept(s, o, r); }
    ShapeKept(s, r);
    assert forall x :: Alive(s, x) <==> Alive(r, x);
    RecolorAlive(s, r);
  }

  lemma BarrierSwept(s: State, o: Id, r: State)
    requires PhaseInv(s) && KindColors(s.heap) && !s.phase.Propagate? && o in s.heap && s.heap[o].color == Black
    requires r == s.(heap := r.heap, grayagain := r.grayagain)
    requires (s.heap[o].kind.Table? && r.heap == Recolor(s.heap, o, Gray))
      || r.heap == Recolor(s.heap, o, White(s.white))
    ensures PhaseInv(r) && KindColors(r.heap)
  {
    assert forall x :: CurrentWhite(s, x) ==> CurrentWhite(r, x);
    assert forall x :: IsOpen(r.heap, x) ==> IsOpen(s.heap, x) && r.heap[x].home == s.heap[x].home;
    forall x | x in r.heap ensures KindColor(r.heap[x]) { assert KindColor(s.heap[x]); }
  }

  /** Every guarded store keeps the invariant, in every phase. */
  lemma SetSlotKeepsInv(s: State, o: Id, i: nat, v: Option<Id>)
    requires Inv(s) && Storable(s, o, i, v)
    ensures Inv(SetSlot(s, o, i, v)) && SameKinds(s.heap, SetSlot(s, o, i, v).heap)
    ensures Stored(s, o, i, v, SetSlot(s, o, i, v))
  {
    hide Inv, InvBut, ReallyMark;
    var s1 := s.(heap := Store(s.heap, o, i, v));
    StoreBreaks(s, o, i, v);
    if NeedsBarrier(s1, o, v) {
      if s.heap[o].kind.Table? { BackKeepsInv(s1, o, v.value); } else { ForwardKeepsInv(s1, o, v.value); }
    }
    StoredBy(s, o, i, v, SetSlot(s, o, i, v));
  }

  /** What a store does: slot `i` of `o` holds `v`, and every other slot of every object what it held. */
  ghost predicate Stored(s: State, o: Id, i: nat, v: Option<Id>, r: State)
  {
    && r.heap.Keys == s.heap.Keys && o in s.heap && SameRoots(s, r)
    && |r.heap[o].slots| == (if i < |s.heap[o].slots| then |s.heap[o].slots| else i + 1)
    && i < |r.heap[o].slots| && r.heap[o].slots[i] == v
    && (forall j :: 0 <= j < |s.heap[o].slots| && j != i ==> r.heap[o].slots[j] == s.heap[o].slots[j])
    && (forall x :: x in s.heap && x != o ==> r.heap[x].slots == s.heap[x].slots)
    && (forall x :: x in s.heap ==> r.heap[x].home == s.heap[x].home && r.heap[x].openupval == s.heap[x].openupval)
  }

  lemma StoredBy(s: State, o: Id, i: nat, v: Option<Id>, r: State)
    requires o in s.heap && i <= |s.heap[o].slots| && SameShape(Store(s.heap, o, i, v), r.heap) && SameRoots(s, r)
    ensures Stored(s, o, i, v, r)
  {
  }
}

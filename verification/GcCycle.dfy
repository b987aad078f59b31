/** The mark half of a collection cycle keeps the invariant. */
module GcCycle {
  import opened Base
  import opened GcHeap
  import opened GcMark
  import opened GcInvariant

  /** atomic: mark to the end, then flip the current white and start the sweep. */
  function Atomic(s: State): State
  {
    MarkAtomically(s).(white := !s.white, sweepstrgc := 0, sweepgc := 0, phase := SweepString)
  }

  lemma NoDeadAlive(s: State)
    requires Closed(s.heap) && NoDead(s)
    ensures AliveClosed(s)
  {
  }

  lemma MarkInvFrame(s: State, s': State)
    requires MarkInv(s) && s'.heap == s.heap && s'.white == s.white && s'.gray == s.gray && s'.grayagain == s.grayagain
    ensures MarkInv(s')
  {
  }

  /** With everything white and the gray lists empty the mark invariant holds. */
  lemma AllWhiteMarkInv(s: State)
    requires AliveClosed(s) && KindColors(s.heap) && forall o :: o in s.heap ==> CurrentWhite(s, o)
    requires s.gray == [] && s.grayagain == []
    ensures MarkInv(s)
  {
    forall o, c | Edge(s.heap, o, c) ensures c in s.heap { assert CurrentWhite(s, o) && Alive(s, o); }
    assert s.gray + s.grayagain == [];
  }

  lemma RootValuesAlive(s: State)
    requires AliveClosed(s) && RootsAlive(s) && KindColors(s.heap) && Kinds(s)
    ensures forall c :: Some(c) in RootValues(s) ==> Alive(s, c) && (IsRoot(s, c) || Edge(s.heap, s.mainthread, c))
  {
    forall c | Some(c) in RootValues(s) ensures Alive(s, c) && (IsRoot(s, c) || Edge(s.heap, s.mainthread, c)) {
      assert IsRoot(s, s.mainthread);
      if !IsRoot(s, c) { assert s.heap[s.mainthread].slots[0] == Some(c); }
    }
  }

  lemma MarkRootKeepsInv(s: State)
    requires Inv(s) && (s.phase.Pause? || s.phase.Finalize?)
    ensures Inv(MarkRoot(s)) && MarkRoot(s).heap.Keys == s.heap.Keys
  {
    hide RootList, StringTable, Upvals, KindColors, NoBlackToWhite, GrayLists, UpvalsDone, AgainDone;
    ShapeFacts(s);
    var s0 := s.(gray := [], grayagain := []);
    assert AliveClosed(s0) by {
      forall o, c | Alive(s0, o) && Edge(s0.heap, o, c) ensures Alive(s0, c) { assert Alive(s, o); }
    }
    AllWhiteMarkInv(s0);
    var vs := RootValues(s);
    RootValuesAlive(s);
    assert vs[0] == Some(s.mainthread) && vs[2] == Some(s.registry);
    MarkFieldsKeepsInv(s0, vs);
    var r := MarkRoot(s);
    ShapeKept(s, r);
    NoDeadAlive(r);
    RootsKept(s, r);
    MarkInvFrame(MarkFields(s0, vs), r);
  }

  lemma PropagateKeepsInv(s: State)
    requires Inv(s) && s.phase.Propagate? && s.gray != []
    ensures NonWhite(s.heap, s.gray[0]) && Inv(PropagateMark(s)) && PropagateMark(s).heap.Keys == s.heap.Keys
  {
    hide Shape, AliveClosed, KindColors, NoBlackToWhite, GrayLists, UpvalsDone, AgainDone;
    ShapeFacts(s);
    PropagateMarkKeepsInv(s);
    PropagateMarkProgress(s);
    var r := PropagateMark(s);
    ShapeKept(s, r);
    NoDeadAlive(r);
    RootsKept(s, r);
  }

  /** After atomic, what is marked survives and nothing marked refers to the doomed. */
  lemma AtomicKeepsInv(s: State)
    requires Inv(s) && s.phase.Propagate?
    ensures Inv(Atomic(s)) && Atomic(s).heap.Keys == s.heap.Keys
  {
    hide Shape, KindColors, MarkInv;
    ShapeFacts(s);
    MarkAtomicallyComplete(s);
    var m := MarkAtomically(s);
    var r := Atomic(s);
    ShapeKept(s, r);
    SameShapeFields(s.heap, r.heap);
    assert forall o :: Alive(r, o) <==> NonWhite(m.heap, o) by { assert NoDead(m); }
    assert AliveClosed(r) by {
      forall o, c | Alive(r, o) && Edge(r.heap, o, c) ensures Alive(r, c) { assert NonWhite(m.heap, o); }
    }
    forall o | IsRoot(r, o) ensures Alive(r, o) { assert IsRoot(s, o); }
  }
}

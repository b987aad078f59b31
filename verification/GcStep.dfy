/** The collector as a state machine: one step of it, from any state. */
module GcStep {
  import opened Base
  import opened GcHeap
  import opened GcMark
  import opened GcInvariant
  import opened GcCycle
  import opened GcUpval
  import opened GcSweep
  import opened GcStrings
  import opened GcAlloc

  const GCSWEEPMAX: nat := 40

  /** checkSizes, as far as the string table goes. */
  function CheckSizes(s: State): State
  {
    if CountStrings(s.strt) < |s.strt| / 4 && |s.strt| > MINSTRTABSIZE * 2
    then ResizeStrings(s, |s.strt| / 2) else s
  }

  /** singlestep. */
  ghost function SingleStep(s: State): State
    requires Inv(s)
  {
    match s.phase
    case Pause => MarkRoot(s)
    case Propagate => if s.gray != [] then PropagateKeepsInv(s); PropagateMark(s) else Atomic(s)
    case SweepString => SweepBucket(s)
    case Sweep =>
      var s1 := SweepRoot(s, GCSWEEPMAX);
      if s1.sweepgc >= |s1.rootgc| then CheckSizes(s1).(phase := Finalize) else s1
    case Finalize => s.(phase := Pause)
  }

  lemma {:induction false} SweepRootKeepsInv(s: State, count: nat)
    requires Inv(s) && s.phase.Sweep?
    ensures Inv(SweepRoot(s, count)) && Frees(s, SweepRoot(s, count)) && SweepRoot(s, count).phase.Sweep?
    decreases count
  {
    hide Inv, Frees;
    if count == 0 || s.sweepgc >= |s.rootgc| {
      FreesRefl(s);
    } else {
      SweepCurrKeepsInv(s);
      SweepRootKeepsInv(SweepCurr(s), count - 1);
      FreesTrans(s, SweepCurr(s), SweepRoot(s, count));
    }
  }

  lemma FreesRefl(s: State)
    ensures Frees(s, s)
  {
  }

  /** When the sweep has passed everything, everything is white for the next cycle. */
  lemma SweepDone(s: State)
    requires Shape(s) && PhaseInv(s) && s.phase.Sweep? && s.sweepgc >= |s.rootgc|
    ensures forall o :: o in s.heap ==> CurrentWhite(s, o)
  {
    hide StringTable, Upvals;
    UpvalHomes(s.heap, s.uvhead);
    StringInBucket(s);
    assert s.rootgc[..s.sweepgc] == s.rootgc;
    forall o | o in s.heap ensures CurrentWhite(s, o) {
      if s.heap[o].home.Some? {
        assert IsOpen(s.heap, o);
        var t := s.heap[o].home.value.thread;
        assert !IsOpen(s.heap, t) && t in s.rootgc;
      } else if s.heap[o].kind.String? {
      } else {
        assert o in s.rootgc;
      }
    }
  }

  lemma StringInBucket(s: State)
    requires StringTable(s.heap, s.strt) && StringsSwept(s, |s.strt|)
    ensures forall o :: o in s.heap && s.heap[o].kind.String? ==> CurrentWhite(s, o)
  {
    forall o | o in s.heap && s.heap[o].kind.String? ensures CurrentWhite(s, o) {
      assert o in s.strt[Bucket(s.heap[o].bytes, |s.strt|)];
    }
  }

  lemma SweepEndKeepsInv(s: State)
    requires Inv(s) && s.phase.Sweep? && s.sweepgc >= |s.rootgc|
    ensures var r := CheckSizes(s).(phase := Finalize); Inv(r) && Frees(s, r) && r.heap == s.heap
  {
    hide Shape, KindColors, AliveClosed, PhaseInv;
    var s1 := CheckSizes(s);
    if s1 != s { ResizeKeepsInv(s, |s.strt| / 2); }
    SweepDone(s1);
    EndPhase(s1, Finalize);
  }

  lemma EndPhase(s: State, p: Phase)
    requires Inv(s) && (p.Finalize? || p.Pause?) && forall o :: o in s.heap ==> CurrentWhite(s, o)
    ensures Inv(s.(phase := p))
  {
    hide StringTable, Upvals, KindColors, MarkInv;
    var r := s.(phase := p);
    RootsKept(s, r);
    forall o, c | Alive(r, o) && Edge(r.heap, o, c) ensures Alive(r, c) { assert Alive(s, o); }
    forall o | o in r.heap ensures CurrentWhite(r, o) { assert CurrentWhite(s, o); }
  }

  /** Every object that is not dead or is fixed is still there, with its contents, and
      nothing else came. */
  ghost predicate Survives(s: State, s': State)
  {
    && SameRoots(s, s')
    && (forall o :: Alive(s, o) || (o in s.heap && s.heap[o].fixed) ==> SameContents(s.heap, s'.heap, o))
    && (forall o :: o in s'.heap ==> o in s.heap && s'.heap[o].fixed == s.heap[o].fixed)
  }

  lemma FreesSurvives(s: State, s': State)
    requires Frees(s, s')
    ensures Survives(s, s')
  {
  }

  lemma SameShapeSurvives(s: State, s': State)
    requires SameShape(s.heap, s'.heap) && SameRoots(s, s')
    ensures Survives(s, s')
  {
    SameShapeFields(s.heap, s'.heap);
  }

  /** Every collector step keeps the invariant, and frees nothing that is not dead. */
  lemma SingleStepKeepsInv(s: State)
    requires Inv(s)
    ensures Inv(SingleStep(s)) && Survives(s, SingleStep(s))
    ensures s.phase.SweepString? || s.phase.Sweep? ==> Frees(s, SingleStep(s))
  {
    hide Shape, KindColors, AliveClosed, RootsAlive, PhaseInv, Frees, Survives;
    var r := SingleStep(s);
    match s.phase
    case Pause => MarkRootKeepsInv(s); MarkRootShape(s); SameShapeSurvives(s, r);
    case Propagate =>
      if s.gray != [] {
        PropagateKeepsInv(s);
        PropagateShape(s);
      } else {
        AtomicKeepsInv(s);
        AtomicShape(s);
      }
      SameShapeSurvives(s, r);
    case SweepString => SweepBucketKeepsInv(s); FreesSurvives(s, r);
    case Sweep =>
      SweepRootKeepsInv(s, GCSWEEPMAX);
      var s1 := SweepRoot(s, GCSWEEPMAX);
      if s1.sweepgc >= |s1.rootgc| { SweepEndKeepsInv(s1); FreesTrans(s, s1, r); }
      FreesSurvives(s, r);
    case Finalize => AllWhite(s); EndPhase(s, Pause); SameShapeSurvives(s, r);
  }

  lemma AllWhite(s: State)
    requires Inv(s) && (s.phase.Finalize? || s.phase.Pause?)
    ensures forall o :: o in s.heap ==> CurrentWhite(s, o)
  {
  }

  lemma MarkRootShape(s: State)
    requires Inv(s) && (s.phase.Pause? || s.phase.Finalize?)
    ensures SameShape(s.heap, MarkRoot(s).heap) && SameRoots(s, MarkRoot(s))
  {
    hide RootList, StringTable, Upvals, KindColors, GrayLists, NoBlackToWhite;
    var s0 := s.(gray := [], grayagain := []);
    forall o, c | Alive(s0, o) && Edge(s0.heap, o, c) ensures Alive(s0, c) { assert Alive(s, o); }
    AllWhiteMarkInv(s0);
    RootValuesAlive(s);
    MarkFieldsKeepsInv(s0, RootValues(s));
  }

  lemma PropagateShape(s: State)
    requires Inv(s) && s.phase.Propagate? && s.gray != [] && NonWhite(s.heap, s.gray[0])
    ensures SameShape(s.heap, PropagateMark(s).heap) && SameRoots(s, PropagateMark(s))
  {
    hide Shape, KindColors, AliveClosed, GrayLists, NoBlackToWhite, UpvalsDone, AgainDone;
    PropagateMarkProgress(s);
  }

  lemma AtomicShape(s: State)
    requires Inv(s) && s.phase.Propagate?
    ensures SameShape(s.heap, Atomic(s).heap) && SameRoots(s, Atomic(s))
  {
    hide Shape, KindColors, AliveClosed, MarkInv;
    ShapeFacts(s);
    MarkAtomicallyComplete(s);
  }

  lemma PathSurvives(s: State, r: State, p: seq<Id>)
    requires AliveClosed(s) && RootsAlive(s) && Survives(s, r) && IsPath(s, p)
    ensures IsPath(r, p)
  {
    forall i | 0 < i < |p| ensures Edge(r.heap, p[i - 1], p[i]) {
      var q := p[..i];
      assert IsPath(s, q) by {
        forall k | 0 < k < |q| ensures Edge(s.heap, q[k - 1], q[k]) { assert q[k - 1] == p[k - 1] && q[k] == p[k]; }
      }
      PathAlive(s, q);
      assert SameContents(s.heap, r.heap, p[i - 1]);
    }
  }
}

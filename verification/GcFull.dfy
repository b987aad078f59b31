/** luaC_fullgc: a whole collection at once, from any state, keeps exactly what is reachable
    or fixed. */
module GcFull {
  import opened Base
  import opened GcHeap
  import opened GcMark
  import opened GcInvariant
  import opened GcCycle
  import opened GcUpval
  import opened GcSweep
  import opened GcStrings
  import opened GcStep

  /** Marking is sound: only what a root reaches is marked. */
  ghost predicate MarkedReachable(s: State) { forall o :: NonWhite(s.heap, o) ==> Reachable(s, o) }

  lemma ReachableEdge(s: State, o: Id, c: Id)
    requires Reachable(s, o) && Edge(s.heap, o, c)
    ensures Reachable(s, c)
  {
    var p :| IsPath(s, p) && p[|p| - 1] == o;
    var q := p + [c];
    assert IsPath(s, q) by {
      forall i | 0 < i < |q| ensures Edge(s.heap, q[i - 1], q[i]) {
        if i < |p| { assert q[i - 1] == p[i - 1] && q[i] == p[i]; }
      }
    }
    assert q[|q| - 1] == c;
  }

  lemma ReachableRoot(s: State, o: Id)
    requires IsRoot(s, o)
    ensures Reachable(s, o)
  {
    assert IsPath(s, [o]) && [o][|[o]| - 1] == o;
  }

  /** Reachability only looks at edges and roots. */
  lemma ReachableSame(s: State, s': State)
    requires SameRoots(s, s') && forall o, c :: Edge(s'.heap, o, c) <==> Edge(s.heap, o, c)
    ensures forall o :: Reachable(s', o) <==> Reachable(s, o)
  {
    forall p ensures IsPath(s', p) <==> IsPath(s, p) {
      assert forall o :: IsRoot(s', o) <==> IsRoot(s, o);
    }
  }

  /** Painting a reachable object. */
  lemma PaintSound(s: State, o: Id, c: Color)
    requires Closed(s.heap) && MarkedReachable(s) && o in s.heap && Reachable(s, o)
    ensures var p := s.(heap := Recolor(s.heap, o, c));
      && Closed(p.heap) && MarkedReachable(p) && Fields(p.heap, o) == Fields(s.heap, o)
      && forall x :: Some(x) in Fields(s.heap, o) ==> x in p.heap && Reachable(p, x)
  {
    hide Reachable;
    var p := s.(heap := Recolor(s.heap, o, c));
    SameShapeFields(s.heap, p.heap);
    ReachableSame(s, p);
    forall x | Some(x) in Fields(s.heap, o) ensures x in p.heap && Reachable(p, x) {
      assert Edge(s.heap, o, x);
      ReachableEdge(s, o, x);
    }
  }

  lemma ReallyMarkSound(s: State, o: Id)
    requires IsWhite(s.heap, o) && Closed(s.heap) && MarkedReachable(s) && Reachable(s, o)
    ensures MarkedReachable(ReallyMark(s, o))
    decreases Whites(s.heap), 0
  {
    hide Reachable, Closed;
    var g := s.(heap := Recolor(s.heap, o, Gray));
    assert o in Whites(s.heap) && o !in Whites(g.heap) && Whites(g.heap) <= Whites(s.heap);
    PaintSound(s, o, Gray);
    match s.heap[o].kind
    case String =>
    case Userdata =>
      var b := s.(heap := Recolor(s.heap, o, Black));
      assert Recolor(g.heap, o, Black) == b.heap && Whites(b.heap) == Whites(g.heap);
      PaintSound(s, o, Black);
      MarkFieldsSound(b, Fields(s.heap, o));
    case Upval => UpvalSound(s, o);
    case _ => ReachableSame(g, g.(gray := [o] + g.gray));
  }

  lemma UpvalSound(s: State, o: Id)
    requires IsWhite(s.heap, o) && Closed(s.heap) && MarkedReachable(s) && Reachable(s, o) && s.heap[o].kind.Upval?
    ensures MarkedReachable(ReallyMark(s, o))
    decreases Whites(s.heap), 0, 0
  {
    hide Reachable, Closed;
    var g := s.(heap := Recolor(s.heap, o, Gray));
    assert o in Whites(s.heap) && o !in Whites(g.heap) && Whites(g.heap) <= Whites(s.heap);
    PaintSound(s, o, Gray);
    var fs := Fields(s.heap, o);
    MarkFieldsSound(g, fs);
    var m := MarkFields(g, fs);
    var pushed := MarkFieldsMarks(g, fs);
    MarksShape(g, m, pushed);
    ClosedSame(g.heap, m.heap);
    if m.heap[o].home.None? { PaintSound(m, o, Black); }
  }

  lemma ClosedSame(h: Heap, h': Heap)
    requires Closed(h) && h'.Keys == h.Keys && forall o, c :: Edge(h', o, c) <==> Edge(h, o, c)
    ensures Closed(h')
  {
  }

  lemma MarkFieldsSound(s: State, vs: seq<Option<Id>>)
    requires Closed(s.heap) && MarkedReachable(s) && forall c :: Some(c) in vs ==> c in s.heap && Reachable(s, c)
    ensures MarkedReachable(MarkFields(s, vs))
    decreases Whites(s.heap), 1 + |vs|
  {
    if vs != [] {
      var s1 := s;
      if vs[0].Some? && IsWhite(s.heap, vs[0].value) {
        s1 := ReallyMark(s, vs[0].value);
        assert Some(vs[0].value) in vs;
        ReallyMarkSound(s, vs[0].value);
        var pushed := ReallyMarkMarks(s, vs[0].value);
        MarksShape(s, s1, pushed);
        ReachableSame(s, s1);
      }
      forall c | Some(c) in vs[1..] ensures c in s1.heap && Reachable(s1, c) { assert Some(c) in vs; }
      MarkFieldsSound(s1, vs[1..]);
    }
  }

  lemma SoundFrame(s: State, r: State)
    requires MarkedReachable(s) && SameShape(s.heap, r.heap) && SameRoots(s, r)
    requires forall o :: NonWhite(r.heap, o) ==> NonWhite(s.heap, o)
    ensures MarkedReachable(r)
  {
    hide Reachable;
    SameShapeFields(s.heap, r.heap);
    ReachableSame(s, r);
  }

  lemma PropagateMarkSound(s: State)
    requires MarkInv(s) && s.gray != [] && MarkedReachable(s)
    ensures NonWhite(s.heap, s.gray[0]) && MarkedReachable(PropagateMark(s))
  {
    hide Reachable, NoBlackToWhite;
    var o := s.gray[0];
    assert o in s.gray + s.grayagain;
    assert ListKind(s.heap[o].kind) && KindColor(s.heap[o]);
    var s1 := if s.heap[o].kind.Thread? then s.(gray := s.gray[1..], grayagain := [o] + s.grayagain)
              else s.(gray := s.gray[1..], heap := Recolor(s.heap, o, Black));
    SameShapeFields(s.heap, s1.heap);
    SoundFrame(s, s1);
    ClosedSame(s.heap, s1.heap);
    forall c | Some(c) in s.heap[o].slots ensures c in s1.heap && Reachable(s1, c) {
      assert Edge(s1.heap, o, c);
      ReachableEdge(s1, o, c);
    }
    MarkFieldsSound(s1, s.heap[o].slots);
  }

  lemma PropagateAllSound(s: State)
    requires MarkInv(s) && MarkedReachable(s)
    ensures MarkedReachable(PropagateAll(s))
    decreases Whites(s.heap), |s.gray|
  {
    hide MarkedReachable;
    if s.gray != [] {
      PropagateMarkSound(s);
      PropagateMarkKeepsInv(s);
      PropagateAllSound(PropagateMark(s));
    }
  }

  lemma MarkFieldsSoundInv(s: State, vs: seq<Option<Id>>)
    requires MarkInv(s) && MarkedReachable(s) && forall c :: Some(c) in vs ==> c in s.heap && Reachable(s, c)
    ensures MarkInv(MarkFields(s, vs)) && MarkedReachable(MarkFields(s, vs)) && Progress(s, MarkFields(s, vs))
  {
    hide Reachable, MarkedReachable, Progress;
    MarkFieldsSound(s, vs);
    MarkFieldsKeepsInv(s, vs);
  }

  lemma RemarkUpvalsSound(s: State, uvs: seq<Id>)
    requires MarkInv(s) && MarkedReachable(s)
    ensures MarkInv(RemarkUpvals(s, uvs)) && MarkedReachable(RemarkUpvals(s, uvs)) && Progress(s, RemarkUpvals(s, uvs))
    decreases |uvs|
  {
    hide Reachable, GrayLists, NoBlackToWhite, KindColors, Progress;
    if uvs == [] {
      ProgressRefl(s);
    } else {
      var s1 := s;
      if uvs[0] in s.heap && s.heap[uvs[0]].color == Gray {
        var fs := Fields(s.heap, uvs[0]);
        forall c | Some(c) in fs ensures c in s.heap && Reachable(s, c) {
          assert Edge(s.heap, uvs[0], c) && NonWhite(s.heap, uvs[0]);
          ReachableEdge(s, uvs[0], c);
        }
        MarkFieldsSoundInv(s, fs);
        s1 := MarkFields(s, fs);
      } else {
        ProgressRefl(s);
      }
      RemarkUpvalsSound(s1, uvs[1..]);
      ProgressTrans(s, s1, RemarkUpvals(s, uvs));
    }
  }

  lemma ProgressRefl(s: State)
    ensures Progress(s, s)
  {
  }

  /** atomic marks only what is reachable. */
  lemma MarkAtomicallySound(s: State)
    requires MarkInv(s) && MarkedReachable(s) && forall o :: IsRoot(s, o) ==> o in s.heap
    ensures MarkedReachable(MarkAtomically(s))
  {
    hide Reachable, MarkedReachable, GrayLists, NoBlackToWhite, KindColors, NoDead, Closed, UpvalsDone, AgainDone;
    RemarkUpvalsSound(s, s.uvhead);
    var s0 := RemarkUpvals(s, s.uvhead);
    PropagateAllKeepsInv(s0);
    PropagateAllSound(s0);
    var s1 := PropagateAll(s0);
    var vs := [Some(s.running)] + s.mt;
    forall c | Some(c) in vs ensures c in s1.heap && Reachable(s1, c) {
      assert IsRoot(s, c) && IsRoot(s1, c);
      ReachableRoot(s1, c);
    }
    MarkFieldsSoundInv(s1, vs);
    var s2 := MarkFields(s1, vs);
    PropagateAllKeepsInv(s2);
    PropagateAllSound(s2);
    AgainSound(PropagateAll(s2));
  }

  lemma AgainSound(s: State)
    requires MarkInv(s) && s.gray == [] && MarkedReachable(s)
    ensures MarkedReachable(PropagateAll(s.(gray := s.grayagain, grayagain := [])))
  {
    hide Reachable, NoBlackToWhite, KindColors;
    var r := s.(gray := s.grayagain, grayagain := []);
    TraverseAgain(s);
    SoundFrame(s, r);
    PropagateAllSound(r);
  }

  lemma MarkRootSound(s: State)
    requires Inv(s) && (s.phase.Pause? || s.phase.Finalize?)
    ensures MarkedReachable(MarkRoot(s))
  {
    hide RootList, StringTable, Upvals, Reachable, KindColors;
    var s0 := s.(gray := [], grayagain := []);
    assert forall o :: o in s.heap ==> CurrentWhite(s, o);
    assert Closed(s0.heap) by {
      forall o, c | Edge(s0.heap, o, c) ensures c in s0.heap { assert CurrentWhite(s, o) && Alive(s, o); }
    }
    var vs := RootValues(s);
    RootValuesAlive(s);
    forall c | Some(c) in vs ensures c in s0.heap && Reachable(s0, c) {
      if IsRoot(s, c) {
        assert IsRoot(s0, c);
        ReachableRoot(s0, c);
      } else {
        ReachableRoot(s0, s.mainthread);
        ReachableEdge(s0, s.mainthread, c);
      }
    }
    MarkFieldsSound(s0, vs);
    var m := MarkFields(s0, vs);
    ReachableSame(m, MarkRoot(s));
  }

  /** The threads the sweep of `rootgc` still has to meet. */
  function ThreadsLeft(s: State): set<Id>
  {
    if s.sweepgc > |s.rootgc| then {} else
    set o | o in s.rootgc[s.sweepgc..] && o in s.heap && s.heap[o].kind.Thread?
  }

  lemma CloseOneLeft(s: State, th: Id)
    requires Inv(s) && s.phase.Sweep? && th in s.heap && s.heap[th].kind.Thread? && s.heap[th].openupval != []
    ensures OpenOn(s.heap, s.heap[th].openupval[0], th)
    ensures ThreadsLeft(CloseOne(s, th)) <= ThreadsLeft(s)
  {
    hide Shape, KindColors, AliveClosed, PhaseInv, MarkFields;
    CloseOneKeepsInv(s, th);
    ShapeFacts(s);
    var uv := s.heap[th].openupval[0];
    var r := CloseOne(s, th);
    if s.sweepgc > 0 { assert ([uv] + s.rootgc)[s.sweepgc + 1..] == s.rootgc[s.sweepgc..]; }
    LeftLess(s, r, uv);
  }

  lemma LeftLess(s: State, r: State, uv: Id)
    requires s.sweepgc <= |s.rootgc| && r.sweepgc <= |r.rootgc| && uv in s.heap && !s.heap[uv].kind.Thread?
    requires r.rootgc[r.sweepgc..] == s.rootgc[s.sweepgc..] || r.rootgc[r.sweepgc..] == [uv] + s.rootgc[s.sweepgc..]
    requires forall o :: o in r.heap ==> o in s.heap && r.heap[o].kind == s.heap[o].kind
    ensures ThreadsLeft(r) <= ThreadsLeft(s)
  {
    forall o | o in ThreadsLeft(r) ensures o in ThreadsLeft(s) {
      assert o in [uv] + s.rootgc[s.sweepgc..] && o != uv;
    }
  }

  lemma {:induction false} CloseLeft(s: State, th: Id)
    requires Inv(s) && s.phase.Sweep? && th in s.heap && s.heap[th].kind.Thread?
    ensures ThreadsLeft(Close(s, th, 0)) <= ThreadsLeft(s)
    decreases |s.heap[th].openupval|
  {
    hide Inv, ThreadsLeft;
    if s.heap[th].openupval != [] && PosOf(s.heap, s.heap[th].openupval[0]) >= 0 {
      CloseOneKeepsInv(s, th);
      CloseOneLeft(s, th);
      CloseLeft(CloseOne(s, th), th);
    }
  }

  /** The work left in the phase: a set of objects, then a number. */
  function WorkSet(s: State): set<Id>
  {
    if s.phase.Propagate? then Whites(s.heap) else if s.phase.Sweep? then ThreadsLeft(s) else {}
  }

  function WorkSize(s: State): int
  {
    match s.phase
    case Propagate => |s.gray|
    case SweepString => |s.strt| - s.sweepstrgc
    case Sweep => |s.rootgc| - s.sweepgc
    case _ => 0
  }

  ghost predicate LessWork(s: State, r: State)
  {
    WorkSet(r) < WorkSet(s) || (WorkSet(r) == WorkSet(s) && 0 <= WorkSize(r) < WorkSize(s))
  }

  lemma SweepCurrLeft(s: State)
    requires Inv(s) && s.phase.Sweep? && s.sweepgc < |s.rootgc|
    ensures s.rootgc[s.sweepgc] in s.heap && SweepCurr(s).phase.Sweep? && LessWork(s, SweepCurr(s))
  {
    hide Shape, KindColors, AliveClosed, PhaseInv, Frees, Close, SweepOpen, ThreadsLeft;
    SweepCurrKeepsInv(s);
    var curr := s.rootgc[s.sweepgc];
    RootListOf(s);
    if s.heap[curr].kind.Thread? { SweepThreadLeft(s, curr); } else { SweepOtherLeft(s, curr); }
  }

  lemma RootListOf(s: State)
    requires Inv(s)
    ensures Distinct(s.rootgc) && s.sweepgc <= |s.rootgc|
  {
  }

  lemma SweepOtherLeft(s: State, curr: Id)
    requires s.sweepgc < |s.rootgc| && s.rootgc[s.sweepgc] == curr
    requires curr in s.heap && !s.heap[curr].kind.Thread?
    ensures ThreadsLeft(SweepCurr(s)) == ThreadsLeft(s)
    ensures var r := SweepCurr(s); |r.rootgc| - r.sweepgc == |s.rootgc| - s.sweepgc - 1
  {
    hide SweepOpen, Close;
    var r := SweepCurr(s);
    var rest := s.rootgc[s.sweepgc + 1..];
    assert s.rootgc[s.sweepgc..] == [curr] + rest;
    assert r.rootgc[r.sweepgc..] == rest;
    assert forall o :: o in r.heap ==> o in s.heap && r.heap[o].kind == s.heap[o].kind;
    assert forall o :: o in s.heap && o != curr ==> o in r.heap;
    LeftSame(s, r, curr, rest);
  }

  lemma LeftSame(s: State, r: State, curr: Id, rest: seq<Id>)
    requires s.sweepgc <= |s.rootgc| && r.sweepgc <= |r.rootgc|
    requires s.rootgc[s.sweepgc..] == [curr] + rest && r.rootgc[r.sweepgc..] == rest
    requires curr in s.heap && !s.heap[curr].kind.Thread?
    requires forall o :: o in r.heap ==> o in s.heap && r.heap[o].kind == s.heap[o].kind
    requires forall o :: o in s.heap && o != curr ==> o in r.heap
    ensures ThreadsLeft(r) == ThreadsLeft(s)
  {
    forall o | o in ThreadsLeft(s) ensures o in ThreadsLeft(r) { assert o in [curr] + rest && o != curr; }
    forall o | o in ThreadsLeft(r) ensures o in ThreadsLeft(s) { assert o in [curr] + rest; }
  }

  lemma SweepThreadLeft(s: State, curr: Id)
    requires Inv(s) && s.phase.Sweep? && s.sweepgc < |s.rootgc| && s.rootgc[s.sweepgc] == curr && Distinct(s.rootgc)
    requires curr in s.heap && s.heap[curr].kind.Thread?
    ensures ThreadsLeft(SweepCurr(s)) < ThreadsLeft(s)
  {
    hide Shape, KindColors, AliveClosed, Frees, Close, SweepOpen, PhaseInv;
    SweepOpenKeepsInv(s, curr);
    SweepOpenFrame(s, curr);
    var s1, r := SweepOpen(s, curr), SweepCurr(s);
    SweepOpenLeft(s, curr);
    assert s.rootgc[s.sweepgc..] == [curr] + s.rootgc[s.sweepgc + 1..];
    assert curr in s.rootgc[s.sweepgc..];
    assert curr in ThreadsLeft(s);
    if !Doomed(s1.heap[curr], s.white) {
      assert curr !in s.rootgc[s.sweepgc + 1..];
    } else {
      FreedThreadLeft(s1, curr, r);
    }
  }

  lemma FreedThreadLeft(s: State, curr: Id, r: State)
    requires Inv(s) && s.phase.Sweep? && s.sweepgc < |s.rootgc| && s.rootgc[s.sweepgc] == curr && Distinct(s.rootgc)
    requires curr in s.heap && s.heap[curr].kind.Thread? && Doomed(s.heap[curr], s.white)
    requires var s3 := Close(s.(rootgc := s.rootgc[..s.sweepgc] + s.rootgc[s.sweepgc + 1..]), curr, 0);
      r == s3.(heap := s3.heap - {curr})
    ensures ThreadsLeft(r) <= ThreadsLeft(s) && curr !in ThreadsLeft(r)
  {
    hide Shape, KindColors, AliveClosed, Frees, Close, PhaseInv;
    var k := CloseKeepsInv(s, curr, 0);
    NoneOpen(s, curr, k);
    CloseLeft(s, curr);
    WithoutAt(s.rootgc, s.sweepgc);
    CloseCommutes(s, curr, s.(rootgc := Without(s.rootgc, {curr})));
    var sc := Close(s, curr, 0);
    ClosedStillLinked(s, sc, curr);
    DroppedLeft(sc, r, curr);
  }

  lemma SweepOpenLeft(s: State, th: Id)
    requires Inv(s) && th in s.heap && s.heap[th].kind.Thread?
    ensures ThreadsLeft(SweepOpen(s, th)) <= ThreadsLeft(s)
  {
    hide StringTable, Upvals, KindColors, AliveClosed, PhaseInv;
    SweepOpenOthers(s, th);
  }

  lemma DroppedLeft(s: State, r: State, o: Id)
    requires Inv(s) && s.phase.Sweep? && IsDead(s, o) && o in s.rootgc
    requires r == s.(heap := s.heap - {o}, rootgc := Without(s.rootgc, {o}))
    ensures ThreadsLeft(r) <= ThreadsLeft(s)
  {
    hide StringTable, Upvals, KindColors, AliveClosed;
    DropSwept(s, r, o);
    var i :| 0 <= i < |s.rootgc| && s.rootgc[i] == o;
    WithoutAt(s.rootgc, i);
    assert o !in s.rootgc[..s.sweepgc];
    assert forall j :: 0 <= j < s.sweepgc ==> s.rootgc[..s.sweepgc][j] == s.rootgc[j];
    assert r.rootgc[r.sweepgc..] == s.rootgc[s.sweepgc..i] + s.rootgc[i + 1..];
    forall x | x in ThreadsLeft(r) ensures x in ThreadsLeft(s) {
      if x in s.rootgc[s.sweepgc..i] { assert x in s.rootgc[s.sweepgc..]; } else { assert x in s.rootgc[i + 1..]; }
    }
  }

  lemma {:induction false} SweepRootLeft(s: State, count: nat)
    requires Inv(s) && s.phase.Sweep?
    ensures SweepRoot(s, count).phase.Sweep?
    ensures count > 0 && s.sweepgc < |s.rootgc| ==> LessWork(s, SweepRoot(s, count))
    ensures SweepRoot(s, count) == s || LessWork(s, SweepRoot(s, count))
    decreases count
  {
    hide Inv, WorkSet;
    if count > 0 && s.sweepgc < |s.rootgc| {
      SweepCurrKeepsInv(s);
      SweepCurrLeft(s);
      SweepRootLeft(SweepCurr(s), count - 1);
    }
  }

  function Rank(p: Phase): nat
  {
    match p
    case Pause => 0
    case Finalize => 1
    case Sweep => 2
    case SweepString => 3
    case Propagate => 4
  }

  /** Outside the pause every step of the collector gets nearer to the pause. */
  lemma StepProgress(s: State)
    requires Inv(s) && !s.phase.Pause?
    ensures var r := SingleStep(s); Rank(r.phase) < Rank(s.phase) || (r.phase == s.phase && LessWork(s, r))
  {
    hide Shape, KindColors, AliveClosed, RootsAlive, Frees;
    match s.phase
    case Propagate =>
      if s.gray != [] {
        PropagateKeepsInv(s);
        PropagateFrame(s);
      }
    case SweepString =>
    case Sweep => SweepRootLeft(s, GCSWEEPMAX);
    case Finalize =>
  }

  lemma PropagateFrame(s: State)
    requires Inv(s) && s.phase.Propagate? && s.gray != [] && NonWhite(s.heap, s.gray[0])
    ensures PropagateMark(s).phase.Propagate?
  {
    hide Shape, KindColors, AliveClosed, GrayLists, NoBlackToWhite, UpvalsDone, AgainDone;
    PropagateMarkProgress(s);
  }

  /** The loops of luaC_fullgc: single steps until the phase is `stop`. */
  ghost function RunUntil(s: State, stop: Phase): (r: State)
    requires Inv(s) && (stop.Pause? || stop.Finalize?)
    ensures Inv(r) && (r.phase == stop || r.phase.Pause?)
    decreases Rank(s.phase), WorkSet(s), WorkSize(s)
  {
    if s.phase == stop || s.phase.Pause? then s
    else
      StepProgress(s);
      SingleStepKeepsInv(s);
      RunUntil(SingleStep(s), stop)
  }

  /** What a collection may do to a heap: the same is reachable, with the same contents; the
      fixed objects stay; nothing else comes. */
  ghost predicate Collects(s: State, r: State)
  {
    && (forall o :: Reachable(r, o) <==> Reachable(s, o))
    && (forall o :: Reachable(s, o) ==> SameContents(s.heap, r.heap, o))
    && (forall o :: o in s.heap && s.heap[o].fixed ==> SameContents(s.heap, r.heap, o))
    && (forall o :: o in r.heap ==> o in s.heap && r.heap[o].fixed == s.heap[o].fixed)
  }

  lemma CollectsTrans(s: State, s1: State, s2: State)
    requires Collects(s, s1) && Collects(s1, s2)
    ensures Collects(s, s2)
  {
    hide Reachable, Fields;
  }

  lemma SurvivesCollects(s: State, r: State)
    requires AliveClosed(s) && RootsAlive(s) && Survives(s, r)
    ensures Collects(s, r)
  {
    hide AliveClosed, RootsAlive;
    forall o | Reachable(s, o) ensures Reachable(r, o) && SameContents(s.heap, r.heap, o) {
      ReachableAlive(s, o);
      var p :| IsPath(s, p) && p[|p| - 1] == o;
      PathSurvives(s, r, p);
    }
    forall o | Reachable(r, o) ensures Reachable(s, o) {
      var p :| IsPath(r, p) && p[|p| - 1] == o;
      PathComesFrom(s, r, p);
    }
  }

  lemma {:induction false} PathComesFrom(s: State, r: State, p: seq<Id>)
    requires AliveClosed(s) && RootsAlive(s) && Survives(s, r) && IsPath(r, p)
    ensures IsPath(s, p) && Alive(s, p[|p| - 1])
  {
    if |p| > 1 {
      var q := p[..|p| - 1];
      assert IsPath(r, q) by {
        forall i | 0 < i < |q| ensures Edge(r.heap, q[i - 1], q[i]) { assert q[i - 1] == p[i - 1] && q[i] == p[i]; }
      }
      PathComesFrom(s, r, q);
      assert Edge(r.heap, p[|p| - 2], p[|p| - 1]);
      assert Edge(s.heap, p[|p| - 2], p[|p| - 1]);
      forall i | 0 < i < |p| ensures Edge(s.heap, p[i - 1], p[i]) {
        if i < |p| - 1 { assert q[i - 1] == p[i - 1] && q[i] == p[i]; }
      }
    } else {
      assert IsRoot(s, p[0]);
    }
  }

  /** While marking, only the reachable is marked; after that, only the reachable and the
      fixed are spared. */
  ghost predicate Exact(s: State)
  {
    if s.phase.Propagate? then MarkedReachable(s)
    else forall o :: Alive(s, o) ==> Reachable(s, o) || s.heap[o].fixed
  }

  lemma StepExact(s: State)
    requires Inv(s) && !s.phase.Pause? && Exact(s)
    ensures Exact(SingleStep(s)) && Collects(s, SingleStep(s))
  {
    hide Shape, KindColors, AliveClosed, RootsAlive, PhaseInv, Reachable, Survives, SingleStep, Collects, Frees;
    var r := SingleStep(s);
    SingleStepKeepsInv(s);
    SurvivesCollects(s, r);
    if s.phase.Propagate? {
      PropagateExact(s);
    } else if s.phase.Finalize? {
      FinalizeExact(s);
    } else {
      SweepPhases(s);
      FreesExact(s, r);
    }
  }

  lemma SweepPhases(s: State)
    requires Inv(s) && (s.phase.SweepString? || s.phase.Sweep?)
    ensures var p := SingleStep(s).phase; p.SweepString? || p.Sweep? || p.Finalize?
  {
    hide Shape, KindColors, AliveClosed, RootsAlive, PhaseInv;
    if s.phase.Sweep? { SweepRootKeepsInv(s, GCSWEEPMAX); }
  }

  lemma FinalizeExact(s: State)
    requires Inv(s) && s.phase.Finalize? && Exact(s)
    ensures Exact(SingleStep(s))
  {
    hide Shape, KindColors, AliveClosed, RootsAlive, PhaseInv, Reachable;
    ReachableSame(s, SingleStep(s));
  }

  lemma FreesExact(s: State, r: State)
    requires Frees(s, r) && Collects(s, r) && !s.phase.Propagate? && !r.phase.Propagate? && Exact(s)
    ensures Exact(r)
  {
    hide Reachable, Fields;
  }

  lemma PropagateExact(s: State)
    requires Inv(s) && s.phase.Propagate? && MarkedReachable(s)
    ensures Exact(SingleStep(s))
  {
    hide Shape, AliveClosed, Reachable, GrayLists, NoBlackToWhite, KindColors, Closed, MarkedReachable;
    if s.gray != [] {
      PropagateKeepsInv(s);
      PropagateMarkSound(s);
      PropagateFrame(s);
    } else {
      forall o | IsRoot(s, o) ensures o in s.heap { assert Alive(s, o); }
      MarkAtomicallySound(s);
      AtomicExact(s);
    }
  }

  lemma AtomicExact(s: State)
    requires Inv(s) && s.phase.Propagate? && MarkedReachable(MarkAtomically(s))
    ensures Exact(Atomic(s))
  {
    hide Shape, AliveClosed, Reachable, MarkInv, KindColors;
    ShapeFacts(s);
    MarkAtomicallyComplete(s);
    var m, r := MarkAtomically(s), Atomic(s);
    ReachableSame(m, r);
    assert forall o :: Alive(r, o) ==> NonWhite(m.heap, o) by { assert NoDead(m); }
  }

  lemma RunExact(s: State)
    requires Inv(s) && Exact(s)
    ensures Exact(RunUntil(s, Pause)) && Collects(s, RunUntil(s, Pause))
    decreases Rank(s.phase), WorkSet(s), WorkSize(s)
  {
    hide Inv, Exact, Collects, WorkSet;
    if s.phase.Pause? {
      CollectsRefl(s);
    } else {
      StepProgress(s);
      SingleStepKeepsInv(s);
      StepExact(s);
      RunExact(SingleStep(s));
      CollectsTrans(s, SingleStep(s), RunUntil(s, Pause));
    }
  }

  lemma CollectsRefl(s: State)
    requires Inv(s)
    ensures Collects(s, s)
  {
    hide Shape, KindColors, AliveClosed, PhaseInv, RootsAlive;
    forall o | Reachable(s, o) ensures SameContents(s.heap, s.heap, o) { ReachableAlive(s, o); }
  }

  /** Finishing a pending sweep. */
  lemma FinishSweep(s: State)
    requires Inv(s) && (s.phase.SweepString? || s.phase.Sweep? || s.phase.Finalize?)
    ensures RunUntil(s, Finalize).phase.Finalize? && Collects(s, RunUntil(s, Finalize))
    decreases Rank(s.phase), WorkSet(s), WorkSize(s)
  {
    hide Shape, KindColors, AliveClosed, PhaseInv, Collects, Survives, RootsAlive, WorkSet;
    if s.phase.Finalize? {
      CollectsRefl(s);
    } else {
      StepProgress(s);
      SingleStepKeepsInv(s);
      SurvivesCollects(s, SingleStep(s));
      SweepPhases(s);
      FinishSweep(SingleStep(s));
      CollectsTrans(s, SingleStep(s), RunUntil(s, Finalize));
    }
  }

  /** The reset at the start of luaC_fullgc: sweep everything white, free nothing. */
  function Restart(s: State): State
  {
    if s.phase.Pause? || s.phase.Propagate?
    then s.(sweepstrgc := 0, sweepgc := 0, gray := [], grayagain := [], phase := SweepString)
    else s
  }

  lemma RestartKeepsInv(s: State)
    requires Inv(s)
    ensures Inv(Restart(s)) && Collects(s, Restart(s)) && !Restart(s).phase.Pause? && !Restart(s).phase.Propagate?
  {
    hide StringTable, Upvals, KindColors, MarkInv, Reachable, RootList;
    var r := Restart(s);
    CollectsRefl(s);
    if s.phase.Pause? || s.phase.Propagate? {
      ShapeFacts(s);
      ShapeKept(s, r);
      assert forall o :: Alive(r, o) <==> Alive(s, o);
      RootsKept(s, r);
      forall o, c | Alive(r, o) && Edge(r.heap, o, c) ensures Alive(r, c) { assert Edge(s.heap, o, c); }
      ReachableSame(s, r);
    }
  }

  /** luaC_fullgc. */
  ghost function FullGC(s: State): State
    requires Inv(s)
  {
    RestartKeepsInv(s);
    FinishSweep(Restart(s));
    var swept := RunUntil(Restart(s), Finalize);
    MarkRootKeepsInv(swept);
    RunUntil(MarkRoot(swept), Pause)
  }

  /** After a full collection, from any state of the collector: exactly what was reachable
      or fixed is left, with its contents, and all of it is white for the next cycle. */
  lemma FullGCExact(s: State)
    requires Inv(s)
    ensures var r := FullGC(s);
      && Inv(r) && r.phase.Pause?
      && (forall o :: o in r.heap <==> Reachable(s, o) || (o in s.heap && s.heap[o].fixed))
      && (forall o :: o in r.heap ==> r.heap[o].color == White(r.white))
      && (forall o :: o in r.heap ==> SameContents(s.heap, r.heap, o))
  {
    hide Shape, KindColors, AliveClosed, RootsAlive, Reachable, MarkedReachable;
    RestartKeepsInv(s);
    var s0 := Restart(s);
    FinishSweep(s0);
    var s1 := RunUntil(s0, Finalize);
    CollectsTrans(s, s0, s1);
    MarkRootKeepsInv(s1);
    MarkRootSound(s1);
    MarkRootShape(s1);
    var s2 := MarkRoot(s1);
    SameShapeSurvives(s1, s2);
    SurvivesCollects(s1, s2);
    CollectsTrans(s, s1, s2);
    MarkRootPhase(s1);
    RunExact(s2);
    var r := RunUntil(s2, Pause);
    CollectsTrans(s, s2, r);
    FullDone(s, r);
  }

  lemma MarkRootPhase(s: State)
    ensures MarkRoot(s).phase.Propagate?
  {
  }

  lemma FullDone(s: State, r: State)
    requires Collects(s, r) && Inv(r) && r.phase.Pause? && Exact(r)
    ensures forall o :: o in r.heap <==> Reachable(s, o) || (o in s.heap && s.heap[o].fixed)
    ensures forall o :: o in r.heap ==> r.heap[o].color == White(r.white)
  {
    hide Shape, KindColors, AliveClosed, RootsAlive, Reachable, Fields;
    assert forall o :: o in r.heap ==> CurrentWhite(r, o);
    assert forall o :: o in r.heap ==> Alive(r, o);
  }
}

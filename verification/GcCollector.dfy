/** The collector as the program runs it: fields updated in place and loops over the lists.
    Every method is proved to do what the functions of the model say. */
module GcCollector {
  import opened Base
  import opened GcHeap
  import opened GcMark
  import opened GcInvariant
  import opened GcCycle
  import opened GcUpval
  import opened GcSweep
  import opened GcStrings
  import opened GcMutator
  import opened GcAlloc
  import opened GcFindUpval
  import opened GcStep
  import opened GcFull

  class GlobalState {
    var heap: Heap
    var rootgc: seq<Id>
    var strt: seq<seq<Id>>
    var uvhead: seq<Id>
    var white: bool
    var phase: Phase
    var gray: seq<Id>
    var grayagain: seq<Id>
    var sweepstrgc: nat
    var sweepgc: nat
    var mainthread: Id
    var running: Id
    var registry: Id
    var mt: seq<Option<Id>>

    function St(): State
      reads this
    {
      State(heap, rootgc, strt, uvhead, white, phase, gray, grayagain, sweepstrgc, sweepgc, mainthread, running,
        registry, mt)
    }

    /** markvalue and reallymarkobject. */
    method MarkValue(v: Option<Id>)
      modifies this
      ensures St() == MarkFields(old(St()), [v])
      decreases Whites(heap), 1
    {
      if v.Some? && IsWhite(heap, v.value) {
        ReallyMarkObject(v.value);
      }
      assert [v][1..] == [];
    }

    method ReallyMarkObject(o: Id)
      requires IsWhite(heap, o)
      modifies this
      ensures St() == ReallyMark(old(St()), o)
      decreases Whites(heap), 0
    {
      ghost var s := St();
      heap := Recolor(heap, o, Gray);
      assert o in Whites(s.heap) && o !in Whites(heap) && Whites(heap) <= Whites(s.heap);
      match heap[o].kind {
        case String =>
        case Userdata =>
          heap := Recolor(heap, o, Black);
          assert Whites(heap) < Whites(s.heap);
          MarkAll(Fields(heap, o));
        case Upval =>
          MarkAll(Fields(heap, o));
          if o in heap && heap[o].home.None? {
            heap := Recolor(heap, o, Black);
          }
        case _ =>
          gray := [o] + gray;
      }
    }

    /** Marks each value of a list in turn. */
    method MarkAll(vs: seq<Option<Id>>)
      modifies this
      ensures St() == MarkFields(old(St()), vs)
      decreases Whites(heap), 2
    {
      ghost var s := St();
      var i := 0;
      while i < |vs|
        invariant 0 <= i <= |vs|
        invariant MarkFields(St(), vs[i..]) == MarkFields(s, vs)
        invariant Whites(heap) <= Whites(s.heap)
      {
        MarkValue(vs[i]);
        assert vs[i..][0] == vs[i] && vs[i..][1..] == vs[i + 1..];
        i := i + 1;
      }
    }

    /** propagatemark. */
    method Propagate1()
      requires gray != [] && NonWhite(heap, gray[0])
      modifies this
      ensures St() == PropagateMark(old(St()))
    {
      var o := gray[0];
      var vs := heap[o].slots;
      gray := gray[1..];
      if heap[o].kind.Thread? {
        grayagain := [o] + grayagain;
      } else {
        heap := Recolor(heap, o, Black);
      }
      MarkAll(vs);
    }

    /** propagateall. */
    method PropagateToEnd()
      requires MarkInv(St())
      modifies this
      ensures St() == PropagateAll(old(St())) && MarkInv(St()) && gray == []
    {
      ghost var s := St();
      while gray != []
        invariant MarkInv(St()) && PropagateAll(St()) == PropagateAll(s)
        decreases Whites(heap), |gray|
      {
        PropagateMarkKeepsInv(St());
        Propagate1();
      }
    }

    /** markroot. */
    method MarkRootSet()
      requires Inv(St()) && (phase.Pause? || phase.Finalize?)
      modifies this
      ensures St() == MarkRoot(old(St())) && Inv(St())
    {
      hide Inv;
      MarkRootKeepsInv(St());
      var vs := RootValues(St());
      gray := [];
      grayagain := [];
      MarkAll(vs);
      phase := Propagate;
    }

    /** remarkupvals. */
    method RemarkOpenUpvals()
      modifies this
      ensures St() == RemarkUpvals(old(St()), old(uvhead))
    {
      ghost var s := St();
      var i := 0;
      while i < |uvhead|
        invariant 0 <= i <= |uvhead| && uvhead == s.uvhead
        invariant RemarkUpvals(St(), uvhead[i..]) == RemarkUpvals(s, s.uvhead)
      {
        var uv := uvhead[i];
        assert uvhead[i..][0] == uv && uvhead[i..][1..] == uvhead[i + 1..];
        ghost var here := St();
        if uv in heap && heap[uv].color == Gray {
          MarkAll(Fields(heap, uv));
          MarkFieldsUvhead(here, Fields(here.heap, uv));
        }
        i := i + 1;
      }
    }

    /** The marking of atomic: the open upvalues again, then the running thread and the basic
        metatables, then what a back barrier caught. */
    method MarkToEnd()
      requires Inv(St()) && phase.Propagate?
      modifies this
      ensures St() == MarkAtomically(old(St()))
    {
      hide Inv, MarkInv, Closed, KindColors, NoDead, NoBlackToWhite, GrayLists, MarkFields, PropagateAll, RemarkUpvals,
        MarkAtomically;
      ghost var s := St();
      AtomicInvs(s);
      RemarkOpenUpvals();
      PropagateToEnd();
      MarkAll([Some(running)] + mt);
      PropagateToEnd();
      gray := grayagain;
      grayagain := [];
      PropagateToEnd();
      AtomicStages(s);
    }

    /** atomic. */
    method AtomicStep()
      requires Inv(St()) && phase.Propagate?
      modifies this
      ensures St() == Atomic(old(St())) && Inv(St())
    {
      hide Inv, MarkAtomically;
      AtomicKeepsInv(St());
      AtomicWhite(St());
      MarkToEnd();
      white := !white;
      sweepstrgc := 0;
      sweepgc := 0;
      phase := SweepString;
    }

    /** sweepwholelist over a list of strings or of open upvalues: what is doomed is freed (an
        open upvalue leaves the ring), the rest is made white. */
    method SweepWholeList(ids: seq<Id>) returns (kept: seq<Id>)
      requires Distinct(ids) && forall o :: o in ids ==> o in heap && (IsOpen(heap, o) || o !in uvhead)
      modifies this
      ensures var gone := DoomedIn(old(heap), ids, white);
        kept == Without(ids, gone) &&
        St() == old(St()).(heap := Swept(old(heap), ids, white), uvhead := Without(old(uvhead), gone))
    {
      hide Swept, DoomedIn, Without;
      ghost var s := St();
      kept := [];
      var i := 0;
      NoneSwept(s, ids);
      while i < |ids|
        invariant 0 <= i <= |ids|
        invariant St() == s.(heap := Swept(s.heap, ids[..i], white),
          uvhead := Without(s.uvhead, DoomedIn(s.heap, ids[..i], white)))
        invariant kept == Without(ids[..i], DoomedIn(s.heap, ids[..i], white))
      {
        var o := ids[i];
        assert o in ids && o !in ids[..i];
        SweptOne(s, ids, i);
        if Doomed(heap[o], white) {
          if IsOpen(heap, o) {
            uvhead := Without(uvhead, {o});
          }
          heap := heap - {o};
        } else {
          heap := Recolor(heap, o, White(white));
          kept := kept + [o];
        }
        i := i + 1;
      }
      assert ids[..i] == ids;
    }

    /** The sweep-string step: one bucket. */
    method SweepStringBucket()
      requires Inv(St()) && phase.SweepString?
      modifies this
      ensures St() == SweepBucket(old(St())) && Inv(St())
    {
      hide Inv, Swept, DoomedIn;
      SweepBucketKeepsInv(St());
      BucketReady(St());
      var b := strt[sweepstrgc];
      BucketNotOpen(St(), b);
      var kept := SweepWholeList(b);
      strt := strt[sweepstrgc := kept];
      sweepstrgc := sweepstrgc + 1;
      phase := if sweepstrgc >= |strt| then Sweep else SweepString;
    }

    /** The open upvalues of a thread that the sweep has reached. */
    method SweepOpenUpvals(th: Id)
      requires Upvals(St().heap, St().uvhead) && th in heap && heap[th].kind.Thread?
      modifies this
      ensures St() == SweepOpen(old(St()), th) && th in heap
    {
      hide Upvals, Swept, DoomedIn;
      OpenReady(St(), th);
      var kept := SweepWholeList(heap[th].openupval);
      SweptKeepsOther(old(St()), th);
      heap := heap[th := heap[th].(openupval := kept)];
    }

    /** luaC_linkupval. */
    method LinkUpvalue(uv: Id)
      requires uv in heap
      modifies this
      ensures St() == LinkUpval(old(St()), uv)
    {
      rootgc := [uv] + rootgc;
      sweepgc := if sweepgc > 0 then sweepgc + 1 else 0;
      if heap[uv].color == Gray {
        if phase.Propagate? {
          heap := Recolor(heap, uv, Black);
          MarkAll(heap[uv].slots);
        } else {
          heap := Recolor(heap, uv, White(white));
        }
      }
    }

    /** luaF_close. */
    method CloseUpvalues(th: Id, level: nat)
      requires th in heap && !IsOpen(heap, th) && (phase.Propagate? ==> Inv(St()) && heap[th].kind.Thread?)
      modifies this
      ensures St() == Close(old(St()), th, level)
    {
      hide Inv;
      ghost var s := St();
      while heap[th].openupval != [] && PosOf(heap, heap[th].openupval[0]) >= level
        invariant th in heap && !IsOpen(heap, th) && (phase.Propagate? ==> Inv(St()) && heap[th].kind.Thread?)
        invariant Close(St(), th, level) == Close(s, th, level)
        decreases |heap[th].openupval|
      {
        var uv := heap[th].openupval[0];
        ghost var here := St();
        CloseOneFrame(here, th);
        var dead := heap[uv].color == White(!white);
        var value := Fields(heap, uv);
        heap := heap[uv := heap[uv].(slots := value, home := None)];
        heap := heap[th := heap[th].(openupval := heap[th].openupval[1..])];
        uvhead := Without(uvhead, {uv});
        assert St() == Detach(here, th);
        if dead {
          heap := heap - {uv};
        } else {
          LinkUpvalue(uv);
        }
        assert St() == CloseOne(here, th);
      }
    }

    /** One turn of sweeplist over `rootgc`. */
    method SweepOne()
      requires Inv(St()) && phase.Sweep? && sweepgc < |rootgc|
      modifies this
      ensures old(rootgc[sweepgc] in heap) && St() == SweepCurr(old(St())) && Inv(St()) && phase.Sweep?
    {
      hide Inv, SweepOpen, Close, Upvals;
      SweepCurrKeepsInv(St());
      CurrReady(St());
      var curr := rootgc[sweepgc];
      var thread := heap[curr].kind.Thread?;
      if thread {
        SweepOpenFrame(St(), curr);
        SweepOpenUpvals(curr);
        SweptThreadReady(old(St()), curr);
      }
      if !Doomed(heap[curr], white) {
        heap := Recolor(heap, curr, White(white));
        sweepgc := sweepgc + 1;
      } else {
        rootgc := rootgc[..sweepgc] + rootgc[sweepgc + 1..];
        if thread {
          CloseUpvalues(curr, 0);
        }
        heap := heap - {curr};
      }
    }

    /** sweeplist over `rootgc`, at most `count` objects. */
    method SweepRootList(count: nat)
      requires Inv(St()) && phase.Sweep?
      modifies this
      ensures St() == SweepRoot(old(St()), count) && Inv(St()) && phase.Sweep?
    {
      hide Inv, SweepCurr;
      ghost var s := St();
      var n := count;
      while n > 0 && sweepgc < |rootgc|
        invariant Inv(St()) && phase.Sweep? && SweepRoot(St(), n) == SweepRoot(s, count)
        decreases n
      {
        SweepOne();
        n := n - 1;
      }
    }

    /** luaS_resize. */
    method Resize(newsize: nat)
      requires newsize > 0
      modifies this
      ensures St() == ResizeStrings(old(St()), newsize)
    {
      if phase.SweepString? {
        return;
      }
      var table: seq<seq<Id>> := seq(newsize, _ => []);
      ghost var table0 := table;
      var i := 0;
      while i < |strt|
        invariant 0 <= i <= |strt| && |table| == newsize && St() == old(St())
        invariant RelinkAll(heap, strt[i..], table) == RelinkAll(heap, strt, table0)
      {
        assert strt[i..][0] == strt[i] && strt[i..][1..] == strt[i + 1..];
        var p := strt[i];
        while p != []
          invariant |table| == newsize && St() == old(St())
          invariant RelinkAll(heap, strt[i + 1..], Relink(heap, p, table)) == RelinkAll(heap, strt, table0)
          decreases |p|
        {
          var o := p[0];
          var h1 := Bucket(BytesOf(heap, o), newsize);
          table := table[h1 := [o] + table[h1]];
          p := p[1..];
        }
        i := i + 1;
      }
      strt := table;
    }

    /** singlestep. */
    method Step()
      requires Inv(St())
      modifies this
      ensures St() == SingleStep(old(St())) && Inv(St())
    {
      hide Inv, MarkRoot, PropagateMark, Atomic, SweepBucket, SweepRoot, ResizeStrings, CountStrings;
      SingleStepKeepsInv(St());
      match phase {
        case Pause => MarkRootSet();
        case Propagate =>
          if gray != [] {
            PropagateKeepsInv(St());
            Propagate1();
          } else {
            AtomicStep();
          }
        case SweepString => SweepStringBucket();
        case Sweep =>
          SweepRootList(GCSWEEPMAX);
          if sweepgc >= |rootgc| {
            if CountStrings(strt) < |strt| / 4 && |strt| > MINSTRTABSIZE * 2 {
              Resize(|strt| / 2);
            }
            phase := Finalize;
          }
        case Finalize => phase := Pause;
      }
    }

    /** The first loop of luaC_fullgc: finish any pending sweep phase. */
    method FinishPendingSweep()
      requires Inv(St()) && (phase.SweepString? || phase.Sweep? || phase.Finalize?)
      modifies this
      ensures St() == RunUntil(old(St()), Finalize) && Inv(St()) && phase.Finalize?
    {
      hide Inv, SingleStep, WorkSet, WorkSize;
      ghost var s := St();
      while !phase.Finalize?
        invariant Inv(St()) && (phase.SweepString? || phase.Sweep? || phase.Finalize?)
        invariant RunUntil(St(), Finalize) == RunUntil(s, Finalize)
        decreases Rank(phase), WorkSet(St()), WorkSize(St())
      {
        StepProgress(St());
        SweepPhases(St());
        Step();
      }
    }

    /** The second loop of luaC_fullgc: a whole cycle. */
    method FinishCycle()
      requires Inv(St())
      modifies this
      ensures St() == RunUntil(old(St()), Pause) && Inv(St()) && phase.Pause?
    {
      hide Inv, SingleStep, WorkSet, WorkSize;
      ghost var s := St();
      while !phase.Pause?
        invariant Inv(St()) && RunUntil(St(), Pause) == RunUntil(s, Pause)
        decreases Rank(phase), WorkSet(St()), WorkSize(St())
      {
        StepProgress(St());
        Step();
      }
    }

    /** luaC_fullgc. */
    method FullCollect()
      requires Inv(St())
      modifies this
      ensures St() == FullGC(old(St())) && Inv(St()) && phase.Pause?
    {
      hide Inv, RunUntil, MarkRoot;
      ghost var s := St();
      RestartKeepsInv(s);
      if phase.Pause? || phase.Propagate? {
        sweepstrgc := 0;
        sweepgc := 0;
        gray := [];
        grayagain := [];
        phase := SweepString;
      }
      assert St() == Restart(s);
      FinishPendingSweep();
      MarkRootSet();
      FinishCycle();
    }

    /** luaC_barrierf, called on a black object that was made to refer to something white. */
    method BarrierF(o: Id, v: Id)
      requires o in heap && heap[o].color == Black && IsWhite(heap, v) && InvBut(St(), o, v)
      modifies this
      ensures St() == BarrierForward(old(St()), o, v) && Inv(St())
    {
      hide Inv, InvBut, ReallyMark;
      ForwardKeepsInv(St(), o, v);
      if phase.Propagate? {
        ReallyMarkObject(v);
      } else {
        heap := Recolor(heap, o, White(white));
      }
    }

    /** luaC_barrierback, called on a black table that was made to refer to something white. */
    method BarrierB(t: Id, ghost v: Id)
      requires t in heap && heap[t].color == Black && heap[t].kind.Table? && InvBut(St(), t, v)
      modifies this
      ensures St() == BarrierBack(old(St()), t) && Inv(St())
    {
      hide Inv, InvBut;
      BackKeepsInv(St(), t, v);
      heap := Recolor(heap, t, Gray);
      grayagain := [t] + grayagain;
    }

    /** A store behind luaC_barrier or luaC_barriert. */
    method SetField(o: Id, i: nat, v: Option<Id>)
      requires Inv(St()) && Storable(St(), o, i, v)
      modifies this
      ensures St() == SetSlot(old(St()), o, i, v) && Inv(St())
      ensures Stored(old(St()), o, i, v, St())
    {
      hide Inv, InvBut, ReallyMark;
      StoreBreaks(St(), o, i, v);
      SetSlotKeepsInv(St(), o, i, v);
      heap := Store(heap, o, i, v);
      if v.Some? && IsWhite(heap, v.value) && heap[o].color == Black {
        if heap[o].kind.Table? {
          BarrierB(o, v.value);
        } else {
          BarrierF(o, v.value);
        }
      }
    }

    /** luaC_link. */
    method LinkObject(o: Id, kind: Kind)
      requires Inv(St()) && o !in heap && !kind.String?
      modifies this
      ensures St() == Link(old(St()), o, kind) && Inv(St())
    {
      hide Inv;
      LinkKeepsInv(St(), o, kind);
      heap := heap[o := NewObj(St(), kind)];
      rootgc := [o] + rootgc;
      sweepgc := if sweepgc > 0 then sweepgc + 1 else 0;
    }

    /** luaF_findupval. */
    method FindUpvalue(th: Id, level: nat, uv: Id) returns (found: Id)
      requires Inv(St()) && th in heap && Alive(St(), th) && heap[th].kind.Thread? && uv !in heap
      requires level < |heap[th].slots|
      modifies this
      ensures (St(), found) == FindUpval(old(St()), th, level, uv) && Inv(St())
    {
      hide Inv, Alive, FindUpval, Above, PosOf;
      FindUpvalKeepsInv(St(), th, level, uv);
      FindUpvalCases(St(), th, level, uv);
      var l := heap[th].openupval;
      var k := 0;
      assert l[0..] == l;
      while k < |l| && PosOf(heap, l[k]) >= level
        invariant 0 <= k <= |l| && St() == old(St()) && k + Above(heap, l[k..], level) == Above(heap, l, level)
      {
        AboveFrom(heap, l, k, level);
        if PosOf(heap, l[k]) == level {
          if IsDead(St(), l[k]) {
            heap := Recolor(heap, l[k], White(white));
          }
          return l[k];
        }
        k := k + 1;
      }
      AboveFrom(heap, l, k, level);
      heap := heap[th := heap[th].(openupval := l[..k] + [uv] + l[k..])];
      heap := heap[uv := NewOpen(St(), th, level)];
      uvhead := [uv] + uvhead;
      return uv;
    }

    /** luaS_newlstr. */
    method NewLStr(bytes: seq<bv8>, ts: Id) returns (found: Id)
      requires Inv(St()) && ts !in heap
      modifies this
      ensures |old(strt)| > 0 && (St(), found) == Intern(old(St()), bytes, ts) && Inv(St())
    {
      hide Inv, Bucket, RelinkAll, CountStrings;
      InternKeepsInv(St(), bytes, ts);
      var b := Bucket(bytes, |strt|);
      var l := strt[b];
      var k := 0;
      while k < |l|
        invariant 0 <= k <= |l| && St() == old(St()) && FindString(heap, l[k..], bytes) == FindString(heap, l, bytes)
      {
        assert l[k..][0] == l[k] && l[k..][1..] == l[k + 1..];
        if l[k] in heap && heap[l[k]].bytes == bytes {
          if IsDead(St(), l[k]) {
            heap := Recolor(heap, l[k], White(white));
          }
          return l[k];
        }
        k := k + 1;
      }
      heap := heap[ts := NewStringObj(St(), bytes)];
      strt := strt[b := [ts] + strt[b]];
      if CountStrings(strt) > |strt| && |strt| <= MAX_INT / 2 {
        Resize(2 * |strt|);
      }
      return ts;
    }
  }

  lemma NoneSwept(s: State, ids: seq<Id>)
    ensures Swept(s.heap, ids[..0], s.white) == s.heap && Without(ids[..0], DoomedIn(s.heap, ids[..0], s.white)) == []
    ensures Without(s.uvhead, DoomedIn(s.heap, ids[..0], s.white)) == s.uvhead
  {
    WithoutNone(s.uvhead, {});
    SweptNone(s.heap, s.white);
    assert ids[..0] == [];
  }

  lemma CurrReady(s: State)
    requires Inv(s) && s.sweepgc < |s.rootgc|
    ensures s.rootgc[s.sweepgc] in s.heap && !IsOpen(s.heap, s.rootgc[s.sweepgc]) && Upvals(s.heap, s.uvhead)
  {
    hide StringTable, KindColors, AliveClosed, PhaseInv;
    var curr := s.rootgc[s.sweepgc];
    assert curr in s.rootgc;
  }

  lemma SweptThreadReady(s: State, th: Id)
    requires Inv(s) && th in s.heap && s.heap[th].kind.Thread? && s.phase.Sweep?
    ensures th in SweepOpen(s, th).heap && !IsOpen(SweepOpen(s, th).heap, th)
  {
    hide StringTable, KindColors, AliveClosed, PhaseInv;
    SweepOpenOthers(s, th);
    assert !IsOpen(s.heap, th);
  }

  lemma BucketNotOpen(s: State, b: seq<Id>)
    requires forall o :: o in b ==> o !in s.uvhead
    ensures Without(s.uvhead, DoomedIn(s.heap, b, s.white)) == s.uvhead
  {
    WithoutNone(s.uvhead, DoomedIn(s.heap, b, s.white));
  }

  lemma BucketReady(s: State)
    requires Inv(s) && s.phase.SweepString?
    ensures s.sweepstrgc < |s.strt| && Distinct(s.strt[s.sweepstrgc])
    ensures forall o :: o in s.strt[s.sweepstrgc] ==> o in s.heap && o !in s.uvhead
  {
    hide KindColors, AliveClosed;
    forall o | o in s.strt[s.sweepstrgc] ensures o in s.heap && o !in s.uvhead { assert !IsOpen(s.heap, o); }
  }

  lemma OpenReady(s: State, th: Id)
    requires Upvals(s.heap, s.uvhead) && th in s.heap && s.heap[th].kind.Thread?
    ensures Distinct(s.heap[th].openupval)
    ensures forall o :: o in s.heap[th].openupval ==> o in s.heap && IsOpen(s.heap, o) && o != th
  {
    assert OpenList(s.heap, th);
    var l := s.heap[th].openupval;
    forall o | o in l ensures o in s.heap && IsOpen(s.heap, o) && o != th { assert OpenOn(s.heap, o, th); }
    forall i, j | 0 <= i < j < |l| ensures l[i] != l[j] { assert PosOf(s.heap, l[i]) > PosOf(s.heap, l[j]); }
  }

  lemma SweptKeepsOther(s: State, th: Id)
    requires th in s.heap && th !in s.heap[th].openupval
    ensures th in Swept(s.heap, s.heap[th].openupval, s.white)
  {
  }

  lemma CloseOneFrame(s: State, th: Id)
    requires th in s.heap && !IsOpen(s.heap, th) && s.heap[th].openupval != []
    requires IsOpen(s.heap, s.heap[th].openupval[0])
    requires s.phase.Propagate? ==> Inv(s) && s.heap[th].kind.Thread?
    ensures var r := CloseOne(s, th);
      && th in r.heap && !IsOpen(r.heap, th) && r.heap[th].openupval == s.heap[th].openupval[1..]
      && (r.phase.Propagate? ==> Inv(r) && r.heap[th].kind.Thread?)
  {
    if s.phase.Propagate? {
      hide Inv, Frees;
      CloseOneKeepsInv(s, th);
    }
  }

  lemma SweptNone(h: Heap, white: bool)
    ensures DoomedIn(h, [], white) == {} && Swept(h, [], white) == h
  {
  }

  /** One turn of the sweep loop, on the heap. */
  lemma SweptHeap(h: Heap, ids: seq<Id>, i: nat, white: bool)
    requires Distinct(ids) && i < |ids| && ids[i] in h
    ensures var o := ids[i];
      var h0, h1 := Swept(h, ids[..i], white), Swept(h, ids[..i + 1], white);
      && o in h0 && h0[o] == h[o]
      && h1 == if Doomed(h[o], white) then h0 - {o} else Recolor(h0, o, White(white))
    ensures var o := ids[i];
      var g, g1 := DoomedIn(h, ids[..i], white), DoomedIn(h, ids[..i + 1], white);
      o !in g && g1 == if Doomed(h[o], white) then g + {o} else g
  {
    var o := ids[i];
    assert ids[..i + 1] == ids[..i] + [o];
    assert o !in ids[..i];
    var g, g1 := DoomedIn(h, ids[..i], white), DoomedIn(h, ids[..i + 1], white);
    assert g1 == if Doomed(h[o], white) then g + {o} else g;
  }

  /** One turn of the sweep loop. */
  lemma SweptOne(s: State, ids: seq<Id>, i: nat)
    requires Distinct(ids) && i < |ids| && ids[i] in s.heap && (IsOpen(s.heap, ids[i]) || ids[i] !in s.uvhead)
    ensures var o, g, g1 := ids[i], DoomedIn(s.heap, ids[..i], s.white), DoomedIn(s.heap, ids[..i + 1], s.white);
      var h, h1 := Swept(s.heap, ids[..i], s.white), Swept(s.heap, ids[..i + 1], s.white);
      && o in h && h[o] == s.heap[o]
      && (Doomed(h[o], s.white) ==>
            h1 == h - {o} && Without(ids[..i + 1], g1) == Without(ids[..i], g)
            && Without(s.uvhead, g1) == if IsOpen(h, o) then Without(Without(s.uvhead, g), {o})
               else Without(s.uvhead, g))
      && (!Doomed(h[o], s.white) ==>
            h1 == Recolor(h, o, White(s.white)) && Without(ids[..i + 1], g1) == Without(ids[..i], g) + [o]
            && Without(s.uvhead, g1) == Without(s.uvhead, g))
  {
    hide Swept, DoomedIn;
    SweptHeap(s.heap, ids, i, s.white);
    var o, g, g1 := ids[i], DoomedIn(s.heap, ids[..i], s.white), DoomedIn(s.heap, ids[..i + 1], s.white);
    assert ids[..i + 1] == ids[..i] + [o];
    assert o !in ids[..i];
    WithoutSnoc(ids[..i], o, g1);
    WithoutAgree(ids[..i], g, g1);
    WithoutTwice(s.uvhead, g, o);
    if !IsOpen(s.heap, o) { WithoutAgree(s.uvhead, g, g1); }
  }

  lemma WithoutSnoc(l: seq<Id>, o: Id, gone: set<Id>)
    ensures Without(l + [o], gone) == Without(l, gone) + (if o in gone then [] else [o])
  {
    if l != [] {
      WithoutSnoc(l[1..], o, gone);
      assert (l + [o])[1..] == l[1..] + [o];
    }
  }

  lemma WithoutAgree(l: seq<Id>, a: set<Id>, b: set<Id>)
    requires forall o :: o in l ==> (o in a <==> o in b)
    ensures Without(l, a) == Without(l, b)
  {
    if l != [] {
      var o := l[0];
      assert o in l;
      WithoutAgree(l[1..], a, b);
    }
  }

  lemma WithoutTwice(l: seq<Id>, a: set<Id>, o: Id)
    ensures Without(Without(l, a), {o}) == Without(l, a + {o})
  {
    if l != [] && l[0] !in a {
      assert ([l[0]] + Without(l[1..], a))[1..] == Without(l[1..], a);
    }
  }

  lemma AtomicStages(s: State)
    ensures var s1 := PropagateAll(RemarkUpvals(s, s.uvhead));
      var s2 := PropagateAll(MarkFields(s1, [Some(s.running)] + s.mt));
      MarkAtomically(s) == PropagateAll(s2.(gray := s2.grayagain, grayagain := []))
  {
  }

  lemma MarkFieldsUvhead(s: State, vs: seq<Option<Id>>)
    ensures MarkFields(s, vs).uvhead == s.uvhead
    decreases Whites(s.heap), 1 + |vs|
  {
    if vs != [] {
      var s1 := s;
      if vs[0].Some? && IsWhite(s.heap, vs[0].value) {
        s1 := ReallyMark(s, vs[0].value);
        ReallyMarkUvhead(s, vs[0].value);
      }
      MarkFieldsUvhead(s1, vs[1..]);
    }
  }

  lemma ReallyMarkUvhead(s: State, o: Id)
    requires IsWhite(s.heap, o)
    ensures ReallyMark(s, o).uvhead == s.uvhead
    decreases Whites(s.heap), 0
  {
    var g := s.(heap := Recolor(s.heap, o, Gray));
    assert o in Whites(s.heap) && o !in Whites(g.heap) && Whites(g.heap) <= Whites(s.heap);
    match s.heap[o].kind
    case Userdata =>
      var b := s.(heap := Recolor(g.heap, o, Black));
      assert Whites(b.heap) <= Whites(g.heap);
      MarkFieldsUvhead(b, Fields(b.heap, o));
    case Upval => MarkFieldsUvhead(g, Fields(g.heap, o));
    case _ =>
  }

  lemma AtomicWhite(s: State)
    requires Inv(s) && s.phase.Propagate?
    ensures MarkAtomically(s).white == s.white
  {
    hide Shape, KindColors, AliveClosed, MarkInv;
    ShapeFacts(s);
    forall o | IsRoot(s, o) ensures o in s.heap { assert Alive(s, o); }
    MarkAtomicallyComplete(s);
  }

  /** The mark invariant holds at each stage of atomic. */
  lemma AtomicInvs(s: State)
    requires Inv(s) && s.phase.Propagate?
    ensures MarkInv(RemarkUpvals(s, s.uvhead))
    ensures var s1 := PropagateAll(RemarkUpvals(s, s.uvhead)); s1.running == s.running && s1.mt == s.mt
    ensures var s1 := PropagateAll(RemarkUpvals(s, s.uvhead)); MarkInv(MarkFields(s1, [Some(s.running)] + s.mt))
    ensures var s1 := PropagateAll(RemarkUpvals(s, s.uvhead));
      var s2 := PropagateAll(MarkFields(s1, [Some(s.running)] + s.mt));
      MarkInv(s2.(gray := s2.grayagain, grayagain := []))
  {
    hide Shape, KindColors, NoBlackToWhite, UpvalsDone, AgainDone, AliveClosed, GrayLists, Closed;
    ShapeFacts(s);
    RemarkUpvalsDone(s, s.uvhead);
    var s0 := RemarkUpvals(s, s.uvhead);
    PropagateAllKeepsInv(s0);
    var s1 := PropagateAll(s0);
    var vs := [Some(s.running)] + s.mt;
    forall c | Some(c) in vs ensures c in s1.heap { assert IsRoot(s, c) && Alive(s, c); }
    MarkFieldsKeepsInv(s1, vs);
    var m := MarkFields(s1, vs);
    PropagateAllKeepsInv(m);
    TraverseAgain(PropagateAll(m));
  }
}

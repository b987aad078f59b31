/** Runs that interleave collector steps with anything a program does, and the safety of
    all of them. */
module GcRun {
  import opened Base
  import opened GcHeap
  import opened GcMark
  import opened GcInvariant
  import opened GcCycle
  import opened GcUpval
  import opened GcStrings
  import opened GcMutator
  import opened GcAlloc
  import opened GcFindUpval
  import opened GcStep
  import opened GcFull

  datatype Action =
    | Collect                                          // singlestep
    | FullCollect                                      // luaC_fullgc
    | NewObject(o: Id, kind: Kind)                     // luaC_link
    | NewUserdata(o: Id)                               // luaS_newudata
    | NewString(ts: Id, bytes: seq<bv8>)               // luaS_newlstr
    | FixString(ts: Id)                                // luaS_fix
    | SetField(o: Id, i: nat, v: Option<Id>)           // a store with its barrier, or a stack write
    | SetUpvalue(uv: Id, v: Option<Id>)                // a store through an upvalue
    | SetTop(th: Id, n: nat)                           // the stack shrinks
    | OpenUpvalue(th: Id, level: nat, uv: Id)          // luaF_findupval
    | CloseUpvalues(th: Id, level: nat)                // luaF_close
    | Resume(th: Id)                                   // another thread runs
    | SetMetatable(i: nat, v: Option<Id>)              // the metatable of a basic type

  function TruncateStack(s: State, th: Id, n: nat): State
    requires th in s.heap && n <= |s.heap[th].slots|
  {
    s.(heap := s.heap[th := s.heap[th].(slots := s.heap[th].slots[..n])])
  }

  /** A program only handles objects that are not dead, and allocates unused memory; the
      stack is cut only above its open upvalues. */
  predicate Enabled(s: State, a: Action)
  {
    match a
    case Collect => true
    case FullCollect => true
    case NewObject(o, kind) => o !in s.heap && !kind.String?
    case NewUserdata(o) => o !in s.heap
    case NewString(ts, _) => ts !in s.heap
    case FixString(ts) => Alive(s, ts) && s.heap[ts].kind.String?
    case SetField(o, i, v) => Alive(s, o) && Storable(s, o, i, v)
    case SetUpvalue(uv, v) => Alive(s, uv) && s.heap[uv].kind.Upval? && (v.Some? ==> Alive(s, v.value))
    case SetTop(th, n) =>
      && Alive(s, th) && s.heap[th].kind.Thread? && n <= |s.heap[th].slots|
      && forall i :: 0 <= i < |s.heap[th].openupval| ==> PosOf(s.heap, s.heap[th].openupval[i]) < n
    case OpenUpvalue(th, level, uv) =>
      Alive(s, th) && s.heap[th].kind.Thread? && level < |s.heap[th].slots| && uv !in s.heap
    case CloseUpvalues(th, _) => Alive(s, th) && s.heap[th].kind.Thread?
    case Resume(th) => Alive(s, th) && s.heap[th].kind.Thread?
    case SetMetatable(i, v) => i < |s.mt| && (v.Some? ==> Alive(s, v.value))
  }

  /** The slot a store through an upvalue goes to. */
  function UpvalueSlot(s: State, uv: Id): (Id, nat)
    requires uv in s.heap
  {
    match s.heap[uv].home
    case None => (uv, 0)
    case Some(at) => (at.thread, at.pos)
  }

  ghost function Do(s: State, a: Action): State
    requires Inv(s) && Enabled(s, a)
  {
    match a
    case Collect => SingleStep(s)
    case FullCollect => FullGC(s)
    case NewObject(o, kind) => Link(s, o, kind)
    case NewUserdata(o) => LinkUserdataKeepsInv(s, o); LinkUserdata(s, o)
    case NewString(ts, bytes) => ShapeFacts(s); Intern(s, bytes, ts).0
    case FixString(ts) => s.(heap := s.heap[ts := s.heap[ts].(fixed := true)])
    case SetField(o, i, v) => SetSlot(s, o, i, v)
    case SetUpvalue(uv, v) =>
      UpvalueStorable(s, uv, v);
      SetSlot(s, UpvalueSlot(s, uv).0, UpvalueSlot(s, uv).1, v)
    case SetTop(th, n) => TruncateStack(s, th, n)
    case OpenUpvalue(th, level, uv) => FindUpval(s, th, level, uv).0
    case CloseUpvalues(th, level) => Close(s, th, level)
    case Resume(th) => s.(running := th)
    case SetMetatable(i, v) => s.(mt := s.mt[i := v])
  }

  lemma UpvalueStorable(s: State, uv: Id, v: Option<Id>)
    requires Inv(s) && Enabled(s, SetUpvalue(uv, v))
    ensures var (o, i) := UpvalueSlot(s, uv); Storable(s, o, i, v)
  {
    hide StringTable, AliveClosed, PhaseInv, KindColors;
    if s.heap[uv].home.Some? {
      assert IsOpen(s.heap, uv);
      var th := s.heap[uv].home.value.thread;
      assert OpenList(s.heap, th) && OpenOn(s.heap, uv, th);
      assert !IsOpen(s.heap, th);
    }
  }

  lemma TruncateShape(s: State, th: Id, n: nat)
    requires Shape(s) && Enabled(s, SetTop(th, n))
    ensures Shape(TruncateStack(s, th, n))
  {
    hide StringTable, Upvals;
    var h, h' := s.heap, TruncateStack(s, th, n).heap;
    assert SameStrings(h, h');
    StringTableKept(h, h', s.strt);
    TruncateOpen(s, th, n);
    UpvalsKept(h, h', s.uvhead);
  }

  lemma TruncateKeepsInv(s: State, th: Id, n: nat)
    requires Inv(s) && Enabled(s, SetTop(th, n))
    ensures Inv(TruncateStack(s, th, n))
  {
    hide Shape, MarkInv, AliveClosed, KindColors;
    var r := TruncateStack(s, th, n);
    TruncateShape(s, th, n);
    TruncateEdges(s, th, n);
    TruncateClosed(s, th, n);
    RootsKept(s, r);
    ColorsKept(s.heap, r.heap);
    if !s.phase.Propagate? { PhaseKept(s, r); }
  }

  lemma TruncateOpen(s: State, th: Id, n: nat)
    requires Upvals(s.heap, s.uvhead) && Enabled(s, SetTop(th, n))
    ensures SameOpen(s.heap, TruncateStack(s, th, n).heap)
  {
    var h, h' := s.heap, TruncateStack(s, th, n).heap;
    forall t, uv | t in h' && h'[t].kind.Thread? && OpenOn(h', uv, t) ensures PosOf(h', uv) < |h'[t].slots| {
      assert OpenList(h, t) && OpenOn(h, uv, t);
      assert uv in h[t].openupval;
    }
  }

  lemma TruncateEdges(s: State, th: Id, n: nat)
    requires th in s.heap && n <= |s.heap[th].slots|
    ensures forall o, c :: Edge(TruncateStack(s, th, n).heap, o, c) ==> Edge(s.heap, o, c)
  {
    var h, h' := s.heap, TruncateStack(s, th, n).heap;
    forall o, c | Edge(h', o, c) ensures Edge(h, o, c) {
      match h[o].home
      case None =>
        var i :| 0 <= i < |h'[o].slots| && h'[o].slots[i] == Some(c);
        assert h[o].slots[i] == Some(c);
      case Some(at) => assert Fields(h', o) == [h'[at.thread].slots[at.pos]];
    }
  }

  lemma TruncateClosed(s: State, th: Id, n: nat)
    requires AliveClosed(s) && th in s.heap && n <= |s.heap[th].slots|
    requires forall o, c :: Edge(TruncateStack(s, th, n).heap, o, c) ==> Edge(s.heap, o, c)
    ensures AliveClosed(TruncateStack(s, th, n)) && (MarkInv(s) ==> MarkInv(TruncateStack(s, th, n)))
  {
    var r := TruncateStack(s, th, n);
    assert forall o :: Alive(r, o) <==> Alive(s, o);
    forall o | o in r.heap && KindColors(s.heap) ensures KindColor(r.heap[o]) { assert KindColor(s.heap[o]); }
  }

  lemma FixShape(s: State, ts: Id)
    requires Shape(s) && ts in s.heap && s.heap[ts].kind.String?
    ensures Shape(s.(heap := s.heap[ts := s.heap[ts].(fixed := true)]))
  {
    hide StringTable, Upvals;
    var h, h' := s.heap, s.heap[ts := s.heap[ts].(fixed := true)];
    assert SameStrings(h, h');
    StringTableKept(h, h', s.strt);
    FixUpvals(s, ts);
  }

  lemma FixKeepsInv(s: State, ts: Id)
    requires Inv(s) && Enabled(s, FixString(ts))
    ensures Inv(s.(heap := s.heap[ts := s.heap[ts].(fixed := true)]))
  {
    hide Shape, AliveClosed, KindColors, MarkInv;
    var r := s.(heap := s.heap[ts := s.heap[ts].(fixed := true)]);
    FixShape(s, ts);
    assert SameMarks(s.heap, r.heap) by { forall o | o in s.heap ensures Fields(r.heap, o) == Fields(s.heap, o) {} }
    ColorsKept(s.heap, r.heap);
    FixAlive(s, r);
    if s.phase.Propagate? { SameMarksKeepsInv(s, r); } else { PhaseKept(s, r); }
  }

  lemma FixAlive(s: State, r: State)
    requires AliveClosed(s) && RootsAlive(s) && SameMarks(s.heap, r.heap) && SameRoots(s, r) && r.white == s.white
    ensures AliveClosed(r) && RootsAlive(r)
  {
    assert forall o :: Alive(r, o) <==> Alive(s, o);
    RootsKept(s, r);
    forall o, c | Alive(r, o) && Edge(r.heap, o, c) ensures Alive(r, c) { assert Edge(s.heap, o, c); }
  }

  lemma FixUpvals(s: State, ts: Id)
    requires Upvals(s.heap, s.uvhead) && ts in s.heap
    ensures Upvals(s.heap[ts := s.heap[ts].(fixed := true)], s.uvhead)
  {
    var h, h' := s.heap, s.heap[ts := s.heap[ts].(fixed := true)];
    forall t, uv | t in h' && h'[t].kind.Thread? && OpenOn(h', uv, t) ensures PosOf(h', uv) < |h'[t].slots| {
      assert OpenList(h, t) && OpenOn(h, uv, t);
    }
    UpvalsKept(h, h', s.uvhead);
  }

  lemma RootsChangeKeepsInv(s: State, r: State)
    requires Inv(s) && r == s.(running := r.running, mt := r.mt)
    requires Alive(s, r.running) && forall o :: Some(o) in r.mt ==> Alive(s, o)
    ensures Inv(r)
  {
    hide StringTable, Upvals, KindColors, MarkInv;
    assert forall o :: Alive(r, o) <==> Alive(s, o);
    forall o | IsRoot(r, o) ensures Alive(r, o) { assert o == r.running || Some(o) in r.mt || IsRoot(s, o); }
    forall o, c | Alive(r, o) && Edge(r.heap, o, c) ensures Alive(r, c) { assert Edge(s.heap, o, c); }
    if s.phase.Propagate? { MarkInvFrame(s, r); }
    assert forall o :: CurrentWhite(s, o) <==> CurrentWhite(r, o);
  }

  lemma MtAlive(s: State, i: nat, v: Option<Id>)
    requires RootsAlive(s) && i < |s.mt| && (v.Some? ==> Alive(s, v.value))
    ensures forall o :: Some(o) in s.mt[i := v] ==> Alive(s, o)
  {
    forall o | Some(o) in s.mt[i := v] ensures Alive(s, o) {
      if v != Some(o) { assert IsRoot(s, o); }
    }
  }

  /** Every action keeps the invariant, and no action frees what is reachable. */
  lemma DoKeepsInv(s: State, a: Action)
    requires Inv(s) && Enabled(s, a)
    ensures Inv(Do(s, a))
    ensures forall o :: Reachable(s, o) ==> o in Do(s, a).heap
  {
    hide Reachable, AliveClosed;
    if a.FullCollect? {
      FullGCExact(s);
    } else {
      DoOtherKeepsInv(s, a);
      forall o | Reachable(s, o) ensures o in Do(s, a).heap { ReachableAlive(s, o); }
    }
  }

  lemma DoOtherKeepsInv(s: State, a: Action)
    requires Inv(s) && Enabled(s, a) && !a.FullCollect?
    ensures Inv(Do(s, a))
    ensures forall o :: Alive(s, o) ==> o in Do(s, a).heap
  {
    hide Shape, KindColors, AliveClosed, PhaseInv, Frees;
    match a
    case Collect => SingleStepKeepsInv(s);
    case NewObject(o, kind) => LinkKeepsInv(s, o, kind);
    case NewUserdata(o) => LinkUserdataKeepsInv(s, o);
    case NewString(ts, bytes) => InternKeepsInv(s, bytes, ts);
    case FixString(ts) => FixKeepsInv(s, ts);
    case SetField(o, i, v) => SetSlotKeepsInv(s, o, i, v);
    case SetUpvalue(uv, v) =>
      UpvalueStorable(s, uv, v);
      SetSlotKeepsInv(s, UpvalueSlot(s, uv).0, UpvalueSlot(s, uv).1, v);
    case SetTop(th, n) => TruncateKeepsInv(s, th, n);
    case OpenUpvalue(th, level, uv) => FindUpvalKeepsInv(s, th, level, uv);
    case CloseUpvalues(th, level) => var _ := CloseKeepsInv(s, th, level);
    case Resume(th) =>
      forall o | Some(o) in s.mt ensures Alive(s, o) { assert IsRoot(s, o); }
      RootsChangeKeepsInv(s, s.(running := th));
    case SetMetatable(i, v) =>
      assert IsRoot(s, s.running);
      MtAlive(s, i, v);
      RootsChangeKeepsInv(s, s.(mt := s.mt[i := v]));
  }

  /** The state a run of actions leads to; an action that is not enabled is not taken. */
  ghost function Run(s: State, acts: seq<Action>): (r: State)
    requires Inv(s)
    ensures Inv(r)
    decreases |acts|
  {
    if acts == [] then s
    else if Enabled(s, acts[0]) then
      DoKeepsInv(s, acts[0]);
      Run(Do(s, acts[0]), acts[1..])
    else Run(s, acts[1..])
  }

  /** Safety: in every run, whatever a root can reach is in the heap, is not dead, and is
      not freed by the next action, whichever that is. */
  lemma NeverFreesReachable(s: State, acts: seq<Action>, next: Action, o: Id)
    requires Inv(s) && Reachable(Run(s, acts), o)
    ensures Alive(Run(s, acts), o)
    ensures Enabled(Run(s, acts), next) ==> o in Do(Run(s, acts), next).heap
  {
    hide Shape, KindColors, PhaseInv, AliveClosed, RootsAlive;
    var r := Run(s, acts);
    ReachableAlive(r, o);
    if Enabled(r, next) { DoKeepsInv(r, next); }
  }

  /** A collector step shows the program nothing: what is reachable stays so, with the same
      contents. */
  lemma CollectIsInvisible(s: State, acts: seq<Action>, o: Id)
    requires Inv(s) && Reachable(Run(s, acts), o)
    ensures var r := Run(s, acts);
      SameContents(r.heap, SingleStep(r).heap, o) && Reachable(SingleStep(r), o)
  {
    hide Shape, KindColors, PhaseInv, AliveClosed, RootsAlive;
    var r := Run(s, acts);
    ReachableAlive(r, o);
    SingleStepKeepsInv(r);
    var p :| IsPath(r, p) && p[|p| - 1] == o;
    PathSurvives(r, SingleStep(r), p);
  }

  /** In every run strings stay interned: equal bytes, same object. */
  lemma InternedInEveryRun(s: State, acts: seq<Action>, o: Id, o': Id)
    requires Inv(s)
    requires var h := Run(s, acts).heap; o in h && o' in h && h[o].kind.String? && h[o'].kind.String?
    ensures var h := Run(s, acts).heap; h[o].bytes == h[o'].bytes <==> o == o'
  {
    var r := Run(s, acts);
    assert Interned(r.heap);
  }

  /** Fixed objects stay, and stay what they are. */
  ghost predicate KeepsFixed(s: State, s': State)
  {
    forall o :: o in s.heap && s.heap[o].fixed ==>
      o in s'.heap && s'.heap[o].kind == s.heap[o].kind && s'.heap[o].bytes == s.heap[o].bytes && s'.heap[o].fixed
  }

  lemma DoKeepsFixed(s: State, a: Action)
    requires Inv(s) && Enabled(s, a)
    ensures KeepsFixed(s, Do(s, a))
  {
    hide Inv, Reachable, SingleStep, FullGC, SetSlot, Close, Fields, FindUpval, Intern, LinkUserdata;
    match a
    case Collect => SingleStepKeepsInv(s);
    case FullCollect => FullGCExact(s);
    case SetField(o, i, v) => SetSlotKeepsInv(s, o, i, v);
    case SetUpvalue(uv, v) =>
      UpvalueStorable(s, uv, v);
      SetSlotKeepsInv(s, UpvalueSlot(s, uv).0, UpvalueSlot(s, uv).1, v);
    case CloseUpvalues(th, level) => var _ := CloseKeepsInv(s, th, level);
    case OpenUpvalue(th, level, uv) => FindKeepsFixed(s, th, level, uv);
    case NewString(ts, bytes) =>
      InternKeepsInv(s, bytes, ts);
      InternKeepsFixed(s, bytes, ts);
    case NewUserdata(o) =>
      LinkUserdataKeepsInv(s, o);
      UserdataKeepsFixed(s, o);
    case _ =>
  }

  lemma FindKeepsFixed(s: State, th: Id, level: nat, uv: Id)
    requires th in s.heap && uv !in s.heap
    ensures KeepsFixed(s, FindUpval(s, th, level, uv).0)
  {
  }

  lemma InternKeepsFixed(s: State, bytes: seq<bv8>, ts: Id)
    requires |s.strt| > 0 && ts !in s.heap
    ensures KeepsFixed(s, Intern(s, bytes, ts).0)
  {
  }

  lemma UserdataKeepsFixed(s: State, o: Id)
    requires s.mainthread in s.rootgc && o !in s.heap
    ensures KeepsFixed(s, LinkUserdata(s, o))
  {
  }

  /** What luaS_fix fixed is never collected: in every run it is there, the same string. */
  lemma {:induction false} FixedStays(s: State, acts: seq<Action>)
    requires Inv(s)
    ensures KeepsFixed(s, Run(s, acts))
    decreases |acts|
  {
    hide Inv, Enabled, Do;
    if acts != [] {
      if Enabled(s, acts[0]) {
        DoKeepsInv(s, acts[0]);
        DoKeepsFixed(s, acts[0]);
        FixedStays(Do(s, acts[0]), acts[1..]);
      } else {
        FixedStays(s, acts[1..]);
      }
    }
  }
}

/** The invariant of the whole collector, in every phase and between any two steps. */
module GcInvariant {
  import opened Base
  import opened GcHeap
  import opened GcMark

  /** The hash loop of luaS_newlstr over the bytes, on 32-bit unsigned words. */
  function HashFrom(bytes: seq<bv8>, l1: nat, step: nat, h: bv32): bv32
    requires l1 <= |bytes| && step > 0
    decreases l1
  {
    if l1 < step then h
    else HashFrom(bytes, l1 - step, step, h ^ ((h << 5) + (h >> 2) + (bytes[l1 - 1] as bv32)))
  }

  /** The hash of a string and the bucket it belongs to in a table of `size` buckets. */
  function Bucket(bytes: seq<bv8>, size: nat): (b: nat)
    requires size > 0
    ensures b < size
  {
    var h := HashFrom(bytes, |bytes|, |bytes| / 32 + 1, (|bytes| % 0x1_0000_0000) as bv32);
    (h as int) % size
  }

  predicate InRootList(x: Obj) { !x.kind.String? && x.home.None? }

  ghost predicate RootList(s: State)
  {
    && Distinct(s.rootgc)
    && (forall o :: o in s.rootgc <==> o in s.heap && InRootList(s.heap[o]))
    && s.sweepgc <= |s.rootgc|
  }

  /** Each string is in the one bucket its hash selects, and no two strings have the same
      bytes. */
  ghost predicate StringTable(h: Heap, strt: seq<seq<Id>>)
  {
    && |strt| > 0
    && (forall i :: 0 <= i < |strt| ==> Distinct(strt[i]))
    && (forall i, o :: 0 <= i < |strt| && o in strt[i] ==>
       o in h && h[o].kind.String? && Bucket(h[o].bytes, |strt|) == i)
    && (forall o :: o in h && h[o].kind.String? ==> o in strt[Bucket(h[o].bytes, |strt|)])
    && Interned(h)
  }

  ghost predicate Interned(h: Heap)
  {
    forall o, o' :: o in h && o' in h && h[o].kind.String? && h[o'].kind.String? && h[o].bytes == h[o'].bytes ==>
      o == o'
  }

  predicate OpenOn(h: Heap, uv: Id, th: Id)
  {
    uv in h && h[uv].home.Some? && h[uv].home.value.thread == th
  }

  /** The stack position of an open upvalue. */
  function PosOf(h: Heap, uv: Id): int
  {
    if IsOpen(h, uv) then h[uv].home.value.pos else -1
  }

  /** The open upvalues of a thread, strictly descending by stack slot, one per slot. */
  ghost predicate OpenList(h: Heap, th: Id)
    requires th in h
  {
    var l := h[th].openupval;
    && (forall uv :: uv in l <==> OpenOn(h, uv, th))
    && (forall uv :: uv in l ==> PosOf(h, uv) < |h[th].slots|)
    && (forall i, j :: 0 <= i < j < |l| ==> PosOf(h, l[i]) > PosOf(h, l[j]))
  }

  /** A thread whose own fields and open upvalues stay as they are keeps its list. */
  lemma SameList(h: Heap, h': Heap, th: Id)
    requires th in h && OpenList(h, th) && th in h' && h'[th] == h[th]
    requires forall x :: OpenOn(h', x, th) <==> OpenOn(h, x, th)
    requires forall x :: OpenOn(h, x, th) ==> PosOf(h', x) == PosOf(h, x)
    ensures OpenList(h', th)
  {
    var l := h[th].openupval;
    forall i | 0 <= i < |l| ensures PosOf(h', l[i]) == PosOf(h, l[i]) {
      var x := l[i];
      assert x in l && OpenOn(h, x, th);
    }
  }

  ghost predicate Upvals(h: Heap, uvhead: seq<Id>)
  {
    && (forall o :: o in h && h[o].kind.Thread? ==> OpenList(h, o))
    && (forall o :: IsOpen(h, o) ==>
       h[o].kind.Upval? && h[o].home.value.thread in h && h[h[o].home.value.thread].kind.Thread?)
    && Distinct(uvhead)
    && (forall o :: o in uvhead <==> IsOpen(h, o))
  }

  /** A thread's first open upvalue. */
  lemma OpenFacts(h: Heap, uvhead: seq<Id>, th: Id)
    requires Upvals(h, uvhead) && th in h && h[th].kind.Thread? && h[th].openupval != []
    ensures var uv := h[th].openupval[0];
      && OpenOn(h, uv, th) && uv != th && h[uv].kind.Upval? && uv in uvhead
      && h[uv].home.value.pos < |h[th].slots|
  {
    assert OpenList(h, th);
    var uv := h[th].openupval[0];
    assert uv in h[th].openupval;
    assert IsOpen(h, uv);
    assert PosOf(h, uv) == h[uv].home.value.pos;
  }

  lemma UpvalHomes(h: Heap, uvhead: seq<Id>)
    requires Upvals(h, uvhead)
    ensures forall o :: IsOpen(h, o) ==>
      h[o].kind.Upval? && h[o].home.value.thread in h && h[h[o].home.value.thread].kind.Thread?
  {
  }

  ghost predicate Kinds(s: State)
  {
    && (forall o :: o in s.heap && s.heap[o].kind.String? ==> s.heap[o].slots == [] && s.heap[o].home.None?)
    && (forall o :: o in s.heap && s.heap[o].fixed ==> s.heap[o].kind.String? || o == s.mainthread)
    && s.mainthread in s.heap && s.heap[s.mainthread].kind.Thread? && s.heap[s.mainthread].home.None?
  }

  ghost predicate Shape(s: State)
  {
    RootList(s) && StringTable(s.heap, s.strt) && Upvals(s.heap, s.uvhead) && Kinds(s)
  }

  lemma ShapeFacts(s: State)
    requires Shape(s)
    ensures s.sweepgc <= |s.rootgc| && |s.strt| > 0 && s.mainthread in s.heap
    ensures forall o :: o in s.heap && s.heap[o].home.Some? ==> o in s.uvhead
    ensures forall o :: o in s.heap && s.heap[o].kind.String? ==> s.heap[o].slots == []
  {
    assert forall o :: o in s.heap && s.heap[o].home.Some? ==> IsOpen(s.heap, o);
  }

  /** What is not dead refers only to what is there and not dead. */
  ghost predicate AliveClosed(s: State)
  {
    forall o, c :: Alive(s, o) && Edge(s.heap, o, c) ==> Alive(s, c)
  }

  ghost predicate RootsAlive(s: State) { forall o :: IsRoot(s, o) ==> Alive(s, o) }

  predicate SameRoots(s: State, s': State)
  {
    s'.mainthread == s.mainthread && s'.running == s.running && s'.registry == s.registry && s'.mt == s.mt
  }

  lemma RootsKept(s: State, s': State)
    requires RootsAlive(s) && SameRoots(s, s')
    requires forall o :: Alive(s, o) ==> Alive(s', o)
    ensures RootsAlive(s')
  {
    forall o | IsRoot(s', o) ensures Alive(s', o) { assert IsRoot(s, o); }
  }

  /** What a program can see of an object. */
  ghost predicate SameContents(h: Heap, h': Heap, o: Id)
  {
    && o in h && o in h' && h'[o].kind == h[o].kind && h'[o].bytes == h[o].bytes && h'[o].fixed == h[o].fixed
    && Fields(h', o) == Fields(h, o)
  }

  /** `s'` is `s` with dead objects freed: what is not dead stays, with its contents. */
  ghost predicate Frees(s: State, s': State)
  {
    && s'.white == s.white && SameRoots(s, s')
    && (forall o :: o in s'.heap ==> SameContents(s.heap, s'.heap, o))
    && (forall o :: Alive(s, o) ==> Alive(s', o))
    && (forall o :: Alive(s', o) ==> Alive(s, o) || (s'.heap[o].fixed && Fields(s'.heap, o) == []))
    && (forall o :: o in s.heap && s.heap[o].fixed ==> o in s'.heap)
  }

  lemma FreesTrans(s: State, s1: State, s2: State)
    requires Frees(s, s1) && Frees(s1, s2)
    ensures Frees(s, s2)
  {
  }

  lemma FreesKeepsAlive(s: State, s': State)
    requires AliveClosed(s) && RootsAlive(s) && Frees(s, s')
    ensures AliveClosed(s') && RootsAlive(s')
  {
    RootsKept(s, s');
    forall o, c | Alive(s', o) && Edge(s'.heap, o, c) ensures Alive(s', c) { assert Edge(s.heap, o, c); }
  }

  ghost predicate CurrentWhite(s: State, o: Id) { o in s.heap && s.heap[o].color == White(s.white) }

  /** Buckets below `sweepstrgc` are swept. */
  ghost predicate StringsSwept(s: State, n: nat)
  {
    forall i, o :: 0 <= i < n && i < |s.strt| && o in s.strt[i] ==> CurrentWhite(s, o)
  }

  /** The part of `rootgc` before the sweep position is swept, with the open upvalues of
      its threads. */
  ghost predicate RootsSwept(s: State)
  {
    && s.sweepgc <= |s.rootgc|
    && (forall o :: o in s.rootgc[..s.sweepgc] ==> CurrentWhite(s, o))
    && (forall uv :: IsOpen(s.heap, uv) && s.heap[uv].home.value.thread in s.rootgc[..s.sweepgc] ==>
       CurrentWhite(s, uv))
  }

  ghost predicate PhaseInv(s: State)
  {
    match s.phase
    case Pause => forall o :: o in s.heap ==> CurrentWhite(s, o)
    case Finalize => forall o :: o in s.heap ==> CurrentWhite(s, o)
    case Propagate => MarkInv(s) && NonWhite(s.heap, s.mainthread) && NonWhite(s.heap, s.registry)
    case SweepString => s.sweepstrgc < |s.strt| && StringsSwept(s, s.sweepstrgc) && s.sweepgc == 0
    case Sweep => StringsSwept(s, |s.strt|) && RootsSwept(s)
  }

  ghost predicate Inv(s: State)
  {
    Shape(s) && KindColors(s.heap) && AliveClosed(s) && RootsAlive(s) && PhaseInv(s)
  }

  /** Nothing reachable is dead. */
  lemma {:induction false} PathAlive(s: State, p: seq<Id>)
    requires AliveClosed(s) && RootsAlive(s) && IsPath(s, p)
    ensures Alive(s, p[|p| - 1])
  {
    if |p| > 1 {
      var q := p[..|p| - 1];
      assert forall i :: 0 < i < |q| ==> Edge(s.heap, q[i - 1], q[i]) by {
        forall i | 0 < i < |q| ensures Edge(s.heap, q[i - 1], q[i]) { assert q[i - 1] == p[i - 1] && q[i] == p[i]; }
      }
      PathAlive(s, q);
      assert Edge(s.heap, p[|p| - 2], p[|p| - 1]);
    }
  }

  lemma ReachableAlive(s: State, o: Id)
    requires AliveClosed(s) && RootsAlive(s) && Reachable(s, o)
    ensures Alive(s, o)
  {
    var p :| IsPath(s, p) && p[|p| - 1] == o;
    PathAlive(s, p);
  }

  /** Away from marking, only colours, homes and lists matter for the phase. */
  lemma PhaseKept(s: State, r: State)
    requires PhaseInv(s) && !s.phase.Propagate? && r == s.(heap := r.heap) && r.heap.Keys == s.heap.Keys
    requires forall o :: o in s.heap ==> r.heap[o].color == s.heap[o].color && r.heap[o].home == s.heap[o].home
    ensures PhaseInv(r)
  {
    assert forall o :: CurrentWhite(s, o) ==> CurrentWhite(r, o);
    assert forall o :: IsOpen(r.heap, o) ==> IsOpen(s.heap, o) && r.heap[o].home == s.heap[o].home;
  }

  lemma ColorsKept(h: Heap, h': Heap)
    requires KindColors(h) && h'.Keys == h.Keys
    requires forall o :: o in h ==> h'[o].color == h[o].color && h'[o].home == h[o].home && h'[o].kind == h[o].kind
    ensures KindColors(h')
  {
    forall o | o in h' ensures KindColor(h'[o]) { assert KindColor(h[o]); }
  }

  ghost predicate SameStrings(h: Heap, h': Heap)
  {
    && (forall o :: o in h && h[o].kind.String? ==> o in h' && h'[o].kind.String? && h'[o].bytes == h[o].bytes)
    && (forall o :: o in h' && h'[o].kind.String? ==> o in h && h[o].kind.String?)
  }

  lemma StringTableKept(h: Heap, h': Heap, strt: seq<seq<Id>>)
    requires StringTable(h, strt) && SameStrings(h, h')
    ensures StringTable(h', strt)
  {
    hide Bucket;
    forall o | o in h' && h'[o].kind.String? ensures o in strt[Bucket(h'[o].bytes, |strt|)] {
      assert h'[o].bytes == h[o].bytes;
    }
  }

  /** Same open upvalues on the same threads, with no stack cut below one of them. */
  ghost predicate SameOpen(h: Heap, h': Heap)
  {
    && (forall o :: IsOpen(h, o) ==> o in h' && h'[o].home == h[o].home && h'[o].kind == h[o].kind)
    && (forall o :: IsOpen(h', o) ==> IsOpen(h, o))
    && (forall o :: o in h && h[o].kind.Thread? ==> o in h' && h'[o].kind.Thread? && h'[o].openupval == h[o].openupval)
    && (forall o :: o in h' && h'[o].kind.Thread? ==> o in h && h[o].kind.Thread?)
    && (forall th, uv :: th in h' && h'[th].kind.Thread? && OpenOn(h', uv, th) ==> PosOf(h', uv) < |h'[th].slots|)
  }

  lemma UpvalsKept(h: Heap, h': Heap, uvhead: seq<Id>)
    requires Upvals(h, uvhead) && SameOpen(h, h')
    ensures Upvals(h', uvhead)
  {
    assert forall uv :: PosOf(h', uv) == PosOf(h, uv);
    forall o | o in h' && h'[o].kind.Thread? ensures OpenList(h', o) {
      assert OpenList(h, o);
      assert forall uv :: OpenOn(h', uv, o) <==> OpenOn(h, uv, o);
    }
  }

  /** Recolouring does not touch the lists. */
  lemma ShapeKept(s: State, s': State)
    requires Shape(s) && SameShape(s.heap, s'.heap)
    requires s'.rootgc == s.rootgc && s'.strt == s.strt && s'.uvhead == s.uvhead && s'.mainthread == s.mainthread
    requires s'.sweepgc <= |s'.rootgc|
    ensures Shape(s')
  {
    assert SameStrings(s.heap, s'.heap);
    StringTableKept(s.heap, s'.heap, s.strt);
    forall th, uv | th in s'.heap && s'.heap[th].kind.Thread? && OpenOn(s'.heap, uv, th)
      ensures PosOf(s'.heap, uv) < |s'.heap[th].slots|
    {
      assert OpenList(s.heap, th) && OpenOn(s.heap, uv, th);
    }
    assert SameOpen(s.heap, s'.heap);
    UpvalsKept(s.heap, s'.heap, s.uvhead);
  }
}

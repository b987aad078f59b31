/** What a program's actions do to the heap, as the program sees it, and that a collection respects it. */
module GcStore {
  import opened Base
  import opened GcHeap
  import opened GcMark
  import opened GcInvariant
  import opened GcUpval
  import opened GcMutator
  import opened GcAlloc
  import opened GcStep
  import opened GcFull
  import opened GcRun

  /** The open upvalues of a slot and its thread: what shows a store to the slot. */
  predicate Shows(h: Heap, x: Id, o: Id, i: nat) { x == o || (x in h && h[x].home == Some(Slot(o, i))) }

  /** An open upvalue is on the stack of its thread. */
  predicate Inside(h: Heap, x: Id, o: Id)
    requires x in h && o in h
  {
    h[x].home.Some? && h[x].home.value.thread == o ==> h[x].home.value.pos < |h[o].slots|
  }

  /** A store to slot `i` of `o` is seen in `o` and through the upvalues of the slot, and nowhere else. */
  lemma StoreSeen(s: State, o: Id, i: nat, v: Option<Id>, r: State, x: Id)
    requires Stored(s, o, i, v, r) && s.heap[o].home.None? && x in s.heap
    ensures Shows(s.heap, x, o, i) ==> v in Fields(r.heap, x)
    ensures !Shows(s.heap, x, o, i) && Inside(s.heap, x, o) ==> Fields(r.heap, x) == Fields(s.heap, x)
  {
    if x == o { assert r.heap[o].slots[i] == v; }
  }

  /** The first object of a path that shows the slot. */
  lemma {:induction false} FirstShown(s: State, p: seq<Id>, o: Id, i: nat) returns (n: nat)
    requires IsPath(s, p) && p[|p| - 1] == o
    ensures n < |p| && Shows(s.heap, p[n], o, i) && forall k :: 0 <= k < n ==> !Shows(s.heap, p[k], o, i)
  {
    n := 0;
    while !Shows(s.heap, p[n], o, i)
      invariant n < |p| && forall k :: 0 <= k < n ==> !Shows(s.heap, p[k], o, i)
      decreases |p| - n
    {
      n := n + 1;
    }
  }

  lemma HomesInside(s: State, o: Id, x: Id)
    requires Inv(s) && x in s.heap && o in s.heap
    ensures Inside(s.heap, x, o)
  {
    hide StringTable, AliveClosed, PhaseInv, KindColors;
    if s.heap[x].home.Some? {
      assert IsOpen(s.heap, x);
      var th := s.heap[x].home.value.thread;
      assert OpenList(s.heap, th) && OpenOn(s.heap, x, th);
    }
  }

  /** What is stored into something reachable is reachable, whatever the store overwrote, */
  lemma StoredReachable(s: State, o: Id, i: nat, c: Id)
    requires Inv(s) && Storable(s, o, i, Some(c)) && Reachable(s, o)
    ensures Reachable(SetSlot(s, o, i, Some(c)), c)
  {
    hide Inv, SetSlot;
    var r := SetSlot(s, o, i, Some(c));
    SetSlotKeepsInv(s, o, i, Some(c));
    var p :| IsPath(s, p) && p[|p| - 1] == o;
    var n := FirstShown(s, p, o, i);
    var q := p[..n + 1] + [c];
    forall k | 0 < k < |q| ensures Edge(r.heap, q[k - 1], q[k]) {
      if k <= n {
        assert Edge(s.heap, p[k - 1], p[k]);
        HomesInside(s, o, p[k - 1]);
        StoreSeen(s, o, i, Some(c), r, p[k - 1]);
      } else {
        assert p[n] in s.heap by { if n > 0 { PathThere(s, p, n); } else { RootThere(s, p[0]); } }
        StoreSeen(s, o, i, Some(c), r, p[n]);
      }
    }
    assert IsPath(r, q) && q[|q| - 1] == c;
  }

  lemma PathThere(s: State, p: seq<Id>, n: nat)
    requires Inv(s) && IsPath(s, p) && 0 < n < |p|
    ensures p[n] in s.heap
  {
    hide Shape, KindColors, PhaseInv, AliveClosed, RootsAlive;
    var q := p[..n + 1];
    assert IsPath(s, q) by {
      forall k | 0 < k < |q| ensures Edge(s.heap, q[k - 1], q[k]) { assert q[k - 1] == p[k - 1] && q[k] == p[k]; }
    }
    PathAlive(s, q);
  }

  lemma RootThere(s: State, o: Id)
    requires Inv(s) && IsRoot(s, o)
    ensures o in s.heap
  {
    assert Alive(s, o);
  }

  /** and a full collection keeps it. */
  lemma StoredSurvives(s: State, o: Id, i: nat, c: Id)
    requires Inv(s) && Storable(s, o, i, Some(c)) && Reachable(s, o)
    ensures var r := SetSlot(s, o, i, Some(c)); Inv(r) && c in FullGC(r).heap && SameContents(r.heap, FullGC(r).heap, c)
  {
    hide Inv, SetSlot, FullGC, Reachable;
    StoredReachable(s, o, i, c);
    SetSlotKeepsInv(s, o, i, Some(c));
    FullGCExact(SetSlot(s, o, i, Some(c)));
  }

  /** An upvalue shows what was last stored through it, open or closed. */
  lemma UpvalueStores(s: State, uv: Id, v: Option<Id>)
    requires Inv(s) && Enabled(s, SetUpvalue(uv, v))
    ensures var r := Do(s, SetUpvalue(uv, v)); uv in r.heap && |Fields(r.heap, uv)| > 0 && Fields(r.heap, uv)[0] == v
  {
    hide Inv, SetSlot;
    UpvalueStorable(s, uv, v);
    var (o, i) := UpvalueSlot(s, uv);
    SetSlotKeepsInv(s, o, i, v);
    HomesInside(s, o, uv);
  }

  /** What the other actions of a program do. */
  lemma ActionMeans(s: State, a: Action)
    requires Inv(s) && Enabled(s, a)
    ensures a.NewObject? ==> var r := Do(s, a).heap;
      && r.Keys == s.heap.Keys + {a.o} && r[a.o].kind == a.kind && r[a.o].slots == []
      && forall x :: x in s.heap ==> r[x] == s.heap[x]
    ensures a.SetField? ==> Stored(s, a.o, a.i, a.v, Do(s, a))
    ensures a.SetTop? ==> var r := Do(s, a).heap;
      && r.Keys == s.heap.Keys && |r[a.th].slots| == a.n
      && (forall j :: 0 <= j < a.n ==> r[a.th].slots[j] == s.heap[a.th].slots[j])
    ensures a.Resume? ==> Do(s, a).running == a.th && Do(s, a).heap == s.heap && Do(s, a).mt == s.mt
    ensures a.SetMetatable? ==> var r := Do(s, a);
      && |r.mt| == |s.mt| && r.mt[a.i] == a.v && r.heap == s.heap
      && (forall j :: 0 <= j < |s.mt| && j != a.i ==> r.mt[j] == s.mt[j])
    ensures a.FixString? ==> var r := Do(s, a).heap;
      r.Keys == s.heap.Keys && r[a.ts].fixed && r[a.ts].bytes == s.heap[a.ts].bytes
  {
    hide Inv, SetSlot, SingleStep, FullGC;
    if a.SetField? { SetSlotKeepsInv(s, a.o, a.i, a.v); }
  }
}

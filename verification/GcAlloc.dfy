/** Allocation: luaC_link, luaS_newudata, luaS_newlstr and luaF_findupval. */
module GcAlloc {
  import opened Base
  import opened GcHeap
  import opened GcMark
  import opened GcInvariant
  import opened GcUpval
  import opened GcStrings
  import opened GcMutator

  function NewObj(s: State, kind: Kind): Obj { Obj(kind, White(s.white), false, [], None, [], []) }

  /** luaC_link of a new object. */
  function Link(s: State, o: Id, kind: Kind): State
  {
    LinkFront(s.(heap := s.heap[o := NewObj(s, kind)]), o)
  }

  /** The position of an object in a list. */
  function IndexOf(l: seq<Id>, o: Id): (i: nat)
    requires o in l
    ensures i < |l| && l[i] == o
  {
    if l[0] == o then 0 else 1 + IndexOf(l[1..], o)
  }

  /** luaS_newudata: chained right after the main thread. */
  function LinkUserdata(s: State, o: Id): State
    requires s.mainthread in s.rootgc
  {
    var k := IndexOf(s.rootgc, s.mainthread) + 1;
    s.(heap := s.heap[o := NewObj(s, Userdata)], rootgc := s.rootgc[..k] + [o] + s.rootgc[k..],
       sweepgc := if s.sweepgc > k then s.sweepgc + 1 else s.sweepgc)
  }

  /** A new object that is current white and has no references breaks nothing. */
  ghost predicate Adds(s: State, s': State, o: Id)
  {
    && o !in s.heap && o in s'.heap && s'.heap == s.heap[o := s'.heap[o]]
    && s'.heap[o].color == White(s.white) && !s'.heap[o].fixed
    && s'.white == s.white && s'.phase == s.phase && SameRoots(s, s') && s'.gray == s.gray
    && s'.grayagain == s.grayagain
  }

  lemma AddsFields(s: State, s': State, o: Id)
    requires Adds(s, s', o)
    requires forall x :: IsOpen(s.heap, x) ==> s.heap[x].home.value.thread in s.heap
    ensures forall x :: x in s.heap ==> Fields(s'.heap, x) == Fields(s.heap, x)
    ensures forall x, c :: Edge(s'.heap, x, c) && x != o ==> Edge(s.heap, x, c)
  {
    forall x | x in s.heap ensures Fields(s'.heap, x) == Fields(s.heap, x) {
      if s.heap[x].home.Some? { assert IsOpen(s.heap, x); }
    }
  }

  lemma AddsAlive(s: State, s': State, o: Id)
    requires Adds(s, s', o) && AliveClosed(s) && RootsAlive(s)
    requires forall x :: IsOpen(s.heap, x) ==> s.heap[x].home.value.thread in s.heap
    requires forall c :: Edge(s'.heap, o, c) ==> Alive(s, c)
    ensures AliveClosed(s') && RootsAlive(s')
  {
    AddsFields(s, s', o);
    RootsKept(s, s');
    forall x, c | Alive(s', x) && Edge(s'.heap, x, c) ensures Alive(s', c) {
      if x != o { assert Edge(s.heap, x, c) && Alive(s, x); }
    }
  }

  lemma AddsMarking(s: State, s': State, o: Id)
    requires Adds(s, s', o) && MarkInv(s) && KindColor(s'.heap[o])
    requires forall x :: IsOpen(s.heap, x) ==> s.heap[x].home.value.thread in s.heap
    requires forall c :: Edge(s'.heap, o, c) ==> c in s.heap
    ensures MarkInv(s')
  {
    AddsFields(s, s', o);
    forall x, c | x in s'.heap && s'.heap[x].color == Black && Edge(s'.heap, x, c) ensures NonWhite(s'.heap, c) {
      assert Edge(s.heap, x, c);
    }
    forall x, c | Edge(s'.heap, x, c) ensures c in s'.heap { if x != o { assert Edge(s.heap, x, c); } }
    forall x | x in s'.heap ensures KindColor(s'.heap[x]) { if x != o { assert KindColor(s.heap[x]); } }
  }

  /** Everything but the lists, for any allocation. */
  lemma AddsKeepsInv(s: State, s': State, o: Id)
    requires Inv(s) && Adds(s, s', o) && Shape(s') && KindColor(s'.heap[o])
    requires forall c :: Edge(s'.heap, o, c) ==> Alive(s, c)
    requires !s.phase.Propagate? ==> PhaseInv(s')
    ensures Inv(s')
  {
    hide StringTable, Upvals, RootList, Kinds, GrayLists, NoBlackToWhite, Closed;
    UpvalHomes(s.heap, s.uvhead);
    AddsAlive(s, s', o);
    if s.phase.Propagate? { AddsMarking(s, s', o); }
    forall x | x in s'.heap ensures KindColor(s'.heap[x]) { if x != o { assert KindColor(s.heap[x]); } }
  }

  lemma AddsUpvals(s: State, s': State, o: Id)
    requires Adds(s, s', o) && Upvals(s.heap, s.uvhead) && s'.heap[o].home.None? && s'.heap[o].openupval == []
    ensures Upvals(s'.heap, s.uvhead)
  {
    var h, h' := s.heap, s'.heap;
    assert forall x :: IsOpen(h', x) <==> IsOpen(h, x);
    assert forall x :: PosOf(h', x) == PosOf(h, x);
    forall x | x in h' && h'[x].kind.Thread? ensures OpenList(h', x) {
      if x != o {
        assert forall uv :: OpenOn(h', uv, x) <==> OpenOn(h, uv, x);
        SameList(h, h', x);
      } else {
        forall uv ensures !OpenOn(h', uv, o) { assert OpenOn(h', uv, o) ==> IsOpen(h, uv); }
      }
    }
  }

  lemma LinkKeepsInv(s: State, o: Id, kind: Kind)
    requires Inv(s) && o !in s.heap && !kind.String?
    ensures Inv(Link(s, o, kind)) && Alive(Link(s, o, kind), o)
  {
    hide StringTable, Upvals, AliveClosed, KindColors, MarkInv;
    var r := Link(s, o, kind);
    assert Adds(s, r, o);
    AddsUpvals(s, r, o);
    assert SameStrings(s.heap, r.heap);
    StringTableKept(s.heap, r.heap, s.strt);
    assert o !in s.rootgc;
    if !s.phase.Propagate? { LinkSwept(s, o, r); }
    AddsKeepsInv(s, r, o);
  }

  lemma LinkSwept(s: State, o: Id, r: State)
    requires PhaseInv(s) && !s.phase.Propagate? && Adds(s, r, o) && r.heap[o].home.None? && Upvals(s.heap, s.uvhead)
    requires r == LinkFront(s.(heap := r.heap), o)
    ensures PhaseInv(r)
  {
    hide Upvals;
    UpvalHomes(s.heap, s.uvhead);
    assert forall x :: CurrentWhite(s, x) ==> CurrentWhite(r, x);
    assert forall x :: IsOpen(r.heap, x) ==> IsOpen(s.heap, x) && r.heap[x] == s.heap[x];
    if s.phase.Sweep? { LinkedSwept(s, r, o); }
  }

  lemma InsertDistinct(l: seq<Id>, k: nat, o: Id)
    requires Distinct(l) && k <= |l| && o !in l
    ensures Distinct(l[..k] + [o] + l[k..])
    ensures forall x :: x in l[..k] + [o] + l[k..] <==> x == o || x in l
  {
    InsertMembers(l, k, o);
    var r := l[..k] + [o] + l[k..];
    forall i, j | 0 <= i < j < |r| ensures r[i] != r[j] {
      assert r[i] == if i < k then l[i] else if i == k then o else l[i - 1];
      assert r[j] == if j < k then l[j] else if j == k then o else l[j - 1];
    }
  }

  lemma InsertMembers(l: seq<Id>, k: nat, o: Id)
    requires k <= |l|
    ensures forall x :: x in l[..k] + [o] + l[k..] <==> x == o || x in l
  {
    assert l == l[..k] + l[k..];
  }

  lemma LinkUserdataKeepsInv(s: State, o: Id)
    requires Inv(s) && o !in s.heap
    ensures s.mainthread in s.rootgc && Inv(LinkUserdata(s, o)) && Alive(LinkUserdata(s, o), o)
  {
    hide StringTable, Upvals, AliveClosed, KindColors, MarkInv, Shape, IndexOf;
    UserdataShape(s, o);
    var r := LinkUserdata(s, o);
    if !s.phase.Propagate? {
      assert Upvals(s.heap, s.uvhead) by { ShapeUpvals(s); }
      UserdataSwept(s, o, r);
    }
    AddsKeepsInv(s, r, o);
  }

  lemma ShapeUpvals(s: State)
    requires Shape(s)
    ensures Upvals(s.heap, s.uvhead)
  {
    hide StringTable, Upvals;
  }

  lemma UserdataShape(s: State, o: Id)
    requires Shape(s) && o !in s.heap
    ensures s.mainthread in s.rootgc && Adds(s, LinkUserdata(s, o), o) && Shape(LinkUserdata(s, o))
  {
    hide StringTable, Upvals, IndexOf;
    assert s.mainthread in s.rootgc;
    var r := LinkUserdata(s, o);
    assert Adds(s, r, o);
    AddsUpvals(s, r, o);
    assert SameStrings(s.heap, r.heap);
    StringTableKept(s.heap, r.heap, s.strt);
    InsertDistinct(s.rootgc, IndexOf(s.rootgc, s.mainthread) + 1, o);
  }

  lemma UserdataSwept(s: State, o: Id, r: State)
    requires PhaseInv(s) && !s.phase.Propagate? && Adds(s, r, o) && r.heap[o].home.None? && Upvals(s.heap, s.uvhead)
    requires s.mainthread in s.rootgc && r == LinkUserdata(s, o)
    ensures PhaseInv(r)
  {
    hide Upvals;
    UpvalHomes(s.heap, s.uvhead);
    assert forall x :: CurrentWhite(s, x) ==> CurrentWhite(r, x);
    assert forall x :: IsOpen(r.heap, x) ==> IsOpen(s.heap, x) && r.heap[x] == s.heap[x];
    if s.phase.Sweep? {
      var k := IndexOf(s.rootgc, s.mainthread) + 1;
      if s.sweepgc > k {
        assert r.rootgc[..r.sweepgc] == s.rootgc[..k] + [o] + s.rootgc[k..s.sweepgc];
        assert forall x :: x in s.rootgc[..k] ==>
          x in s.rootgc[..s.sweepgc] by { assert s.rootgc[..k] <= s.rootgc[..s.sweepgc]; }
        assert forall x :: x in s.rootgc[k..s.sweepgc] ==> x in s.rootgc[..s.sweepgc];
      } else {
        assert r.rootgc[..r.sweepgc] == s.rootgc[..s.sweepgc];
      }
    }
  }

  /** Making a dead object current white again. */
  lemma ResurrectKeepsInv(s: State, o: Id)
    requires Inv(s) && IsDead(s, o) && forall c :: Edge(s.heap, o, c) ==> Alive(s, c)
    ensures Inv(s.(heap := Recolor(s.heap, o, White(s.white))))
  {
    hide Shape, MarkInv;
    var r := s.(heap := Recolor(s.heap, o, White(s.white)));
    ShapeFacts(s);
    ShapeKept(s, r);
    SameShapeFields(s.heap, r.heap);
    RootsKept(s, r);
    forall x, c | Alive(r, x) && Edge(r.heap, x, c) ensures Alive(r, c) {
      assert Edge(s.heap, x, c);
      if x != o { assert Alive(s, x); }
    }
    forall x | x in r.heap ensures KindColor(r.heap[x]) { assert KindColor(s.heap[x]); }
    assert !s.phase.Propagate? by { MarkNoDead(s); }
    assert forall x :: CurrentWhite(s, x) ==> CurrentWhite(r, x);
    assert forall x :: IsOpen(r.heap, x) ==> IsOpen(s.heap, x) && r.heap[x].home == s.heap[x].home;
  }

  lemma MarkNoDead(s: State)
    ensures MarkInv(s) ==> forall o :: !IsDead(s, o)
  {
  }

  /** A new string, in its bucket. */
  lemma AddStringKeepsInv(s: State, bytes: seq<bv8>, ts: Id)
    requires Inv(s) && ts !in s.heap
    requires forall o :: o in s.heap && s.heap[o].kind.String? ==> s.heap[o].bytes != bytes
    ensures |s.strt| > 0
    ensures var b := Bucket(bytes, |s.strt|);
      Inv(s.(heap := s.heap[ts := NewStringObj(s, bytes)], strt := s.strt[b := [ts] + s.strt[b]]))
  {
    hide StringTable, Upvals, AliveClosed, KindColors, MarkInv;
    ShapeFacts(s);
    var b := Bucket(bytes, |s.strt|);
    var r := s.(heap := s.heap[ts := NewStringObj(s, bytes)], strt := s.strt[b := [ts] + s.strt[b]]);
    assert Adds(s, r, ts);
    AddString(s, bytes, ts);
    AddsUpvals(s, r, ts);
    assert ts !in s.rootgc;
    if !s.phase.Propagate? { StringSwept(s, ts, r, b); }
    AddsKeepsInv(s, r, ts);
  }

  lemma StringSwept(s: State, ts: Id, r: State, b: nat)
    requires PhaseInv(s) && !s.phase.Propagate? && Adds(s, r, ts) && r.heap[ts].home.None? && b < |s.strt|
    requires r == s.(heap := r.heap, strt := s.strt[b := [ts] + s.strt[b]])
    ensures PhaseInv(r)
  {
    assert forall x :: CurrentWhite(s, x) ==> CurrentWhite(r, x);
    assert forall x :: IsOpen(r.heap, x) ==> IsOpen(s.heap, x) && r.heap[x] == s.heap[x];
    forall i, o | 0 <= i < |s.strt| && o in r.strt[i] ensures o == ts || o in s.strt[i] {}
  }

  /** luaS_resize moves strings between buckets only. */
  lemma ResizeKeepsInv(s: State, n: nat)
    requires Inv(s) && n > 0
    ensures Inv(ResizeStrings(s, n))
  {
    hide Upvals, AliveClosed, KindColors;
    ResizeKeepsTable(s, n);
    var r := ResizeStrings(s, n);
    assert AliveClosed(r) && RootsAlive(r) by { FreesOf(s, r); }
    if s.phase.Propagate? { assert MarkInv(r) by { MarkFrame(s, r); } }
    if s.phase.Sweep? {
      StringsWhite(s);
      forall i, o | 0 <= i < |r.strt| && o in r.strt[i] ensures CurrentWhite(r, o) { assert CurrentWhite(s, o); }
      assert forall x :: CurrentWhite(s, x) ==> CurrentWhite(r, x);
    }
  }

  lemma StringsWhite(s: State)
    requires StringTable(s.heap, s.strt) && StringsSwept(s, |s.strt|)
    ensures forall o :: o in s.heap && s.heap[o].kind.String? ==> CurrentWhite(s, o)
  {
    forall o | o in s.heap && s.heap[o].kind.String? ensures CurrentWhite(s, o) {
      assert o in s.strt[Bucket(s.heap[o].bytes, |s.strt|)];
    }
  }

  lemma FreesOf(s: State, r: State)
    requires AliveClosed(s) && RootsAlive(s) && r == s.(strt := r.strt)
    ensures AliveClosed(r) && RootsAlive(r)
  {
    assert Frees(s, r);
    FreesKeepsAlive(s, r);
  }

  lemma MarkFrame(s: State, r: State)
    requires MarkInv(s) && r == s.(strt := r.strt)
    ensures MarkInv(r)
  {
  }

  /** luaS_newlstr keeps the invariant, and what it returns is not dead. */
  lemma InternKeepsInv(s: State, bytes: seq<bv8>, ts: Id)
    requires Inv(s) && ts !in s.heap
    ensures |s.strt| > 0
    ensures Inv(Intern(s, bytes, ts).0) && Alive(Intern(s, bytes, ts).0, Intern(s, bytes, ts).1)
    ensures forall o :: o in s.heap ==> o in Intern(s, bytes, ts).0.heap
  {
    assert StringTable(s.heap, s.strt);
    InternUnique(s, bytes, ts);
    hide Inv, StringTable;
    var b := Bucket(bytes, |s.strt|);
    var f := FindString(s.heap, s.strt[b], bytes);
    if f.Some? {
      StringNoEdges(s, f.value, b);
      if IsDead(s, f.value) { ResurrectKeepsInv(s, f.value); }
    } else {
      NotFound(s.heap, s.strt, bytes);
      AddStringKeepsInv(s, bytes, ts);
      var s1 := s.(heap := s.heap[ts := NewStringObj(s, bytes)], strt := s.strt[b := [ts] + s.strt[b]]);
      ResizeKeepsInv(s1, 2 * |s1.strt|);
    }
  }

  lemma StringNoEdges(s: State, o: Id, b: nat)
    requires Inv(s) && b < |s.strt| && o in s.strt[b]
    ensures o in s.heap && forall c :: !Edge(s.heap, o, c)
  {
    hide Upvals, AliveClosed, PhaseInv;
  }
}

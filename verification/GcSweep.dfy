/** Sweeping: sweeplist over string buckets, open upvalues and `rootgc`. */
module GcSweep {
  import opened Base
  import opened GcHeap
  import opened GcMark
  import opened GcInvariant
  import opened GcUpval

  /** What sweeplist frees: white of the other type and not fixed. */
  predicate Doomed(x: Obj, white: bool) { x.color == White(!white) && !x.fixed }

  function DoomedIn(h: Heap, ids: seq<Id>, white: bool): set<Id>
  {
    set o | o in ids && o in h && Doomed(h[o], white)
  }

  /** The heap after sweepwholelist over `ids`: the doomed are freed, the rest is made
      white for the next cycle. */
  function Swept(h: Heap, ids: seq<Id>, white: bool): Heap
  {
    var gone := DoomedIn(h, ids, white);
    map o | o in h && o !in gone :: if o in ids then h[o].(color := White(white)) else h[o]
  }

  /** One bucket of the string table. */
  function SweepBucket(s: State): State
    requires s.sweepstrgc < |s.strt|
  {
    var b := s.strt[s.sweepstrgc];
    s.(heap := Swept(s.heap, b, s.white),
       strt := s.strt[s.sweepstrgc := Without(b, DoomedIn(s.heap, b, s.white))],
       sweepstrgc := s.sweepstrgc + 1,
       phase := if s.sweepstrgc + 1 >= |s.strt| then Sweep else SweepString)
  }

  /** The open upvalues of a thread met by the sweep. */
  function SweepOpen(s: State, th: Id): State
    requires th in s.heap
  {
    var l := s.heap[th].openupval;
    var gone := DoomedIn(s.heap, l, s.white);
    var h := Swept(s.heap, l, s.white);
    s.(heap := if th in h then h[th := h[th].(openupval := Without(l, gone))] else h,
       uvhead := Without(s.uvhead, gone))
  }

  lemma SweptStringTable(h: Heap, strt: seq<seq<Id>>, k: nat, white: bool)
    requires StringTable(h, strt) && k < |strt|
    ensures StringTable(Swept(h, strt[k], white), strt[k := Without(strt[k], DoomedIn(h, strt[k], white))])
  {
    var gone := DoomedIn(h, strt[k], white);
    var h', strt' := Swept(h, strt[k], white), strt[k := Without(strt[k], gone)];
    WithoutDistinct(strt[k], gone);
    forall o | o in h' && h'[o].kind.String? ensures o in strt'[Bucket(h'[o].bytes, |strt'|)] {
      assert o in strt[Bucket(h[o].bytes, |strt|)];
    }
  }

  /** Sweeping a list frees only dead objects. */
  lemma SweptFrees(s: State, ids: seq<Id>, s': State)
    requires s'.heap == Swept(s.heap, ids, s.white) && s'.white == s.white && SameRoots(s, s')
    requires forall o :: o in ids ==> o in s.heap && !s.heap[o].kind.Thread?
    requires forall o :: IsOpen(s.heap, o) ==>
      s.heap[o].home.value.thread in s.heap && s.heap[s.heap[o].home.value.thread].kind.Thread?
    requires forall o :: o in s.heap && s.heap[o].fixed && o in ids ==> Fields(s.heap, o) == []
    ensures Frees(s, s')
  {
    forall o | o in s'.heap ensures Fields(s'.heap, o) == Fields(s.heap, o) {
      if s.heap[o].home.Some? { assert IsOpen(s.heap, o); }
    }
  }

  lemma SweptUpvals(h: Heap, ids: seq<Id>, white: bool, uvhead: seq<Id>)
    requires Upvals(h, uvhead) && forall o :: o in ids ==> o in h && h[o].kind.String? && h[o].home.None?
    ensures Upvals(Swept(h, ids, white), uvhead)
  {
    var h' := Swept(h, ids, white);
    forall th, uv | th in h' && h'[th].kind.Thread? && OpenOn(h', uv, th) ensures PosOf(h', uv) < |h'[th].slots| {
      assert OpenList(h, th) && OpenOn(h, uv, th);
      assert uv in h[th].openupval;
    }
    assert SameOpen(h, h') by { hide OpenList; }
    UpvalsKept(h, h', uvhead);
  }

  lemma BucketFacts(s: State)
    requires Shape(s) && s.sweepstrgc < |s.strt|
    ensures forall o :: o in s.strt[s.sweepstrgc] ==>
      o in s.heap && s.heap[o].kind.String? && Fields(s.heap, o) == [] && s.heap[o].home.None?
    ensures forall o :: o in s.strt[s.sweepstrgc] ==> o !in s.rootgc
  {
  }

  lemma SweepBucketShape(s: State)
    requires Shape(s) && s.sweepstrgc < |s.strt|
    ensures Shape(SweepBucket(s))
  {
    hide StringTable, Upvals;
    BucketFacts(s);
    var b := s.strt[s.sweepstrgc];
    var r := SweepBucket(s);
    SweptStringTable(s.heap, s.strt, s.sweepstrgc, s.white);
    SweptUpvals(s.heap, b, s.white, s.uvhead);
    assert RootList(r);
  }

  lemma SweepBucketSwept(s: State)
    requires Shape(s) && s.phase.SweepString? && PhaseInv(s)
    ensures PhaseInv(SweepBucket(s))
  {
    hide StringTable, Upvals, Kinds, RootList;
    BucketFacts(s);
    var b, r := s.strt[s.sweepstrgc], SweepBucket(s);
    forall i, o | 0 <= i <= s.sweepstrgc && o in r.strt[i] ensures CurrentWhite(r, o) {
      if i < s.sweepstrgc { assert CurrentWhite(s, o); }
    }
    if r.phase.Sweep? { assert r.rootgc[..r.sweepgc] == []; }
  }

  lemma SweepBucketKeepsInv(s: State)
    requires Inv(s) && s.phase.SweepString?
    ensures Inv(SweepBucket(s)) && Frees(s, SweepBucket(s))
  {
    hide StringTable, Upvals, AliveClosed, RootList, Kinds, Frees;
    BucketFacts(s);
    UpvalHomes(s.heap, s.uvhead);
    SweepBucketShape(s);
    SweepBucketSwept(s);
    SweptFrees(s, s.strt[s.sweepstrgc], SweepBucket(s));
    FreesKeepsAlive(s, SweepBucket(s));
    assert KindColors(SweepBucket(s).heap) by {
      forall o | o in SweepBucket(s).heap ensures KindColor(SweepBucket(s).heap[o]) { assert KindColor(s.heap[o]); }
    }
  }

  /** Freeing `gone` keeps a thread's list of open upvalues right. */
  lemma FilteredOpenList(h: Heap, h': Heap, o: Id, gone: set<Id>)
    requires o in h && OpenList(h, o) && o in h' && h'[o].slots == h[o].slots
    requires h'[o].openupval == Without(h[o].openupval, gone)
    requires forall x :: x in h' <==> x in h && x !in gone
    requires forall x :: x in h' ==> h'[x].home == h[x].home
    ensures OpenList(h', o)
  {
    var l, l' := h[o].openupval, h'[o].openupval;
    assert forall x :: OpenOn(h', x, o) <==> OpenOn(h, x, o) && x !in gone;
    assert forall x :: x in h' ==> PosOf(h', x) == PosOf(h, x);
    forall i, j | 0 <= i < j < |l'| ensures PosOf(h', l'[i]) > PosOf(h', l'[j]) {
      var a, b := l'[i], l'[j];
      assert a in l' && b in l';
      var i', j' := WithoutOrder(l, gone, i, j);
    }
  }

  lemma FilteredUpvals(h: Heap, h': Heap, uvhead: seq<Id>, gone: set<Id>)
    requires Upvals(h, uvhead)
    requires forall x :: x in h' <==> x in h && x !in gone
    requires forall x :: x in h' ==> h'[x].home == h[x].home && h'[x].kind == h[x].kind
    requires forall x :: x in gone && x in h ==> !h[x].kind.Thread?
    requires forall x :: x in h' && h'[x].kind.Thread? ==>
      h'[x].slots == h[x].slots && h'[x].openupval == Without(h[x].openupval, gone)
    ensures Upvals(h', Without(uvhead, gone))
  {
    hide OpenList;
    WithoutDistinct(uvhead, gone);
    forall o | o in h' && h'[o].kind.Thread? ensures OpenList(h', o) { FilteredOpenList(h, h', o, gone); }
    assert forall o :: IsOpen(h', o) <==> IsOpen(h, o) && o !in gone;
  }

  lemma SweepOpenUpvals(s: State, th: Id)
    requires Upvals(s.heap, s.uvhead) && th in s.heap && s.heap[th].kind.Thread?
    ensures Upvals(SweepOpen(s, th).heap, SweepOpen(s, th).uvhead) && th in SweepOpen(s, th).heap
  {
    hide Upvals;
    OpenListFacts(s, th);
    var h, h' := s.heap, SweepOpen(s, th).heap;
    var gone := DoomedIn(h, h[th].openupval, s.white);
    assert th in Swept(h, h[th].openupval, s.white);
    forall o | o in h' && h'[o].kind.Thread? && o != th ensures h'[o].openupval == Without(h[o].openupval, gone) {
      OpenListFacts(s, o);
      WithoutNone(h[o].openupval, gone);
    }
    FilteredUpvals(h, h', s.uvhead, gone);
  }

  lemma OpenListFacts(s: State, th: Id)
    requires Upvals(s.heap, s.uvhead) && th in s.heap && s.heap[th].kind.Thread?
    ensures forall x :: x in s.heap[th].openupval <==> OpenOn(s.heap, x, th)
    ensures forall x :: x in s.heap[th].openupval ==> x in s.heap && s.heap[x].kind.Upval?
  {
    assert OpenList(s.heap, th);
    forall x | x in s.heap[th].openupval ensures s.heap[x].kind.Upval? { assert IsOpen(s.heap, x); }
  }

  /** Objects other than the open upvalues of `th` are not touched by `SweepOpen`. */
  lemma SweepOpenOthers(s: State, th: Id)
    requires Upvals(s.heap, s.uvhead) && th in s.heap && s.heap[th].kind.Thread?
    ensures var r := SweepOpen(s, th);
      && (forall o :: o in r.heap ==>
         o in s.heap && r.heap[o] == s.heap[o].(color := r.heap[o].color, openupval := r.heap[o].openupval))
      && (forall o :: o in s.heap && !OpenOn(s.heap, o, th) ==> o in r.heap && r.heap[o].color == s.heap[o].color)
      && (forall o :: OpenOn(s.heap, o, th) && o in r.heap ==> CurrentWhite(r, o) && !Doomed(s.heap[o], s.white))
      && (forall o :: o in s.heap && o !in r.heap ==> IsDead(s, o) && OpenOn(s.heap, o, th))
      && th in r.heap && r.heap[th].color == s.heap[th].color
  {
    hide Upvals;
    OpenListFacts(s, th);
    assert th in Swept(s.heap, s.heap[th].openupval, s.white);
  }

  lemma SweepOpenShape(s: State, th: Id)
    requires Shape(s) && th in s.heap && s.heap[th].kind.Thread?
    ensures Shape(SweepOpen(s, th))
  {
    hide Upvals, StringTable;
    SweepOpenOthers(s, th);
    SweepOpenUpvals(s, th);
    UpvalHomes(s.heap, s.uvhead);
    var r := SweepOpen(s, th);
    assert forall o :: OpenOn(s.heap, o, th) ==> IsOpen(s.heap, o);
    assert SameStrings(s.heap, r.heap);
    StringTableKept(s.heap, r.heap, s.strt);
    assert forall o :: o in s.heap && InRootList(s.heap[o]) ==> !OpenOn(s.heap, o, th);
  }

  lemma SweepOpenFields(s: State, th: Id)
    requires Upvals(s.heap, s.uvhead) && th in s.heap && s.heap[th].kind.Thread?
    ensures var r := SweepOpen(s, th); forall o :: o in r.heap ==> o in s.heap && Fields(r.heap, o) == Fields(s.heap, o)
  {
    hide Upvals, DoomedIn, Swept;
    SweepOpenOthers(s, th);
    UpvalHomes(s.heap, s.uvhead);
    var r := SweepOpen(s, th);
    forall o | o in r.heap ensures Fields(r.heap, o) == Fields(s.heap, o) {
      if s.heap[o].home.Some? {
        assert IsOpen(s.heap, o);
        var t := s.heap[o].home.value.thread;
        assert !IsOpen(s.heap, t);
        assert !OpenOn(s.heap, t, th);
        assert r.heap[t].slots == s.heap[t].slots;
      }
    }
  }

  lemma SweepOpenFrees(s: State, th: Id)
    requires Shape(s) && KindColors(s.heap) && th in s.heap && s.heap[th].kind.Thread?
    ensures Frees(s, SweepOpen(s, th)) && KindColors(SweepOpen(s, th).heap)
  {
    hide Upvals, StringTable, RootList, DoomedIn, Swept, Fields;
    SweepOpenOthers(s, th);
    SweepOpenFields(s, th);
    UpvalHomes(s.heap, s.uvhead);
    var r := SweepOpen(s, th);
    forall o | OpenOn(s.heap, o, th) ensures !s.heap[o].fixed && s.heap[o].kind.Upval? { assert IsOpen(s.heap, o); }
    forall o | o in r.heap ensures KindColor(r.heap[o]) {
      assert KindColor(s.heap[o]);
      assert OpenOn(s.heap, o, th) || r.heap[o].color == s.heap[o].color;
    }
  }

  lemma SweepOpenKeepsInv(s: State, th: Id)
    requires Inv(s) && s.phase.Sweep? && th in s.heap && s.heap[th].kind.Thread?
    ensures Inv(SweepOpen(s, th)) && Frees(s, SweepOpen(s, th))
    ensures forall uv :: OpenOn(SweepOpen(s, th).heap, uv, th) ==> CurrentWhite(SweepOpen(s, th), uv)
    ensures th in SweepOpen(s, th).heap && SweepOpen(s, th).heap[th].color == s.heap[th].color
    ensures SweepOpen(s, th).heap[th].kind == s.heap[th].kind && SweepOpen(s, th).heap[th].fixed == s.heap[th].fixed
  {
    hide Upvals, StringTable, RootList, Kinds, AliveClosed, Frees, KindColors;
    SweepOpenOthers(s, th);
    SweepOpenShape(s, th);
    SweepOpenFrees(s, th);
    var r := SweepOpen(s, th);
    FreesKeepsAlive(s, r);
    assert forall o :: CurrentWhite(s, o) ==> CurrentWhite(r, o);
    assert forall uv :: IsOpen(r.heap, uv) ==> IsOpen(s.heap, uv);
    forall uv | OpenOn(r.heap, uv, th) ensures CurrentWhite(r, uv) { assert OpenOn(s.heap, uv, th); }
  }

  /** Advancing past an object that survives. */
  lemma PassKeepsInv(s: State, curr: Id)
    requires Inv(s) && s.phase.Sweep? && s.sweepgc < |s.rootgc| && s.rootgc[s.sweepgc] == curr && curr in s.heap
    requires !Doomed(s.heap[curr], s.white)
    requires s.heap[curr].kind.Thread? ==> forall uv :: OpenOn(s.heap, uv, curr) ==> CurrentWhite(s, uv)
    ensures var r := s.(heap := Recolor(s.heap, curr, White(s.white)), sweepgc := s.sweepgc + 1); Inv(r) && Frees(s, r)
  {
    hide Upvals, StringTable, AliveClosed;
    var r := s.(heap := Recolor(s.heap, curr, White(s.white)), sweepgc := s.sweepgc + 1);
    ShapeKept(s, r);
    SameShapeFields(s.heap, r.heap);
    UpvalHomes(s.heap, s.uvhead);
    assert curr in s.rootgc;
    assert IsRoot(s, s.mainthread);
    assert Frees(s, r);
    FreesKeepsAlive(s, r);
    assert KindColors(r.heap) by {
      forall o | o in r.heap ensures KindColor(r.heap[o]) { assert KindColor(s.heap[o]); }
    }
    PassedSwept(s, curr, r);
  }

  lemma PassedSwept(s: State, curr: Id, r: State)
    requires RootsSwept(s) && s.sweepgc < |s.rootgc| && s.rootgc[s.sweepgc] == curr && curr in s.heap
    requires r == s.(heap := Recolor(s.heap, curr, White(s.white)), sweepgc := s.sweepgc + 1)
    requires forall uv :: OpenOn(s.heap, uv, curr) ==> CurrentWhite(s, uv)
    requires StringsSwept(s, |s.strt|)
    ensures RootsSwept(r) && StringsSwept(r, |r.strt|)
  {
    assert r.rootgc[..r.sweepgc] == s.rootgc[..s.sweepgc] + [curr];
    assert forall o :: CurrentWhite(s, o) ==> CurrentWhite(r, o);
    assert forall uv :: IsOpen(r.heap, uv) ==> IsOpen(s.heap, uv) && r.heap[uv].home == s.heap[uv].home;
    forall uv | IsOpen(r.heap, uv) && r.heap[uv].home.value.thread in r.rootgc[..r.sweepgc]
      ensures CurrentWhite(r, uv)
    {
      if r.heap[uv].home.value.thread == curr { assert OpenOn(s.heap, uv, curr); }
    }
  }

  /** One object of `rootgc`: a thread first has its open upvalues swept; then the object
      is passed, or unlinked and freed, a thread closing what it still has open. */
  function SweepCurr(s: State): State
    requires s.sweepgc < |s.rootgc| && s.rootgc[s.sweepgc] in s.heap
  {
    var curr := s.rootgc[s.sweepgc];
    var s1 := if s.heap[curr].kind.Thread? then SweepOpen(s, curr) else s;
    if curr in s1.heap && !Doomed(s1.heap[curr], s.white) then
      s1.(heap := Recolor(s1.heap, curr, White(s.white)), sweepgc := s.sweepgc + 1)
    else
      var s2 := s1.(rootgc := s.rootgc[..s.sweepgc] + s.rootgc[s.sweepgc + 1..]);
      var s3 := if s.heap[curr].kind.Thread? then Close(s2, curr, 0) else s2;
      s3.(heap := s3.heap - {curr})
  }

  /** sweeplist over `rootgc` for at most `count` objects. */
  function SweepRoot(s: State, count: nat): State
    decreases count
  {
    if count == 0 || s.sweepgc >= |s.rootgc| || s.rootgc[s.sweepgc] !in s.heap then s
    else SweepRoot(SweepCurr(s), count - 1)
  }

  lemma {:induction false} WithoutAt(l: seq<Id>, i: nat)
    requires Distinct(l) && i < |l|
    ensures Without(l, {l[i]}) == l[..i] + l[i + 1..]
  {
    var t := l[1..];
    assert l == [l[0]] + t;
    if i == 0 {
      WithoutHead(l[0], t);
    } else {
      WithoutAt(t, i - 1);
      assert t[i - 1] == l[i] && l[0] != l[i];
      assert l[..i] == [l[0]] + t[..i - 1] && l[i + 1..] == t[i..];
    }
  }

  /** Closing does not look at `rootgc` behind the front, so unlinking the thread before or
      after it closes its upvalues is the same. */
  lemma {:induction false} CloseCommutes(s: State, th: Id, c: State)
    requires !s.phase.Propagate? && c == s.(rootgc := Without(s.rootgc, {th})) && !IsOpen(s.heap, th)
    ensures Close(c, th, 0) == Close(s, th, 0).(rootgc := Without(Close(s, th, 0).rootgc, {th}))
    decreases if th in s.heap then |s.heap[th].openupval| else 0
  {
    if th in s.heap && s.heap[th].openupval != [] && PosOf(s.heap, s.heap[th].openupval[0]) >= 0 {
      var s1, c1 := CloseOne(s, th), CloseOne(c, th);
      CloseOneCommutes(s, th, c);
      CloseCommutes(s1, th, c1);
    }
  }

  lemma CloseOneCommutes(s: State, th: Id, c: State)
    requires !s.phase.Propagate? && c == s.(rootgc := Without(s.rootgc, {th})) && !IsOpen(s.heap, th)
    requires th in s.heap && s.heap[th].openupval != [] && IsOpen(s.heap, s.heap[th].openupval[0])
    ensures var s1, c1 := CloseOne(s, th), CloseOne(c, th);
      && c1 == s1.(rootgc := Without(s1.rootgc, {th})) && s1.phase == s.phase
      && th in s1.heap && !IsOpen(s1.heap, th) && |s1.heap[th].openupval| < |s.heap[th].openupval|
  {
    var uv := s.heap[th].openupval[0];
    hide Without, Fields, MarkFields;
    assert uv != th;
    WithoutCons(uv, s.rootgc, th);
  }

  lemma WithoutCons(x: Id, l: seq<Id>, o: Id)
    requires x != o
    ensures Without([x] + l, {o}) == [x] + Without(l, {o})
  {
    assert ([x] + l)[1..] == l;
  }

  /** Freeing a doomed object of the part of `rootgc` that is still to be swept. */
  lemma DropKeepsInv(s: State, o: Id)
    requires Inv(s) && s.phase.Sweep? && o in s.rootgc && IsDead(s, o)
    requires (s.heap[o].kind.Thread? ==> s.heap[o].openupval == [])
    ensures var r := s.(heap := s.heap - {o}, rootgc := Without(s.rootgc, {o})); Inv(r) && Frees(s, r)
  {
    hide Upvals, StringTable, AliveClosed, KindColors, PhaseInv, Frees;
    var r := s.(heap := s.heap - {o}, rootgc := Without(s.rootgc, {o}));
    assert IsRoot(s, s.mainthread);
    DropSwept(s, r, o);
    DropShape(s, r, o);
    DropFrees(s, r, o);
    FreesKeepsAlive(s, r);
    KindColorsSub(s.heap, r.heap);
  }

  lemma DropSwept(s: State, r: State, o: Id)
    requires PhaseInv(s) && s.phase.Sweep? && o in s.rootgc && IsDead(s, o) && Distinct(s.rootgc)
    requires r == s.(heap := s.heap - {o}, rootgc := Without(s.rootgc, {o}))
    ensures PhaseInv(r) && r.sweepgc <= |r.rootgc|
  {
    var i :| 0 <= i < |s.rootgc| && s.rootgc[i] == o;
    WithoutAt(s.rootgc, i);
    assert o !in s.rootgc[..s.sweepgc];
    assert forall j :: 0 <= j < s.sweepgc ==> s.rootgc[..s.sweepgc][j] == s.rootgc[j];
    assert r.rootgc[..r.sweepgc] == s.rootgc[..s.sweepgc];
    assert forall x :: CurrentWhite(s, x) ==> CurrentWhite(r, x);
    assert forall x :: IsOpen(r.heap, x) ==> IsOpen(s.heap, x);
  }

  lemma KindColorsSub(h: Heap, h': Heap)
    requires KindColors(h) && forall x :: x in h' ==> x in h && h'[x] == h[x]
    ensures KindColors(h')
  {
    forall x | x in h' ensures KindColor(h'[x]) { assert KindColor(h[x]); }
  }

  lemma DropFrees(s: State, r: State, o: Id)
    requires Upvals(s.heap, s.uvhead) && o in s.heap && IsDead(s, o) && s.heap[o].home.None?
    requires s.heap[o].kind.Thread? ==> s.heap[o].openupval == []
    requires r.heap == s.heap - {o} && r.white == s.white && SameRoots(s, r) && !s.heap[o].fixed
    ensures Frees(s, r)
  {
    forall x | x in r.heap ensures Fields(r.heap, x) == Fields(s.heap, x) {
      if s.heap[x].home.Some? {
        assert IsOpen(s.heap, x);
        var t := s.heap[x].home.value.thread;
        assert OpenList(s.heap, t) && OpenOn(s.heap, x, t);
        assert t != o;
      }
    }
  }

  /** Sweeping one object keeps the invariant and frees only what is dead. */
  lemma SweepCurrKeepsInv(s: State)
    requires Inv(s) && s.phase.Sweep? && s.sweepgc < |s.rootgc|
    ensures s.rootgc[s.sweepgc] in s.heap && Inv(SweepCurr(s)) && Frees(s, SweepCurr(s)) && SweepCurr(s).phase.Sweep?
  {
    hide Upvals, StringTable, AliveClosed, KindColors, Frees, PhaseInv, Kinds;
    var curr := s.rootgc[s.sweepgc];
    assert curr in s.rootgc;
    if s.heap[curr].kind.Thread? {
      SweepThread(s, curr);
    } else {
      assert IsRoot(s, s.mainthread);
      if Doomed(s.heap[curr], s.white) {
        DropKeepsInv(s, curr);
        WithoutAt(s.rootgc, s.sweepgc);
      } else {
        PassKeepsInv(s, curr);
      }
    }
  }

  lemma SweepThread(s: State, curr: Id)
    requires Inv(s) && s.phase.Sweep? && s.sweepgc < |s.rootgc| && curr == s.rootgc[s.sweepgc]
    requires curr in s.heap && s.heap[curr].kind.Thread? && Distinct(s.rootgc)
    ensures Inv(SweepCurr(s)) && Frees(s, SweepCurr(s)) && SweepCurr(s).phase.Sweep?
  {
    hide Shape, AliveClosed, KindColors, Frees, PhaseInv, SweepOpen, Without, Close;
    SweepOpenKeepsInv(s, curr);
    var s1 := SweepOpen(s, curr);
    SweepOpenFrame(s, curr);
    if !Doomed(s1.heap[curr], s.white) {
      PassKeepsInv(s1, curr);
      FreesTrans(s, s1, SweepCurr(s));
    } else {
      var k := CloseKeepsInv(s1, curr, 0);
      var sc := Close(s1, curr, 0);
      NoneOpen(s1, curr, k);
      ClosedStillLinked(s1, sc, curr);
      DropKeepsInv(sc, curr);
      WithoutAt(s.rootgc, s.sweepgc);
      CloseCommutes(s1, curr, s1.(rootgc := Without(s1.rootgc, {curr})));
      FreesTrans(s, s1, sc);
      FreesTrans(s, sc, SweepCurr(s));
    }
  }

  lemma SweepOpenFrame(s: State, th: Id)
    requires th in s.heap
    ensures SweepOpen(s, th) == s.(heap := SweepOpen(s, th).heap, uvhead := SweepOpen(s, th).uvhead)
  {
  }

  lemma NoneOpen(s: State, th: Id, k: nat)
    requires Inv(s) && th in s.heap && s.heap[th].kind.Thread? && k <= |s.heap[th].openupval|
    requires forall i :: 0 <= i < |s.heap[th].openupval| ==> (i < k <==> PosOf(s.heap, s.heap[th].openupval[i]) >= 0)
    ensures k == |s.heap[th].openupval| && !IsOpen(s.heap, th)
  {
    hide StringTable, AliveClosed, KindColors, PhaseInv, RootList;
    if k < |s.heap[th].openupval| { InOpenList(s, th, k); }
  }

  lemma ClosedStillLinked(s: State, r: State, th: Id)
    requires Inv(s) && Inv(r) && th in s.heap && s.heap[th].kind.Thread? && ClosesAll(s, r, th) && IsDead(s, th)
    ensures th in r.rootgc && IsDead(r, th)
  {
    hide StringTable, AliveClosed, PhaseInv, Frees;
    assert KindColor(r.heap[th]);
  }
}

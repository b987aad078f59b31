/** Marking: reallymarkobject, propagatemark and the mark half of atomic. */
module GcMark {
  import opened Base
  import opened GcHeap

  function Whites(h: Heap): set<Id> { set o | o in h && h[o].color.White? }

  /** reallymarkobject: userdata and closed upvalues turn black at once, strings and open
      upvalues stay gray, the rest wait on the gray list. */
  function ReallyMark(s: State, o: Id): (r: State)
    requires IsWhite(s.heap, o)
    ensures Whites(r.heap) < Whites(s.heap)
    decreases Whites(s.heap), 0
  {
    var g := s.(heap := Recolor(s.heap, o, Gray));
    assert Whites(g.heap) <= Whites(s.heap) && o in Whites(s.heap) && o !in Whites(g.heap);
    match s.heap[o].kind
    case String => g
    case Userdata =>
      var b := s.(heap := Recolor(g.heap, o, Black));
      assert Whites(b.heap) <= Whites(g.heap);
      MarkFields(b, Fields(b.heap, o))
    case Upval =>
      var m := MarkFields(g, Fields(g.heap, o));
      assert o !in Whites(m.heap);
      if o in m.heap && m.heap[o].home.None? then
        var b := m.(heap := Recolor(m.heap, o, Black));
        assert Whites(b.heap) <= Whites(m.heap);
        b
      else m
    case _ => g.(gray := [o] + g.gray)
  }

  /** markvalue on each value in turn. */
  function MarkFields(s: State, vs: seq<Option<Id>>): (r: State)
    ensures Whites(r.heap) <= Whites(s.heap)
    ensures Whites(r.heap) == Whites(s.heap) ==> r == s
    decreases Whites(s.heap), 1 + |vs|
  {
    if vs == [] then s
    else
      var s1 := if vs[0].Some? && IsWhite(s.heap, vs[0].value) then ReallyMark(s, vs[0].value) else s;
      MarkFields(s1, vs[1..])
  }

  /** What marking may have done to a newly marked object. */
  ghost predicate WellMarked(h: Heap, o: Id, pushed: seq<Id>)
    requires o in h
  {
    match h[o].kind
    case String => h[o].color == Gray
    case Userdata => h[o].color == Black && forall c :: Edge(h, o, c) ==> NonWhite(h, c)
    case Upval =>
      && h[o].color == (if h[o].home.Some? then Gray else Black)
      && forall c :: Edge(h, o, c) ==> NonWhite(h, c)
    case _ => h[o].color == Gray && o in pushed
  }

  /** An object is left alone, or it was white and is now marked. */
  ghost predicate Kept(h: Heap, h': Heap, o: Id, pushed: seq<Id>)
    requires o in h && o in h'
  {
    || h'[o] == h[o]
    || (h[o].color.White? && h'[o] == h[o].(color := h'[o].color) && WellMarked(h', o, pushed))
  }

  /** `s'` is `s` with more objects marked and `pushed` put on the gray list. */
  ghost predicate Marks(s: State, s': State, pushed: seq<Id>)
  {
    && s'.heap.Keys == s.heap.Keys
    && s' == s.(heap := s'.heap, gray := pushed + s.gray)
    && Distinct(pushed)
    && (forall o :: o in s.heap ==> Kept(s.heap, s'.heap, o, pushed))
    && (forall o :: o in pushed ==> IsWhite(s.heap, o) && ListKind(s.heap[o].kind) && NonWhite(s'.heap, o))
  }

  lemma MarksShape(s: State, s': State, pushed: seq<Id>)
    requires Marks(s, s', pushed)
    ensures SameShape(s.heap, s'.heap)
    ensures forall o, c :: Edge(s'.heap, o, c) <==> Edge(s.heap, o, c)
    ensures forall o :: NonWhite(s.heap, o) ==> s'.heap[o] == s.heap[o]
  {
    forall o | o in s.heap ensures s'.heap[o] == s.heap[o].(color := s'.heap[o].color) {
      assert Kept(s.heap, s'.heap, o, pushed);
    }
    SameShapeFields(s.heap, s'.heap);
  }

  /** All references point into the heap. */
  ghost predicate Closed(h: Heap) { forall o, c :: Edge(h, o, c) ==> c in h }

  lemma MarksTrans(s: State, s1: State, s2: State, p1: seq<Id>, p2: seq<Id>)
    requires Marks(s, s1, p1) && Marks(s1, s2, p2)
    ensures Marks(s, s2, p2 + p1)
  {
    MarksShape(s, s1, p1);
    MarksShape(s1, s2, p2);
    assert forall o :: o in p2 ==> IsWhite(s1.heap, o);
    DistinctConcat(p2, p1);
    forall o | o in s.heap ensures Kept(s.heap, s2.heap, o, p2 + p1) {
      assert Kept(s.heap, s1.heap, o, p1);
      assert Kept(s1.heap, s2.heap, o, p2);
    }
  }

  /** Painting `o` first and then marking from there is a marking. */
  lemma PaintThenMark(s: State, o: Id, c: Color, r: State, pushed: seq<Id>)
    requires IsWhite(s.heap, o) && !c.White?
    requires Marks(s.(heap := Recolor(s.heap, o, c)), r, pushed) && WellMarked(r.heap, o, pushed)
    ensures Marks(s, r, pushed)
  {
    var b := s.(heap := Recolor(s.heap, o, c));
    forall x | x in s.heap ensures Kept(s.heap, r.heap, x, pushed) {
      assert Kept(b.heap, r.heap, x, pushed);
    }
    assert forall x :: x in pushed ==> IsWhite(b.heap, x);
  }

  /** An object marked before can be painted black afterwards. */
  lemma MarkThenPaint(g: State, m: State, o: Id, pushed: seq<Id>)
    requires NonWhite(g.heap, o) && Marks(g, m, pushed)
    ensures o in m.heap && o !in pushed
    ensures Marks(g.(heap := Recolor(g.heap, o, Black)), m.(heap := Recolor(m.heap, o, Black)), pushed)
  {
    var b := g.(heap := Recolor(g.heap, o, Black));
    var r := m.(heap := Recolor(m.heap, o, Black));
    assert SameShape(m.heap, r.heap);
    SameShapeFields(m.heap, r.heap);
    forall x | x in g.heap ensures Kept(b.heap, r.heap, x, pushed) {
      assert Kept(g.heap, m.heap, x, pushed);
    }
  }

  lemma ReallyMarkMarks(s: State, o: Id) returns (pushed: seq<Id>)
    requires IsWhite(s.heap, o) && Closed(s.heap)
    ensures Marks(s, ReallyMark(s, o), pushed)
    ensures NonWhite(ReallyMark(s, o).heap, o)
    decreases Whites(s.heap), 0
  {
    var g := s.(heap := Recolor(s.heap, o, Gray));
    assert o in Whites(s.heap) && o !in Whites(g.heap) && Whites(g.heap) <= Whites(s.heap);
    SameShapeFields(s.heap, g.heap);
    assert forall c :: Some(c) in Fields(s.heap, o) ==> Edge(s.heap, o, c);
    match s.heap[o].kind
    case String => pushed := [];
    case Userdata => pushed := UserdataMarks(s, o);
    case Upval => pushed := UpvalMarks(s, o);
    case _ => pushed := [o];
  }

  lemma UserdataMarks(s: State, o: Id) returns (pushed: seq<Id>)
    requires IsWhite(s.heap, o) && Closed(s.heap) && s.heap[o].kind == Userdata
    ensures Marks(s, ReallyMark(s, o), pushed)
    ensures NonWhite(ReallyMark(s, o).heap, o)
    decreases Whites(s.heap), 0, 0
  {
    var b := s.(heap := Recolor(s.heap, o, Black));
    assert Recolor(Recolor(s.heap, o, Gray), o, Black) == b.heap;
    assert o in Whites(s.heap) && o !in Whites(b.heap) && Whites(b.heap) <= Whites(s.heap);
    SameShapeFields(s.heap, b.heap);
    assert forall c :: Some(c) in Fields(b.heap, o) <==> Edge(b.heap, o, c);
    pushed := MarkFieldsMarks(b, Fields(b.heap, o));
    var r := MarkFields(b, Fields(b.heap, o));
    MarksShape(b, r, pushed);
    PaintThenMark(s, o, Black, r, pushed);
  }

  lemma UpvalMarks(s: State, o: Id) returns (pushed: seq<Id>)
    requires IsWhite(s.heap, o) && Closed(s.heap) && s.heap[o].kind == Upval
    ensures Marks(s, ReallyMark(s, o), pushed)
    ensures NonWhite(ReallyMark(s, o).heap, o)
    decreases Whites(s.heap), 0, 0
  {
    var g := s.(heap := Recolor(s.heap, o, Gray));
    assert o in Whites(s.heap) && o !in Whites(g.heap) && Whites(g.heap) <= Whites(s.heap);
    SameShapeFields(s.heap, g.heap);
    assert forall c :: Some(c) in Fields(g.heap, o) <==> Edge(g.heap, o, c);
    pushed := MarkFieldsMarks(g, Fields(g.heap, o));
    var m := MarkFields(g, Fields(g.heap, o));
    MarksShape(g, m, pushed);
    if s.heap[o].home.Some? {
      PaintThenMark(s, o, Gray, m, pushed);
    } else {
      MarkThenPaint(g, m, o, pushed);
      assert Recolor(g.heap, o, Black) == Recolor(s.heap, o, Black);
      var r := m.(heap := Recolor(m.heap, o, Black));
      SameShapeFields(m.heap, r.heap);
      PaintThenMark(s, o, Black, r, pushed);
    }
  }

  lemma MarkFieldsMarks(s: State, vs: seq<Option<Id>>) returns (pushed: seq<Id>)
    requires Closed(s.heap) && forall c :: Some(c) in vs ==> c in s.heap
    ensures Marks(s, MarkFields(s, vs), pushed)
    ensures forall c :: Some(c) in vs ==> NonWhite(MarkFields(s, vs).heap, c)
    decreases Whites(s.heap), 1 + |vs|
  {
    if vs == [] {
      pushed := [];
    } else {
      var s1, p1 := s, [];
      if vs[0].Some? && IsWhite(s.heap, vs[0].value) {
        s1 := ReallyMark(s, vs[0].value);
        p1 := ReallyMarkMarks(s, vs[0].value);
      }
      SameShapeFields(s.heap, s1.heap);
      var p2 := MarkFieldsMarks(s1, vs[1..]);
      MarksTrans(s, s1, MarkFields(s1, vs[1..]), p1, p2);
      pushed := p2 + p1;
    }
  }

  /** propagatemark: the first gray object turns black, except that a thread goes to
      `grayagain` and stays gray. */
  function PropagateMark(s: State): (r: State)
    requires s.gray != [] && NonWhite(s.heap, s.gray[0])
    ensures Whites(r.heap) <= Whites(s.heap)
    ensures Whites(r.heap) == Whites(s.heap) ==> |r.gray| < |s.gray|
  {
    var o := s.gray[0];
    var s1 := if s.heap[o].kind.Thread? then s.(gray := s.gray[1..], grayagain := [o] + s.grayagain)
              else s.(gray := s.gray[1..], heap := Recolor(s.heap, o, Black));
    assert Whites(s1.heap) == Whites(s.heap);
    MarkFields(s1, s.heap[o].slots)
  }

  /** propagateall. */
  function PropagateAll(s: State): (r: State)
    decreases Whites(s.heap), |s.gray|
  {
    if s.gray == [] || !NonWhite(s.heap, s.gray[0]) then s else PropagateAll(PropagateMark(s))
  }

  /** remarkupvals over the ring of open upvalues. */
  function RemarkUpvals(s: State, uvs: seq<Id>): (r: State)
    decreases |uvs|
  {
    if uvs == [] then s
    else
      var s1 := if uvs[0] in s.heap && s.heap[uvs[0]].color == Gray
                then MarkFields(s, Fields(s.heap, uvs[0])) else s;
      RemarkUpvals(s1, uvs[1..])
  }

  /** The part of atomic that marks. */
  function MarkAtomically(s: State): State
  {
    var s1 := PropagateAll(RemarkUpvals(s, s.uvhead));
    var s2 := PropagateAll(MarkFields(s1, [Some(s.running)] + s.mt));
    PropagateAll(s2.(gray := s2.grayagain, grayagain := []))
  }

  /** What markroot marks: the main thread, its global table (slot 0 of a thread), the
      registry and the metatables of the basic types. */
  function RootValues(s: State): seq<Option<Id>>
  {
    var gt :=
      if s.mainthread in s.heap && s.heap[s.mainthread].slots != [] then s.heap[s.mainthread].slots[0] else None;
    [Some(s.mainthread), gt, Some(s.registry)] + s.mt
  }

  /** markroot. */
  function MarkRoot(s: State): State
  {
    MarkFields(s.(gray := [], grayagain := []), RootValues(s)).(phase := Propagate)
  }

  /** The colours each kind may have: strings, threads and open upvalues are never black,
      userdata and closed upvalues never gray. */
  predicate KindColor(x: Obj)
  {
    && (x.home.Some? ==> x.kind == Upval)
    && (x.kind.String? || x.kind.Thread? || x.home.Some? ==> x.color != Black)
    && (x.kind.Userdata? || (x.kind.Upval? && x.home.None?) ==> x.color != Gray)
  }

  ghost predicate KindColors(h: Heap) { forall o :: o in h ==> KindColor(h[o]) }

  ghost predicate NoDead(s: State) { forall o :: o in s.heap ==> s.heap[o].color != White(!s.white) }

  /** The tri-colour invariant: nothing black refers to anything white. */
  ghost predicate NoBlackToWhite(h: Heap)
  {
    forall o, c :: o in h && h[o].color == Black && Edge(h, o, c) ==> NonWhite(h, c)
  }

  /** The gray lists hold exactly the gray objects that are still to be traversed. */
  ghost predicate GrayLists(s: State)
  {
    && Distinct(s.gray + s.grayagain)
    && (forall o :: o in s.gray + s.grayagain ==> o in s.heap && s.heap[o].color == Gray && ListKind(s.heap[o].kind))
    && (forall o :: o in s.heap && s.heap[o].color == Gray && ListKind(s.heap[o].kind) ==> o in s.gray + s.grayagain)
  }

  /** The invariant of the mark phase. */
  ghost predicate MarkInv(s: State)
  {
    Closed(s.heap) && KindColors(s.heap) && NoDead(s) && NoBlackToWhite(s.heap) && GrayLists(s)
  }

  lemma MarksKeepsInv(s: State, s': State, pushed: seq<Id>)
    requires MarkInv(s) && Marks(s, s', pushed)
    ensures MarkInv(s')
  {
    MarksShape(s, s', pushed);
    MarksKeepsLists(s, s', pushed);
    MarksKeepsColors(s, s', pushed);
    forall o, c | o in s'.heap && s'.heap[o].color == Black && Edge(s'.heap, o, c) ensures NonWhite(s'.heap, c) {
      assert Kept(s.heap, s'.heap, o, pushed);
    }
  }

  lemma MarksKeepsColors(s: State, s': State, pushed: seq<Id>)
    requires KindColors(s.heap) && NoDead(s) && Marks(s, s', pushed)
    ensures KindColors(s'.heap) && NoDead(s')
  {
    forall o | o in s'.heap ensures s'.heap[o].color != White(!s.white) && KindColor(s'.heap[o]) {
      assert Kept(s.heap, s'.heap, o, pushed);
    }
  }

  lemma MarksKeepsLists(s: State, s': State, pushed: seq<Id>)
    requires GrayLists(s) && Marks(s, s', pushed)
    ensures GrayLists(s')
  {
    var before := s.gray + s.grayagain;
    assert s'.gray + s'.grayagain == pushed + before;
    DistinctConcat(pushed, before);
    forall o | o in pushed + before ensures o in s'.heap && s'.heap[o].color == Gray && ListKind(s'.heap[o].kind) {
      assert Kept(s.heap, s'.heap, o, pushed);
    }
    forall o | o in s'.heap && s'.heap[o].color == Gray && ListKind(s'.heap[o].kind) ensures o in pushed + before {
      assert Kept(s.heap, s'.heap, o, pushed);
    }
  }

  /** Traversing one gray object keeps the mark invariant. */
  lemma PropagateMarkKeepsInv(s: State)
    requires MarkInv(s) && s.gray != []
    ensures s.gray[0] in s.heap && s.heap[s.gray[0]].color == Gray
    ensures MarkInv(PropagateMark(s))
  {
    var o := s.gray[0];
    assert o in s.gray + s.grayagain;
    assert ListKind(s.heap[o].kind) && KindColor(s.heap[o]);
    var s1 := if s.heap[o].kind.Thread? then s.(gray := s.gray[1..], grayagain := [o] + s.grayagain)
              else s.(gray := s.gray[1..], heap := Recolor(s.heap, o, Black));
    SameShapeFields(s.heap, s1.heap);
    assert Fields(s.heap, o) == s.heap[o].slots;
    assert forall c :: Some(c) in s.heap[o].slots ==> Edge(s.heap, o, c);
    var pushed := MarkFieldsMarks(s1, s.heap[o].slots);
    PropagatedLists(s, s1, o);
    TraversedKeepsInv(s, s1, o, PropagateMark(s), pushed);
  }

  /** `o` left the gray list, and then its references were marked. */
  lemma TraversedKeepsInv(s: State, s1: State, o: Id, r: State, pushed: seq<Id>)
    requires MarkInv(s) && o in s.heap && s.heap[o].color == Gray && ListKind(s.heap[o].kind)
    requires s1.heap == s.heap || (!s.heap[o].kind.Thread? && s1.heap == Recolor(s.heap, o, Black))
    requires s1.white == s.white && GrayLists(s1) && Marks(s1, r, pushed)
    requires forall c :: Edge(s.heap, o, c) ==> NonWhite(r.heap, c)
    ensures MarkInv(r)
  {
    SameShapeFields(s.heap, s1.heap);
    ForwardBarrier(s1, o, r, pushed);
  }

  lemma PropagatedLists(s: State, s1: State, o: Id)
    requires GrayLists(s) && s.gray != [] && o == s.gray[0] && o in s.heap
    requires s1 == if s.heap[o].kind.Thread? then s.(gray := s.gray[1..], grayagain := [o] + s.grayagain)
                   else s.(gray := s.gray[1..], heap := Recolor(s.heap, o, Black))
    ensures GrayLists(s1)
  {
    var all := s.gray + s.grayagain;
    assert all[0] == o && all[1..] == s.gray[1..] + s.grayagain;
    assert forall x :: x in all <==> x == o || x in all[1..];
    assert o !in all[1..];
    if s.heap[o].kind.Thread? {
      assert forall x :: x in s1.gray + s1.grayagain <==> x in all;
      DistinctMoved(s.gray[1..], s.grayagain, o);
    } else {
      assert s1.gray + s1.grayagain == all[1..];
    }
  }

  lemma DistinctMoved(a: seq<Id>, b: seq<Id>, o: Id)
    requires Distinct(a + b) && o !in a + b
    ensures Distinct(a + ([o] + b))
  {
    assert forall i :: 0 <= i < |a| ==> a[i] == (a + b)[i];
    assert forall i :: 0 <= i < |b| ==> b[i] == (a + b)[|a| + i];
    DistinctConcat([o], b);
    forall x | x in a ensures x !in [o] + b {
      var i :| 0 <= i < |a| && a[i] == x;
      assert (a + b)[i] == x;
    }
    DistinctConcat(a, [o] + b);
  }

  ghost predicate NoBlackToWhiteBut(h: Heap, o: Id)
  {
    forall x, c :: x in h && x != o && h[x].color == Black && Edge(h, x, c) ==> NonWhite(h, c)
  }

  /** A forward barrier: marking what a black object `o` refers to restores the invariant
      that a store into `o` had broken. */
  lemma ForwardBarrier(s: State, o: Id, r: State, pushed: seq<Id>)
    requires Closed(s.heap) && KindColors(s.heap) && NoDead(s) && GrayLists(s) && NoBlackToWhiteBut(s.heap, o)
    requires NonWhite(s.heap, o) && Marks(s, r, pushed)
    requires forall c :: Edge(s.heap, o, c) ==> NonWhite(r.heap, c)
    ensures MarkInv(r)
  {
    MarksShape(s, r, pushed);
    MarksKeepsLists(s, r, pushed);
    MarksKeepsColors(s, r, pushed);
    forall x, c | x in r.heap && r.heap[x].color == Black && Edge(r.heap, x, c) ensures NonWhite(r.heap, c) {
      assert Kept(s.heap, r.heap, x, pushed);
      if x != o && NonWhite(s.heap, x) { assert Edge(s.heap, x, c); }
    }
  }

  /** Every gray open upvalue has its value marked. */
  ghost predicate UpvalsDone(h: Heap)
  {
    forall o, c :: o in h && h[o].home.Some? && h[o].color == Gray && Edge(h, o, c) ==> NonWhite(h, c)
  }

  /** `grayagain` holds threads only, and they have all their values marked. */
  ghost predicate AgainDone(s: State)
  {
    && (forall o :: o in s.grayagain ==> o in s.heap && s.heap[o].kind.Thread?)
    && (forall o, c :: o in s.grayagain && Edge(s.heap, o, c) ==> NonWhite(s.heap, c))
  }

  /** What a stretch of marking keeps. */
  ghost predicate Progress(s: State, r: State)
  {
    && SameShape(s.heap, r.heap)
    && r == s.(heap := r.heap, gray := r.gray, grayagain := r.grayagain)
    && (forall o :: NonWhite(s.heap, o) ==> NonWhite(r.heap, o))
    && (UpvalsDone(s.heap) ==> UpvalsDone(r.heap))
    && (AgainDone(s) ==> AgainDone(r))
  }

  lemma MarksProgress(s: State, s': State, pushed: seq<Id>)
    requires Marks(s, s', pushed) && KindColors(s.heap)
    ensures Progress(s, s')
  {
    MarksShape(s, s', pushed);
    if UpvalsDone(s.heap) {
      forall o, c | o in s'.heap && s'.heap[o].home.Some? && s'.heap[o].color == Gray && Edge(s'.heap, o, c)
        ensures NonWhite(s'.heap, c)
      {
        assert Kept(s.heap, s'.heap, o, pushed);
        assert KindColor(s.heap[o]);
      }
    }
  }

  lemma PropagateMarkProgress(s: State)
    requires MarkInv(s) && s.gray != []
    ensures NonWhite(s.heap, s.gray[0]) && Progress(s, PropagateMark(s))
  {
    var o := s.gray[0];
    assert o in s.gray + s.grayagain;
    assert ListKind(s.heap[o].kind) && KindColor(s.heap[o]);
    var s1 := if s.heap[o].kind.Thread? then s.(gray := s.gray[1..], grayagain := [o] + s.grayagain)
              else s.(gray := s.gray[1..], heap := Recolor(s.heap, o, Black));
    SameShapeFields(s.heap, s1.heap);
    assert forall c :: Some(c) in s.heap[o].slots <==> Edge(s.heap, o, c);
    var pushed := MarkFieldsMarks(s1, s.heap[o].slots);
    var r := PropagateMark(s);
    MarksProgress(s1, r, pushed);
    SameShapeFields(s.heap, r.heap);
    assert UpvalsDone(s.heap) ==> UpvalsDone(s1.heap);
    if AgainDone(s) { TraversedAgain(s, s1, o, r, pushed); }
  }

  lemma TraversedAgain(s: State, s1: State, o: Id, r: State, pushed: seq<Id>)
    requires AgainDone(s) && o in s.heap && NonWhite(s.heap, o) && Marks(s1, r, pushed)
    requires s1.heap == s.heap || s1.heap == Recolor(s.heap, o, Black)
    requires s1.grayagain == s.grayagain || (s.heap[o].kind.Thread? && s1.grayagain == [o] + s.grayagain)
    requires forall c :: Edge(s.heap, o, c) ==> NonWhite(r.heap, c)
    ensures AgainDone(r)
  {
    MarksShape(s1, r, pushed);
    SameShapeFields(s.heap, s1.heap);
    forall x, c | x in r.grayagain && Edge(r.heap, x, c) ensures NonWhite(r.heap, c) {
      if x != o { assert x in s.grayagain && Edge(s.heap, x, c); }
    }
  }

  lemma ProgressTrans(s: State, s1: State, s2: State)
    requires Progress(s, s1) && Progress(s1, s2)
    ensures Progress(s, s2)
  {
  }

  /** propagateall empties the gray list and keeps the invariant. */
  lemma PropagateAllKeepsInv(s: State)
    requires MarkInv(s)
    ensures MarkInv(PropagateAll(s)) && PropagateAll(s).gray == [] && Progress(s, PropagateAll(s))
    decreases Whites(s.heap), |s.gray|
  {
    if s.gray != [] {
      PropagateMarkKeepsInv(s);
      PropagateMarkProgress(s);
      PropagateAllKeepsInv(PropagateMark(s));
      ProgressTrans(s, PropagateMark(s), PropagateAll(s));
    }
  }

  lemma MarkFieldsKeepsInv(s: State, vs: seq<Option<Id>>)
    requires MarkInv(s) && forall c :: Some(c) in vs ==> c in s.heap
    ensures MarkInv(MarkFields(s, vs)) && Progress(s, MarkFields(s, vs))
    ensures forall c :: Some(c) in vs ==> NonWhite(MarkFields(s, vs).heap, c)
    ensures MarkFields(s, vs).grayagain == s.grayagain
  {
    var pushed := MarkFieldsMarks(s, vs);
    MarksKeepsInv(s, MarkFields(s, vs), pushed);
    MarksProgress(s, MarkFields(s, vs), pushed);
  }

  ghost predicate UpvalDone(h: Heap, o: Id)
  {
    forall c :: Edge(h, o, c) ==> NonWhite(h, c)
  }

  ghost predicate UpvalsDoneBut(h: Heap, uvs: seq<Id>)
  {
    forall o :: o in h && h[o].home.Some? && h[o].color == Gray && o !in uvs ==> UpvalDone(h, o)
  }

  lemma RemarkOne(s: State, uvs: seq<Id>) returns (s1: State)
    requires MarkInv(s) && uvs != [] && UpvalsDoneBut(s.heap, uvs)
    ensures s1 == if uvs[0] in s.heap && s.heap[uvs[0]].color == Gray then MarkFields(s, Fields(s.heap, uvs[0])) else s
    ensures MarkInv(s1) && Progress(s, s1) && UpvalsDoneBut(s1.heap, uvs[1..])
  {
    s1 := s;
    var pushed := [];
    if uvs[0] in s.heap && s.heap[uvs[0]].color == Gray {
      var fs := Fields(s.heap, uvs[0]);
      assert forall c :: Some(c) in fs <==> Edge(s.heap, uvs[0], c);
      s1 := MarkFields(s, fs);
      MarkFieldsKeepsInv(s, fs);
      pushed := MarkFieldsMarks(s, fs);
    }
    RemarkedBut(s, s1, uvs, pushed);
  }

  lemma RemarkedBut(s: State, s1: State, uvs: seq<Id>, pushed: seq<Id>)
    requires KindColors(s.heap) && Marks(s, s1, pushed) && uvs != [] && UpvalsDoneBut(s.heap, uvs)
    requires NonWhite(s.heap, uvs[0]) ==> s.heap[uvs[0]].color == Gray ==> forall c :: Edge(s.heap, uvs[0], c) ==>
      NonWhite(s1.heap, c)
    ensures UpvalsDoneBut(s1.heap, uvs[1..])
  {
    MarksShape(s, s1, pushed);
    forall o | o in s1.heap && s1.heap[o].home.Some? && s1.heap[o].color == Gray && o !in uvs[1..]
      ensures UpvalDone(s1.heap, o)
    {
      assert Kept(s.heap, s1.heap, o, pushed);
      assert KindColor(s.heap[o]);
      if o != uvs[0] && NonWhite(s.heap, o) { assert o !in uvs; assert UpvalDone(s.heap, o); }
    }
  }

  /** remarkupvals leaves every gray open upvalue of the ring with a marked value. */
  lemma RemarkUpvalsDone(s: State, uvs: seq<Id>)
    requires MarkInv(s) && UpvalsDoneBut(s.heap, uvs)
    ensures MarkInv(RemarkUpvals(s, uvs)) && UpvalsDone(RemarkUpvals(s, uvs).heap)
    ensures Progress(s, RemarkUpvals(s, uvs))
    decreases |uvs|
  {
    if uvs != [] {
      var s1 := RemarkOne(s, uvs);
      RemarkUpvalsDone(s1, uvs[1..]);
      ProgressTrans(s, s1, RemarkUpvals(s, uvs));
    } else {
      forall o, c | o in s.heap && s.heap[o].home.Some? && s.heap[o].color == Gray && Edge(s.heap, o, c)
        ensures NonWhite(s.heap, c)
      {
        assert UpvalDone(s.heap, o);
      }
    }
  }

  /** Marked objects refer to marked objects only. */
  ghost predicate MarkedClosed(h: Heap)
  {
    forall o, c :: NonWhite(h, o) && Edge(h, o, c) ==> NonWhite(h, c)
  }

  /** What atomic is for: once it has marked, everything a marked object or a root refers
      to is marked, although the mutator ran between the steps before it. */
  lemma MarkAtomicallyComplete(s: State)
    requires MarkInv(s) && NonWhite(s.heap, s.mainthread) && NonWhite(s.heap, s.registry)
    requires forall o :: IsRoot(s, o) ==> o in s.heap
    requires forall o :: o in s.heap && s.heap[o].home.Some? ==> o in s.uvhead
    requires forall o :: o in s.heap && s.heap[o].kind.String? ==> s.heap[o].slots == []
    ensures var r := MarkAtomically(s);
      && SameShape(s.heap, r.heap) && r == s.(heap := r.heap, gray := [], grayagain := r.grayagain)
      && KindColors(r.heap) && NoDead(r) && Closed(r.heap) && MarkedClosed(r.heap)
      && forall o :: IsRoot(s, o) ==> NonWhite(r.heap, o)
  {
    var s3 := AtomicFirstHalf(s);
    var s4 := s3.(gray := s3.grayagain, grayagain := []);
    TraverseAgain(s3);
    PropagateAllKeepsInv(s4);
    var r := PropagateAll(s4);
    assert SameShape(s.heap, r.heap);
    SameShapeFields(s.heap, r.heap);
    AtomicClosed(r);
  }

  lemma TraverseAgain(s: State)
    requires MarkInv(s) && s.gray == []
    ensures MarkInv(s.(gray := s.grayagain, grayagain := []))
  {
    assert s.gray + s.grayagain == s.grayagain + [];
  }

  /** Up to the point where `grayagain` becomes the gray list. */
  lemma AtomicFirstHalf(s: State) returns (s3: State)
    requires MarkInv(s) && NonWhite(s.heap, s.mainthread) && NonWhite(s.heap, s.registry)
    requires forall o :: IsRoot(s, o) ==> o in s.heap
    requires forall o :: o in s.heap && s.heap[o].home.Some? ==> o in s.uvhead
    ensures MarkInv(s3) && s3.gray == [] && Progress(s, s3) && UpvalsDone(s3.heap)
    ensures MarkAtomically(s) == PropagateAll(s3.(gray := s3.grayagain, grayagain := []))
    ensures forall o :: IsRoot(s, o) ==> NonWhite(s3.heap, o)
  {
    RemarkUpvalsDone(s, s.uvhead);
    var s0 := RemarkUpvals(s, s.uvhead);
    PropagateAllKeepsInv(s0);
    var s1 := PropagateAll(s0);
    ProgressTrans(s, s0, s1);
    var vs := [Some(s.running)] + s.mt;
    assert vs[0] == Some(s.running);
    assert forall c :: Some(c) in vs ==> IsRoot(s, c);
    MarkFieldsKeepsInv(s1, vs);
    var s2 := MarkFields(s1, vs);
    ProgressTrans(s, s1, s2);
    PropagateAllKeepsInv(s2);
    s3 := PropagateAll(s2);
    ProgressTrans(s, s2, s3);
    AtomicRoots(s, s2, s3, vs);
  }

  lemma AtomicRoots(s: State, s2: State, r: State, vs: seq<Option<Id>>)
    requires NonWhite(s2.heap, s.mainthread) && NonWhite(s2.heap, s.registry)
    requires vs == [Some(s.running)] + s.mt
    requires forall c :: Some(c) in vs ==> NonWhite(s2.heap, c)
    requires forall o :: NonWhite(s2.heap, o) ==> NonWhite(r.heap, o)
    ensures forall o :: IsRoot(s, o) ==> NonWhite(r.heap, o)
  {
    forall o | IsRoot(s, o) ensures NonWhite(s2.heap, o) {
      if o == s.running { assert vs[0] == Some(o); }
      if Some(o) in s.mt { assert Some(o) in vs; }
    }
  }

  lemma AtomicClosed(r: State)
    requires MarkInv(r) && r.gray == [] && AgainDone(r) && UpvalsDone(r.heap)
    requires forall o :: o in r.heap && r.heap[o].kind.String? ==> r.heap[o].slots == []
    ensures MarkedClosed(r.heap)
  {
    forall o, c | NonWhite(r.heap, o) && Edge(r.heap, o, c) ensures NonWhite(r.heap, c) {
      if r.heap[o].color == Gray && ListKind(r.heap[o].kind) {
        assert o in r.gray + r.grayagain;
        assert o in r.grayagain;
      }
    }
  }
}

/** The collector's view of the heap: objects, colours, the lists that own them and
    the references the mark phase follows (lgc.h, lobject.h, lstate.h). */
module GcHeap {
  import opened Base

  type Id = int

  datatype Kind = String | Userdata | Upval | Function | Table | Thread | Proto

  /** The white bits and the black bit of `marked` are never set together, so they are
      one colour; White(b) is white of type b. */
  datatype Color = White(bit: bool) | Gray | Black

  /** A slot of an open upvalue: a thread and a position on its stack. */
  datatype Slot = Slot(thread: Id, pos: nat)

  /** A collectable object.
      - `slots` are its collectable references in traversal order; a slot is None when it
        holds nil or a plain value. For a thread they are its global table and its stack.
      - `home` is the stack slot an open upvalue stands for; None for everything else.
      - `openupval` is the list of open upvalues of a thread, topmost slot first.
      - `bytes` is the contents of a string. */
  datatype Obj = Obj(kind: Kind, color: Color, fixed: bool, slots: seq<Option<Id>>,
                     home: Option<Slot>, openupval: seq<Id>, bytes: seq<bv8>)

  type Heap = map<Id, Obj>

  datatype Phase = Pause | Propagate | SweepString | Sweep | Finalize

  /** global_State: `sweepgc` is the number of objects of `rootgc` already passed by the
      sweep, `strt` the buckets of the string table, `uvhead` the ring of all open
      upvalues read from its head, `running` the thread that drives the collector. */
  datatype State = State(
    heap: Heap, rootgc: seq<Id>, strt: seq<seq<Id>>, uvhead: seq<Id>,
    white: bool, phase: Phase, gray: seq<Id>, grayagain: seq<Id>,
    sweepstrgc: nat, sweepgc: nat,
    mainthread: Id, running: Id, registry: Id, mt: seq<Option<Id>>)

  /** The values an object refers to: an open upvalue sees the stack slot it stands for,
      everything else its own slots. */
  function Fields(h: Heap, o: Id): seq<Option<Id>>
    requires o in h
  {
    match h[o].home
    case None => h[o].slots
    case Some(at) =>
      if at.thread in h && at.pos < |h[at.thread].slots| then [h[at.thread].slots[at.pos]] else []
  }

  ghost predicate Edge(h: Heap, o: Id, c: Id)
  {
    o in h && Some(c) in Fields(h, o)
  }

  ghost predicate IsRoot(s: State, o: Id)
  {
    o == s.mainthread || o == s.running || o == s.registry || Some(o) in s.mt
  }

  ghost predicate IsPath(s: State, p: seq<Id>)
  {
    |p| > 0 && IsRoot(s, p[0]) && forall i :: 0 < i < |p| ==> Edge(s.heap, p[i - 1], p[i])
  }

  ghost predicate Reachable(s: State, o: Id)
  {
    exists p :: IsPath(s, p) && p[|p| - 1] == o
  }

  predicate IsWhite(h: Heap, o: Id) { o in h && h[o].color.White? }
  predicate NonWhite(h: Heap, o: Id) { o in h && !h[o].color.White? }

  /** isdead: white of the type that is not current. */
  predicate IsDead(s: State, o: Id) { o in s.heap && s.heap[o].color == White(!s.white) }

  predicate Alive(s: State, o: Id) { o in s.heap && s.heap[o].color != White(!s.white) }

  predicate ListKind(k: Kind) { k.Function? || k.Table? || k.Thread? || k.Proto? }

  predicate IsOpen(h: Heap, o: Id) { o in h && h[o].home.Some? }

  function Recolor(h: Heap, o: Id, c: Color): (r: Heap)
    requires o in h
    ensures r.Keys == h.Keys
  {
    h[o := h[o].(color := c)]
  }

  /** Two heaps with the same objects, references and lists, up to colours. */
  ghost predicate SameShape(h: Heap, h': Heap)
  {
    && h'.Keys == h.Keys
    && forall o :: o in h ==> h'[o] == h[o].(color := h'[o].color)
  }

  lemma SameShapeFields(h: Heap, h': Heap)
    requires SameShape(h, h')
    ensures forall o :: o in h ==> Fields(h', o) == Fields(h, o)
    ensures forall o, c :: Edge(h', o, c) <==> Edge(h, o, c)
  {
    forall o | o in h ensures Fields(h', o) == Fields(h, o) {
      assert h'[o] == h[o].(color := h'[o].color);
      match h[o].home {
        case None =>
        case Some(at) => if at.thread in h { assert h'[at.thread] == h[at.thread].(color := h'[at.thread].color); }
      }
    }
  }

  lemma DistinctConcat(a: seq<Id>, b: seq<Id>)
    requires Distinct(a) && Distinct(b) && forall o :: o in a ==> o !in b
    ensures Distinct(a + b)
  {
    forall i, j | 0 <= i < j < |a + b| ensures (a + b)[i] != (a + b)[j] {
      if i < |a| && j >= |a| { assert a[i] in a && b[j - |a|] in b; }
    }
  }

  /** The list without the objects of `gone`, in the same order. */
  function Without(l: seq<Id>, gone: set<Id>): (r: seq<Id>)
    ensures forall o :: o in r <==> o in l && o !in gone
    ensures |r| <= |l|
  {
    if l == [] then []
    else if l[0] in gone then Without(l[1..], gone)
    else [l[0]] + Without(l[1..], gone)
  }

  /** What holds of every ordered pair of a list holds of every ordered pair that is left. */
  lemma {:induction false} WithoutOrder(l: seq<Id>, gone: set<Id>, i: nat, j: nat) returns (i': nat, j': nat)
    requires i < j < |Without(l, gone)|
    ensures i' < j' < |l| && l[i'] == Without(l, gone)[i] && l[j'] == Without(l, gone)[j]
  {
    if l[0] in gone {
      i', j' := WithoutOrder(l[1..], gone, i, j);
      i', j' := i' + 1, j' + 1;
    } else if i == 0 {
      assert Without(l, gone)[j] in Without(l[1..], gone);
      i' := 0;
      j' :| 0 <= j' < |l[1..]| && l[1..][j'] == Without(l, gone)[j];
      j' := j' + 1;
    } else {
      i', j' := WithoutOrder(l[1..], gone, i - 1, j - 1);
      i', j' := i' + 1, j' + 1;
    }
  }

  lemma WithoutNone(l: seq<Id>, gone: set<Id>)
    requires forall o :: o in l ==> o !in gone
    ensures Without(l, gone) == l
  {
    if l == [] {
      assert Without(l, gone) == [];
    } else {
      var o := l[0];
      assert o in l && o !in gone;
      WithoutNone(l[1..], gone);
      assert [l[0]] + l[1..] == l;
    }
  }

  lemma WithoutDistinct(l: seq<Id>, gone: set<Id>)
    requires Distinct(l)
    ensures Distinct(Without(l, gone))
  {
    forall i, j | 0 <= i < j < |Without(l, gone)| ensures Without(l, gone)[i] != Without(l, gone)[j] {
      var i', j' := WithoutOrder(l, gone, i, j);
    }
  }
}

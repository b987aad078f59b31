/** The state of the generator with its lists threaded through the code, against the state with
    the lists beside the code. */
module CodeThreads {
  import opened Base
  import opened LuaVm
  import opened CodeGen
  import S = CodeShape
  import L = CodeLists

  /** An expression with the heads of its lists. */
  datatype Exp = Exp(k: Kind, t: int, f: int)

  /** The function state: code, constants, the head of the jumps to the current position, the
      first free register, the number of active local variables. */
  datatype Gen = Gen(code: seq<Instr>, k: seq<Value>, jpc: int, free: int, nact: int)

  /** The lists of an expression share no jump with one another or with those of the expressions
      around it, `outer`; a pending comparison and an instruction without a register are last. */
  ghost predicate Lists(fs: FS, e: ExpDesc, outer: set<nat>)
  {
    && Distinct(e.t) && Distinct(e.f) && Distinct(fs.jpc)
    && S.Disjoint(e.t, e.f) && S.Disjoint(e.t, fs.jpc) && S.Disjoint(e.f, fs.jpc)
    && S.JumpsAt(fs.code, e.t, outer) && S.JumpsAt(fs.code, e.f, outer) && S.JumpsAt(fs.code, fs.jpc, outer)
    && (forall p :: p in outer ==> p < |fs.code| && fs.code[p].Jmp?)
    && Last(fs, e, outer)
  }

  ghost predicate Last(fs: FS, e: ExpDesc, outer: set<nat>)
  {
    match e.k
    case VJmp(q) => 0 < q && q + 1 == |fs.code| && fs.code[q].Jmp? && fs.code[q - 1].Cmp? && fs.jpc == [] && q !in e.t
      && q !in e.f && q !in outer
    case VReloc(q) => q + 1 == |fs.code| && (fs.code[q].Not? || fs.code[q].GetUpval?) && fs.jpc == []
    case _ => true
  }

  /** The jumps that have no target yet. */
  ghost function Pending(fs: FS, e: ExpDesc, outer: set<nat>): set<nat>
  {
    outer + S.Elems(e.t) + S.Elems(e.f) + S.Elems(fs.jpc) + (if e.k.VJmp? then {e.k.pc} else {})
  }

  /** The threaded state `g`, `x` is that of `fs`, `e`: the same code but for the links of the
      pending jumps, and these make up the lists. */
  ghost predicate Rep(g: Gen, x: Exp, fs: FS, e: ExpDesc, outer: set<nat>)
  {
    && Lists(fs, e, outer) && L.Alike(fs.code, g.code, Pending(fs, e, outer))
    && g.k == fs.k && g.free == fs.free && g.nact == fs.nact && x.k == e.k
    && L.IsList(g.code, g.jpc, fs.jpc) && L.IsList(g.code, x.t, e.t) && L.IsList(g.code, x.f, e.f)
    && (e.k.VJmp? ==> g.code[e.k.pc] == Jmp(NO_JUMP))
  }

  /** The jumps of other expressions are not touched. */
  ghost predicate Framed(code: seq<Instr>, code': seq<Instr>, outer: set<nat>)
  {
    forall i :: i in outer && i < |code| ==> i < |code'| && code'[i] == code[i]
  }

  lemma FramedTrans(c: seq<Instr>, c1: seq<Instr>, c2: seq<Instr>, outer: set<nat>)
    requires Framed(c, c1, outer) && Framed(c1, c2, outer)
    ensures Framed(c, c2, outer)
  {
  }

  lemma FramedLess(c: seq<Instr>, c': seq<Instr>, outer: set<nat>, more: set<nat>)
    requires Framed(c, c', more) && outer <= more
    ensures Framed(c, c', outer)
  {
  }

  /** A list of a framed expression is still there. */
  lemma FramedList(c: seq<Instr>, c': seq<Instr>, outer: set<nat>, h: int, l: seq<nat>)
    requires Framed(c, c', outer) && L.IsList(c, h, l) && S.Elems(l) <= outer
    ensures L.IsList(c', h, l)
  {
    forall p | p in l && p < |c| ensures p < |c'| && c'[p] == c[p] { assert p in S.Elems(l); }
    L.ListKept(c, c', h, l);
  }

  /** true and false change places. */
  lemma SwapRep(g: Gen, x: Exp, fs: FS, e: ExpDesc, outer: set<nat>)
    requires Rep(g, x, fs, e, outer)
    ensures Rep(g, Exp(x.k, x.f, x.t), fs, ExpDesc(e.k, e.f, e.t), outer)
  {
    assert Pending(fs, ExpDesc(e.k, e.f, e.t), outer) == Pending(fs, e, outer);
  }

  lemma KindRep(g: Gen, x: Exp, fs: FS, e: ExpDesc, outer: set<nat>, k: Kind)
    requires Rep(g, x, fs, e, outer) && S.NoHoles(e.k) && S.NoHoles(k)
    ensures Rep(g, x.(k := k), fs, e.(k := k), outer)
  {
    assert Pending(fs, e.(k := k), outer) == Pending(fs, e, outer);
  }

  /** An instruction is added. */
  lemma EmitRep(g: Gen, x: Exp, fs: FS, e: ExpDesc, outer: set<nat>, i: Instr, k: Kind)
    requires Rep(g, x, fs, e, outer) && S.NoHoles(e.k) && !i.Jmp?
    requires S.NoHoles(k) || (k == VReloc(|fs.code|) && (i.Not? || i.GetUpval?))
    ensures var n := |g.code|; var code := PatchList(g.code, fs.jpc, n, NO_REG, n) + [i];
      Rep(g.(code := code, jpc := NO_JUMP), x.(k := k), Emit(fs, i), e.(k := k), outer) && Framed(g.code, code, outer)
  {
    hide Rep, Lists;
    DischargeRep(g, x, fs, e, outer);
    var n := |g.code|;
    var g1 := g.(code := PatchList(g.code, fs.jpc, n, NO_REG, n), jpc := NO_JUMP);
    PushRep(g1, x, fs.(code := PatchList(fs.code, fs.jpc, n, NO_REG, n), jpc := []), e, outer, i, k);
  }

  /** The jumps to the current position get their target. */
  lemma DischargeRep(g: Gen, x: Exp, fs: FS, e: ExpDesc, outer: set<nat>)
    requires Rep(g, x, fs, e, outer) && S.NoHoles(e.k)
    ensures |g.code| == |fs.code|
    ensures var n := |g.code|; var code := PatchList(g.code, fs.jpc, n, NO_REG, n);
      && Rep(g.(code := code, jpc := NO_JUMP), x, fs.(code := PatchList(fs.code, fs.jpc, n, NO_REG, n), jpc := []), e,
         outer)
      && Framed(g.code, code, outer)
  {
    var n := |g.code|;
    var code := PatchList(g.code, fs.jpc, n, NO_REG, n);
    var fs' := fs.(code := PatchList(fs.code, fs.jpc, n, NO_REG, n), jpc := []);
    L.LinksForgotten(fs.code, g.code, Pending(fs, e, outer), fs.jpc, n, NO_REG, n);
    assert Pending(fs', e, outer) == Pending(fs, e, outer) - S.Elems(fs.jpc);
    PatchedKeeps(g.code, fs.jpc, n, NO_REG, n, x.t, e.t);
    PatchedKeeps(g.code, fs.jpc, n, NO_REG, n, x.f, e.f);
  }

  lemma PatchedKeeps(code: seq<Instr>, l: seq<nat>, vt: int, reg: int, dt: int, h: int, other: seq<nat>)
    requires L.IsList(code, h, other) && S.Disjoint(other, l)
    ensures L.IsList(PatchList(code, l, vt, reg, dt), h, other)
  {
    L.ListMembers(code, h, other);
    L.ListKept(code, PatchList(code, l, vt, reg, dt), h, other);
  }

  lemma PushRep(g: Gen, x: Exp, fs: FS, e: ExpDesc, outer: set<nat>, i: Instr, k: Kind)
    requires Rep(g, x, fs, e, outer) && S.NoHoles(e.k) && !i.Jmp? && fs.jpc == []
    requires S.NoHoles(k) || (k == VReloc(|fs.code|) && (i.Not? || i.GetUpval?))
    ensures Rep(g.(code := g.code + [i]), x.(k := k), fs.(code := fs.code + [i]), e.(k := k), outer)
    ensures Framed(g.code, g.code + [i], outer)
  {
    assert Pending(fs.(code := fs.code + [i]), e.(k := k), outer) == Pending(fs, e, outer);
    L.ListKept(g.code, g.code + [i], x.t, e.t);
    L.ListKept(g.code, g.code + [i], x.f, e.f);
  }

  /** A jump is added, with the jumps to the current position; it is not in a list yet. */
  lemma JumpRep(g: Gen, x: Exp, fs: FS, e: ExpDesc, outer: set<nat>, code: seq<Instr>)
    requires Rep(g, x, fs, e, outer) && S.NoHoles(e.k) && |code| == |g.code| + 1 && code[|g.code|].Jmp?
    requires forall i :: 0 <= i < |g.code| ==> code[i] == g.code[i]
    ensures |g.code| == |fs.code|
    ensures Rep(g.(code := code, jpc := NO_JUMP), x, Jump(fs), e, outer + S.Elems(JumpList(fs)))
    ensures Framed(g.code, code, outer)
    ensures S.Elems(JumpList(fs)) !! outer && Distinct(JumpList(fs))
  {
    var fs', more := Jump(fs), outer + S.Elems(JumpList(fs));
    assert S.Elems(JumpList(fs)) == {|fs.code|} + S.Elems(fs.jpc);
    assert Pending(fs', e, more) == Pending(fs, e, outer) + {|fs.code|};
    S.DistinctAppend([|fs.code|], fs.jpc);
    L.ListKept(g.code, code, x.t, e.t);
    L.ListKept(g.code, code, x.f, e.f);
  }

  /** A list that was held joins the jumps for false. */
  lemma JoinRep(g: Gen, x: Exp, fs: FS, e: ExpDesc, outer: set<nat>, l: seq<nat>, code: seq<Instr>, f: int)
    requires Rep(g, x, fs, e, outer + S.Elems(l)) && Distinct(l) && S.Elems(l) !! outer
    requires L.IsList(code, f, e.f + l) && |code| == |g.code|
    requires forall i :: 0 <= i < |code| && i !in e.f ==> code[i] == g.code[i]
    requires forall i :: 0 <= i < |code| && i in e.f ==> code[i].Jmp?
    ensures Rep(g.(code := code), x.(f := f), fs, e.(f := e.f + l), outer) && Framed(g.code, code, outer)
  {
    hide Lists, Pending;
    JoinLists(fs, e, outer, l);
    L.ListKept(g.code, code, x.t, e.t);
    L.ListKept(g.code, code, g.jpc, fs.jpc);
  }

  lemma JoinLists(fs: FS, e: ExpDesc, outer: set<nat>, l: seq<nat>)
    requires Lists(fs, e, outer + S.Elems(l)) && Distinct(l) && S.Elems(l) !! outer
    ensures var e' := e.(f := e.f + l);
      Lists(fs, e', outer) && Pending(fs, e', outer) == Pending(fs, e, outer + S.Elems(l))
    ensures forall p :: p in e.f ==> p !in e.t && p !in fs.jpc && p !in outer && p in Pending(fs, e, outer + S.Elems(l))
    ensures e.k.VJmp? ==> e.k.pc !in e.f && e.k.pc < |fs.code|
  {
    assert S.Elems(e.f + l) == S.Elems(e.f) + S.Elems(l);
    assert S.Disjoint(e.f, l) by { forall p | p in e.f ensures p !in l { assert p !in outer + S.Elems(l); } }
    S.DistinctAppend(e.f, l);
    hide Distinct;
    assert forall p :: p in l ==> p in outer + S.Elems(l);
  }

  /** The jumps for true are to come here. */
  lemma HereRep(g: Gen, x: Exp, fs: FS, e: ExpDesc, outer: set<nat>, code: seq<Instr>, jpc: int)
    requires Rep(g, x, fs, e, outer) && S.NoHoles(e.k)
    requires L.IsList(code, jpc, fs.jpc + e.t) && |code| == |g.code|
    requires forall i :: 0 <= i < |code| && i !in fs.jpc ==> code[i] == g.code[i]
    requires forall i :: 0 <= i < |code| && i in fs.jpc ==> code[i].Jmp?
    ensures Rep(g.(code := code, jpc := jpc), x.(t := NO_JUMP), PatchToHere(fs, e.t), e.(t := []), outer)
    ensures Framed(g.code, code, outer)
  {
    var fs', e' := PatchToHere(fs, e.t), e.(t := []);
    assert S.Elems(fs.jpc + e.t) == S.Elems(fs.jpc) + S.Elems(e.t);
    assert Pending(fs', e', outer) == Pending(fs, e, outer);
    S.DistinctAppend(fs.jpc, e.t);
    L.ListKept(g.code, code, x.f, e.f);
  }

  /** A list that was held is to come here. */
  lemma HeldHereRep(g: Gen, x: Exp, fs: FS, e: ExpDesc, outer: set<nat>, l: seq<nat>, code: seq<Instr>, jpc: int)
    requires Rep(g, x, fs, e, outer + S.Elems(l)) && S.NoHoles(e.k) && Distinct(l) && S.Elems(l) !! outer
    requires L.IsList(code, jpc, fs.jpc + l) && |code| == |g.code|
    requires forall i :: 0 <= i < |code| && i !in fs.jpc ==> code[i] == g.code[i]
    requires forall i :: 0 <= i < |code| && i in fs.jpc ==> code[i].Jmp?
    ensures Rep(g.(code := code, jpc := jpc), x, PatchToHere(fs, l), e, outer) && Framed(g.code, code, outer)
  {
    var fs' := PatchToHere(fs, l);
    assert S.Elems(fs.jpc + l) == S.Elems(fs.jpc) + S.Elems(l);
    assert Pending(fs', e, outer) == Pending(fs, e, outer + S.Elems(l));
    assert S.Disjoint(fs.jpc, l) by { forall p | p in fs.jpc ensures p !in l { assert p !in outer + S.Elems(l); } }
    S.DistinctAppend(fs.jpc, l);
    assert forall p :: p in l ==> p in outer + S.Elems(l);
    L.ListKept(g.code, code, x.t, e.t);
    L.ListKept(g.code, code, x.f, e.f);
  }

  /** The jumps for false get their targets. */
  lemma PatchRep(g: Gen, x: Exp, fs: FS, e: ExpDesc, outer: set<nat>, vt: int, reg: int, dt: int)
    requires Rep(g, x, fs, e, outer) && S.NoHoles(e.k)
    ensures var code := PatchList(g.code, e.f, vt, reg, dt);
      && Rep(g.(code := code), x.(f := NO_JUMP), fs.(code := PatchList(fs.code, e.f, vt, reg, dt)), e.(f := []), outer)
      && Framed(g.code, code, outer)
  {
    var fs', e' := fs.(code := PatchList(fs.code, e.f, vt, reg, dt)), e.(f := []);
    L.LinksForgotten(fs.code, g.code, Pending(fs, e, outer), e.f, vt, reg, dt);
    assert Pending(fs', e', outer) == Pending(fs, e, outer) - S.Elems(e.f);
    PatchedKeeps(g.code, e.f, vt, reg, dt, x.t, e.t);
    PatchedKeeps(g.code, e.f, vt, reg, dt, g.jpc, fs.jpc);
  }

  /** The jumps for false lose their values. */
  lemma RemoveRep(g: Gen, x: Exp, fs: FS, e: ExpDesc, outer: set<nat>)
    requires Rep(g, x, fs, e, outer)
    ensures var code := RemoveValues(g.code, e.f);
      Rep(g.(code := code), x, fs.(code := RemoveValues(fs.code, e.f)), e, outer) && Framed(g.code, code, outer)
  {
    hide Lists, L.IsList;
    L.LinksForgotten(fs.code, g.code, Pending(fs, e, outer), e.f, 0, 0, 0);
    RemovedLists(fs, e, outer);
    RemovedKeeps(g.code, e.f, x.t, e.t);
    RemovedKeeps(g.code, e.f, x.f, e.f);
    RemovedKeeps(g.code, e.f, g.jpc, fs.jpc);
    JumpsPending(fs, e, outer);
    assert Pending(fs.(code := RemoveValues(fs.code, e.f)), e, outer) == Pending(fs, e, outer);
  }

  lemma JumpsPending(fs: FS, e: ExpDesc, outer: set<nat>)
    requires Lists(fs, e, outer)
    ensures forall p :: p in Pending(fs, e, outer) ==> p < |fs.code| && fs.code[p].Jmp?
  {
  }

  lemma RemovedLists(fs: FS, e: ExpDesc, outer: set<nat>)
    requires Lists(fs, e, outer)
    ensures Lists(fs.(code := RemoveValues(fs.code, e.f)), e, outer)
  {
  }

  lemma RemovedKeeps(code: seq<Instr>, l: seq<nat>, h: int, other: seq<nat>)
    requires L.IsList(code, h, other)
    ensures L.IsList(RemoveValues(code, l), h, other)
  {
    L.ListMembers(code, h, other);
    L.ListKept(code, RemoveValues(code, l), h, other);
  }

  /** The instruction before the end changes, and stays no jump. */
  lemma ChangeRep(g: Gen, x: Exp, fs: FS, e: ExpDesc, outer: set<nat>, q: nat, i: Instr)
    requires Rep(g, x, fs, e, outer) && q < |fs.code| && q !in Pending(fs, e, outer) && !i.Jmp?
    requires (e.k.VReloc? && e.k.pc == q ==> i.Not? || i.GetUpval?) && (e.k.VJmp? && e.k.pc == q + 1 ==> i.Cmp?)
    requires !fs.code[q].Jmp?
    ensures q < |g.code| && g.code[q] == fs.code[q]
    ensures Rep(g.(code := g.code[q := i]), x, fs.(code := fs.code[q := i]), e, outer)
    ensures Framed(g.code, g.code[q := i], outer)
  {
    var fs' := fs.(code := fs.code[q := i]);
    assert Pending(fs', e, outer) == Pending(fs, e, outer);
    ChangedKeeps(g.code, q, i, x.t, e.t);
    ChangedKeeps(g.code, q, i, x.f, e.f);
    ChangedKeeps(g.code, q, i, g.jpc, fs.jpc);
  }

  lemma ChangedKeeps(code: seq<Instr>, q: nat, i: Instr, h: int, l: seq<nat>)
    requires q < |code| && !code[q].Jmp? && L.IsList(code, h, l)
    ensures L.IsList(code[q := i], h, l)
  {
    L.ListMembers(code, h, l);
    L.ListKept(code, code[q := i], h, l);
  }

  /** The last instruction, which is not a jump, is dropped. */
  lemma ChopRep(g: Gen, x: Exp, fs: FS, e: ExpDesc, outer: set<nat>, k: Kind)
    requires Rep(g, x, fs, e, outer) && e.k.VReloc? && S.NoHoles(k)
    ensures var q := e.k.pc;
      && q < |g.code| && g.code[q] == fs.code[q]
      && Rep(g.(code := g.code[..q]), x.(k := k), fs.(code := fs.code[..q]), e.(k := k), outer)
      && Framed(g.code, g.code[..q], outer)
  {
    var q := e.k.pc;
    assert Pending(fs.(code := fs.code[..q]), e.(k := k), outer) == Pending(fs, e, outer);
    forall p | p in Pending(fs, e, outer) ensures p < q { }
    ChoppedKeeps(g.code, q, x.t, e.t);
    ChoppedKeeps(g.code, q, x.f, e.f);
    ChoppedKeeps(g.code, q, g.jpc, fs.jpc);
  }

  lemma ChoppedKeeps(code: seq<Instr>, q: nat, h: int, l: seq<nat>)
    requires q + 1 == |code| && !code[q].Jmp? && L.IsList(code, h, l)
    ensures L.IsList(code[..q], h, l)
  {
    L.ListMembers(code, h, l);
    L.ListKept(code, code[..q], h, l);
  }

  /** A pending comparison is a list of one jump. */
  lemma CommitRep(g: Gen, x: Exp, fs: FS, e: ExpDesc, outer: set<nat>, k: Kind)
    requires Rep(g, x, fs, e, outer) && e.k.VJmp? && S.NoHoles(k)
    ensures Rep(g, x.(k := k), fs, e.(k := k), outer + S.Elems([e.k.pc])) && L.JumpList(g.code, e.k.pc, [e.k.pc])
    ensures S.Elems([e.k.pc]) !! outer
  {
    assert S.Elems([e.k.pc]) == {e.k.pc};
    assert Pending(fs, e.(k := k), outer + S.Elems([e.k.pc])) == Pending(fs, e, outer);
    assert [e.k.pc][1..] == [];
  }

  /** The other way round: a comparison and its jump at the end of the code. */
  lemma CompareRep(g: Gen, x: Exp, fs: FS, e: ExpDesc, outer: set<nat>)
    requires var q := |fs.code| - 1;
      q > 0 && Rep(g, x, fs, e, outer + {q}) && q !in outer && g.code[q] == Jmp(NO_JUMP) && fs.code[q - 1].Cmp?
    requires S.NoHoles(e.k) && fs.jpc == []
    ensures var q := |fs.code| - 1; Rep(g, x.(k := VJmp(q)), fs, e.(k := VJmp(q)), outer)
  {
    var q := |fs.code| - 1;
    assert Pending(fs, e.(k := VJmp(q)), outer) == Pending(fs, e, outer + {q});
  }

  /** The list for false is held while another expression is compiled. */
  lemma HoldRep(g: Gen, x: Exp, fs: FS, e: ExpDesc, outer: set<nat>)
    requires Rep(g, x, fs, e, outer) && S.NoHoles(e.k) && e.t == []
    ensures Rep(g, Exp(e.k, NO_JUMP, NO_JUMP), fs, ExpDesc(e.k, [], []), outer + S.Elems(e.f))
    ensures L.JumpList(g.code, x.f, e.f)
    ensures S.Elems(e.f) !! outer
  {
    assert Pending(fs, ExpDesc(e.k, [], []), outer + S.Elems(e.f)) == Pending(fs, e, outer);
  }
}
